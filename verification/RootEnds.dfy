/** A root question ends: with room for the pair and its spellings no bound is met,
    one answer is given on every budget, and equivalence is inclusion both ways. */
module RootEnds {
  import opened Verdicts
  import opened Kinds
  import opened Schemas
  import opened Constructors
  import opened Values
  import opened Oracles
  import opened Readings
  import opened KindWalk
  import opened Emptiness
  import opened Unbounded
  import opened EmptinessEnds
  import opened Rules
  import opened Decision
  import opened DecisionFuel
  import opened DecisionEnds
  import opened Runs
  import opened Respelling
  import opened Root

  // ---- What each spelling needs.

  ghost function MeetNeeds(a: Schema, b: Schema, q: Setting): nat { Enough(MeetWithin([a, b], q.gate, true), q) }

  ghost function SpellingNeeds(a: Schema, b: Schema, q: Setting): nat {
    (if a.Complement? && a.inner.Union? then Needs(MeetWithin(ComplementedAll(a.inner.members), q.gate, true), b, q) else 0)
    + MeetNeeds(a, Complemented(b), q)
    + (if b.Union? then Needs(Moved(a, b, q.gate).sub, Moved(a, b, q.gate).sup, q) else 0)
    + (if b.Complement? then Needs(MeetWithin([a, b.inner], q.gate, true), Nothing, q) + Needs(b.inner, Complemented(a), q) + MeetNeeds(a, b.inner, q) else 0)
    + MeetNeeds(a, b, q)
    + Enough(a, q)
  }

  /** The room a root question needs, a step left over. */
  ghost function QuestionNeeds(a: Schema, b: Schema, q: Setting): nat { 1 + Needs(a, b, q) + SpellingNeeds(a, b, q) }

  lemma AGoalWithRoom(a: Schema, b: Schema, q: Setting, w: Setting, steps: nat)
    requires Alike(q, w) && Room(w, 0, steps, Needs(a, b, q))
    ensures RanIn(IsSubtypeRec(a, b, w, ROOT, OUTSIDE, steps), steps, Needs(a, b, q))
  {
    hide IsSubtypeRec, Needs;
  }

  lemma AnEmptiedEnds(a: Schema, b: Schema, q: Setting, w: Setting, steps: nat)
    requires Alike(q, w) && Room(w, 0, steps, MeetNeeds(a, b, q))
    ensures RanIn(Emptied(a, b, w, steps), steps, MeetNeeds(a, b, q))
  {
    hide EmptyAndRegion, Enough, Limit, MeetWithin;
    WithRoomItReadsTheLimit(MeetWithin([a, b], q.gate, true), q, w, 0, steps);
  }

  lemma ThenEnds(first: Ran, second: Ran, steps: nat, n: nat, more: nat)
    requires RanIn(first, steps, n) && RanIn(second, first.left, more)
    ensures RanIn(Then(first, second), steps, n + more)
  {
  }

  lemma EarlySpellingsEnd(a: Schema, b: Schema, q: Setting, w: Setting, given: nat)
    requires Alike(q, w) && Room(w, 0, given, SpellingNeeds(a, b, q))
    ensures !PushedThrough(a, b, w, given).met && !AgainstATable(a, b, w, given).met
  {
    hide IsSubtypeRec, Emptied, Needs, Enough, MeetNeeds, Moved, MeetWithin;
    if a.Complement? && a.inner.Union? { AGoalWithRoom(MeetWithin(ComplementedAll(a.inner.members), q.gate, true), b, q, w, given); }
    AnEmptiedEnds(a, Complemented(b), q, w, given);
  }

  lemma AUnionsSpellingEnds(a: Schema, b: Schema, q: Setting, w: Setting, given: nat)
    requires Alike(q, w) && Room(w, 0, given, SpellingNeeds(a, b, q)) && b.Union?
    ensures !AgainstAUnion(a, b, w, given).met
  {
    hide IsSubtypeRec, Emptied, Needs, Enough, MeetNeeds, Moved, MeetWithin, Then;
    var moved := Moved(a, b, q.gate);
    AGoalWithRoom(moved.sub, moved.sup, q, w, given);
    var first := IsSubtypeRec(moved.sub, moved.sup, w, ROOT, OUTSIDE, given);
    AnEmptiedEnds(a, Complemented(b), q, w, first.left);
    ThenEnds(first, Emptied(a, Complemented(b), w, first.left), given, Needs(moved.sub, moved.sup, q), MeetNeeds(a, Complemented(b), q));
  }

  lemma AComplementsSpellingEnds(a: Schema, b: Schema, q: Setting, w: Setting, given: nat)
    requires Alike(q, w) && Room(w, 0, given, SpellingNeeds(a, b, q)) && b.Complement?
    ensures !AgainstAComplement(a, b, w, given).met
  {
    hide IsSubtypeRec, Emptied, Needs, Enough, MeetNeeds, Moved, MeetWithin, Then;
    var meet := MeetWithin([a, b.inner], q.gate, true);
    var first := IsSubtypeRec(meet, Nothing, w, ROOT, OUTSIDE, given);
    AGoalWithRoom(meet, Nothing, q, w, given);
    AGoalWithRoom(b.inner, Complemented(a), q, w, first.left);
    var second := IsSubtypeRec(b.inner, Complemented(a), w, ROOT, OUTSIDE, first.left);
    ThenEnds(first, second, given, Needs(meet, Nothing, q), Needs(b.inner, Complemented(a), q));
    var both := Then(first, second);
    AnEmptiedEnds(a, b.inner, q, w, both.left);
    ThenEnds(both, Emptied(a, b.inner, w, both.left), given, Needs(meet, Nothing, q) + Needs(b.inner, Complemented(a), q), MeetNeeds(a, b.inner, q));
  }

  lemma TwoMeetsSpellingEnds(a: Schema, b: Schema, q: Setting, w: Setting, given: nat)
    requires Alike(q, w) && Room(w, 0, given, SpellingNeeds(a, b, q))
    ensures !TwoMeetsTogether(a, b, w, given).met
  {
    hide Emptied, EmptyAndRegion, Needs, Enough, MeetNeeds, Moved, MeetWithin, Limit;
    AnEmptiedEnds(a, b, q, w, given);
    var together := Emptied(a, b, w, given);
    WithRoomItReadsTheLimit(a, q, w, 0, together.left);
    TwoMeetsAre(a, b, w, given);
  }

  lemma EverySpellingEnds(a: Schema, b: Schema, q: Setting, w: Setting, given: nat)
    requires Alike(q, w) && Room(w, 0, given, SpellingNeeds(a, b, q))
    ensures !Respelled(a, b, w, given).met
  {
    hide PushedThrough, AgainstATable, AgainstAUnion, AgainstAComplement, TwoMeetsTogether, SpillsAKindInto, SpellingNeeds;
    EarlySpellingsEnd(a, b, q, w, given);
    if b.Union? { AUnionsSpellingEnds(a, b, q, w, given); }
    if b.Complement? { AComplementsSpellingEnds(a, b, q, w, given); }
    TwoMeetsSpellingEnds(a, b, q, w, given);
  }

  // ---- The question.

  /** With room, one asking meets no bound and leaves a step. */
  lemma AQuestionEnds(a: Schema, b: Schema, q: Setting, w: Setting, steps: nat, given: Allowance)
    requires Alike(q, w) && Room(w, 0, steps, QuestionNeeds(a, b, q))
    ensures var r := AskedOnce(a, b, w, steps, given); !r.met && r.left > 0 && steps <= r.left + Needs(a, b, q)
  {
    hide IsSubtypeRec, Respelled, BelowByEmptiness, Needs, SpellingNeeds, AskedOnce;
    AGoalWithRoom(a, b, q, w, steps);
    AnAskingIs(a, b, w, steps, given);
    EverySpellingEnds(a, b, q, w, Least(IsSubtypeRec(a, b, w, ROOT, OUTSIDE, steps).left, w.respelling));
  }

  /** An asking no bound stopped, with a step left, answers alike on more steps. */
  lemma AskedWithMore(a: Schema, b: Schema, q: Setting, steps: nat, given: Allowance, more: nat, other: Allowance)
    requires var r := AskedOnce(a, b, q, steps, given); !r.met && r.left > 0
    requires steps <= more
    ensures var r := AskedOnce(a, b, q, more, other); r.answer == AskedOnce(a, b, q, steps, given).answer && !r.met
  {
    hide IsSubtypeRec, Respelled, BelowByEmptiness, AskedOnce;
    AnAskingIs(a, b, q, steps, given);
    AnAskingIs(a, b, q, more, other);
    var left := IsSubtypeRec(a, b, q, ROOT, OUTSIDE, steps).left;
    MoreForAGoal(a, b, q, ROOT, OUTSIDE, steps, q, 0, more - steps);
    assert steps + (more - steps) == more;
    var allowance, wider := Least(left, q.respelling), Least(left + (more - steps), q.respelling);
    MoreForTheSpellings(a, b, q, allowance, wider - allowance);
    assert allowance + (wider - allowance) == wider;
    StepsLeftReadNoBounds(a, b, q, left, given);
    StepsLeftReadNoBounds(a, b, q, left + (more - steps), other);
  }

  /** With room, one answer is given on every budget. */
  lemma OneAnswer(a: Schema, b: Schema, q: Setting, w: Setting, steps: nat, given: Allowance, more: nat, other: Allowance)
    requires Alike(q, w) && Room(w, 0, steps, QuestionNeeds(a, b, q)) && steps <= more
    ensures AskedOnce(a, b, w, steps, given).answer == AskedOnce(a, b, w, more, other).answer
  {
    hide AskedOnce, QuestionNeeds;
    AQuestionEnds(a, b, q, w, steps, given);
    AskedWithMore(a, b, w, steps, given, more, other);
  }

  // ---- Equivalence is inclusion both ways.

  /** An equivalence answered is the first inclusion answered, on any budget. */
  lemma EquivalentIsBelow(a: Schema, b: Schema, q: Setting, given: Allowance)
    requires EquivalenceRelation(a, b, q, given).Holds?
    ensures SubtypeRelation(a, b, q, given).Holds?
  {
    hide AskedOnce;
  }

  /** And the second is never refuted. */
  lemma EquivalentIsNotRefutedBack(a: Schema, b: Schema, q: Setting, given: Allowance, m: Meaning)
    requires Reads(q, m) && EquivalenceRelation(a, b, q, given).Holds?
    ensures !SubtypeRelation(b, a, q, given).Fails?
  {
    hide Member, Truthful, EquivalenceRelation, SubtypeRelation;
    TheEquivalenceIsSound(a, b, q, given, m);
    TheRelationIsSound(b, a, q, given, m);
  }

  /** It is answered too, where both were asked with no bound met and a step left. */
  lemma EquivalentIsAbove(a: Schema, b: Schema, q: Setting, given: Allowance)
    requires EquivalenceRelation(a, b, q, given).Holds?
    requires var both := BothWays(a, b, q, given); !both.met && both.left > 0
    ensures SubtypeRelation(b, a, q, given).Holds?
  {
    hide AskedOnce;
    AskedWithMore(b, a, q, AskedOnce(a, b, q, given.budget, given).left, given, given.budget, given);
  }

  /** Two inclusions answered are an equivalence, where the second is asked with no
      bound met on what the first left of the budget, a step of it unspent. */
  lemma MutualInclusionIsEquivalence(a: Schema, b: Schema, q: Setting, given: Allowance)
    requires var first := AskedOnce(a, b, q, given.budget, given);
      var second := AskedOnce(b, a, q, first.left, given);
      first.answer.Holds? && !second.met && second.left > 0
    requires SubtypeRelation(b, a, q, given).Holds?
    ensures EquivalenceRelation(a, b, q, given).Holds?
  {
    hide IsSubtypeRec, Respelled, BelowByEmptiness, AskedOnce;
    var left := AskedOnce(a, b, q, given.budget, given).left;
    AskedWithMore(b, a, q, left, given, given.budget, given);
  }

  // ---- On a budget one question spends, it is not.

  const INTEGERS: Schema := Coll(SetColl, Schema.Int)
  const BOOLS_AMONG_THEM: Schema := Coll(SetColl, Union([Schema.Bool, Schema.Int]))

  lemma BoolsAreAmongIntegers()
    ensures RegionSet(Schema.Int) == RegionSet(Union([Schema.Bool, Schema.Int])) == Known(AdmittedRegions(Kind.Int))
  {
    var ms := [Schema.Bool, Schema.Int];
    assert ms[1..] == [Schema.Int] && ms[1..][1..] == [];
    assert EMPTY.Union(KindRegion(Kind.Bool)) == KindRegion(Kind.Bool);
    assert KindRegion(Kind.Bool).Union(AdmittedRegions(Kind.Int)) == AdmittedRegions(Kind.Int);
    assert RegionJoin(ms, UNION_UNIT) == RegionJoin(ms[1..], Known(KindRegion(Kind.Bool)));
    assert RegionJoin(ms[1..], Known(KindRegion(Kind.Bool))) == RegionJoin(ms[1..][1..], Known(AdmittedRegions(Kind.Int)));
  }

  /** Two steps answer each inclusion, and leave none for the other, so that the
      two sets are each below the other and not equivalent. */
  lemma ASpentBudgetForgetsTheSecond(q: Setting, given: Allowance)
    requires given.budget == 2 && q.maxDepth > 0
    ensures SubtypeRelation(INTEGERS, BOOLS_AMONG_THEM, q, given).Holds? && SubtypeRelation(BOOLS_AMONG_THEM, INTEGERS, q, given).Holds?
    ensures EquivalenceRelation(INTEGERS, BOOLS_AMONG_THEM, q, given).Unknown?
  {
    hide IsSubtypeRec, Respelled, BelowByEmptiness;
    BoolsAreAmongIntegers();
    TwoStepsAnswer(INTEGERS, BOOLS_AMONG_THEM, q);
    TwoStepsAnswer(BOOLS_AMONG_THEM, INTEGERS, q);
    NoStepAnswers(BOOLS_AMONG_THEM, INTEGERS, q, given);
  }

  /** Sets whose elements' regions are in order are answered in two steps. */
  lemma TwoStepsAnswer(a: Schema, b: Schema, q: Setting)
    requires AreSets(a, b) && RegionSet(a.element).region.SubsetOf(RegionSet(b.element).region) && q.maxDepth > 0
    ensures var r := IsSubtypeRec(a, b, q, ROOT, OUTSIDE, 2); r.answer.Holds? && r.left == 0 && !r.met
  {
    hide Bounded, WitnessRun, Run, OrElse, Decide;
    var elements := Just(a.element, b.element);
    TheRulesOfSets(a, b, q);
    RunOfTwoReadings(elements, Bounded(a, b, q), q, ROOT, ONE_IN, 1);
    ARunIsItsFirstQuestion(elements, q, ROOT, ONE_IN, 1);
    AnAnswerIsRun(HOLDS, q, ROOT, ONE_IN, 0);
  }

  /** Two sets of different elements, each read by its regions. */
  predicate AreSets(a: Schema, b: Schema) {
    a.Coll? && b.Coll? && a.kind == SetColl == b.kind && a.element != b.element && RegionSet(a.element).Known? && RegionSet(b.element).Known?
  }

  lemma TheRulesOfSets(a: Schema, b: Schema, q: Setting)
    requires AreSets(a, b)
    ensures Decide(a, b, q, true) == OrElse(Just(a.element, b.element), Bounded(a, b, q))
  {
    hide Bounded, OrElse;
  }

  lemma NoStepAnswers(a: Schema, b: Schema, q: Setting, given: Allowance)
    requires AreSets(a, b)
    ensures var r := AskedOnce(a, b, q, SPENT, given); r.answer.Unknown? && r.left == 0
  {
    hide IsSubtypeRec, Respelled, IsEmptyWith, MeetWithin, AskedOnce;
    AnAskingIs(a, b, q, SPENT, given);
    NoStepDecides(a, b, q);
    NoSpellingDecides(a, b, q);
    ASetIsNotEmpty(a, q, given);
  }

  lemma NoStepDecides(a: Schema, b: Schema, q: Setting)
    requires AreSets(a, b)
    ensures IsSubtypeRec(a, b, q, ROOT, OUTSIDE, SPENT) == Ran(Relation.Unknown, 0, true, 0)
  {
    hide Run, WitnessRun;
  }

  lemma NoSpellingDecides(a: Schema, b: Schema, q: Setting)
    requires AreSets(a, b)
    ensures Respelled(a, b, q, SPENT).answer.Unknown?
  {
    hide IsSubtypeRec, Emptied;
    assert KindsHeldWhole(a, q) == {};
  }

  lemma ASetIsNotEmpty(a: Schema, q: Setting, given: Allowance)
    requires a.Coll?
    ensures !IsEmptyWith(a, q, given)
  {
    hide EmptyAndRegion;
    ASetReadsInhabited(a, q, given.budget);
    ASetReadsInhabited(a, Again(q, given), given.budget);
  }

  lemma ASetReadsInhabited(a: Schema, q: Setting, steps: nat)
    requires a.Coll?
    ensures !EmptyAndRegion(a, q, NOTHING_HELD, OUTSIDE, steps).verdict.Empty?
  {
    hide MeetRead, UnionRead, EveryPosition, RefinementRead;
    if q.maxDepth > 0 && steps > 0 { assert EmptyAndRegionAt(a, q, NOTHING_HELD, 1, steps - 1).verdict.Inhabited?; }
  }

  /** With room for both questions, equivalence is exactly mutual inclusion. */
  lemma EquivalenceIsMutualInclusion(a: Schema, b: Schema, q: Setting, w: Setting, given: Allowance)
    requires Alike(q, w) && Room(w, 0, given.budget, QuestionNeeds(a, b, q) + QuestionNeeds(b, a, q))
    ensures EquivalenceRelation(a, b, w, given).Holds? <==> SubtypeRelation(a, b, w, given).Holds? && SubtypeRelation(b, a, w, given).Holds?
  {
    hide AskedOnce, Needs, SpellingNeeds;
    AQuestionEnds(a, b, q, w, given.budget, given);
    AQuestionEnds(b, a, q, w, given.budget, given);
    var left := AskedOnce(a, b, w, given.budget, given).left;
    AQuestionEnds(b, a, q, w, left, given);
    OneAnswer(b, a, q, w, left, given, given.budget, given);
  }
}
