/** A root question: the rules, the spellings, and the lattice bounds read once
    more, asked again under a larger allowance where a bound left it open. */
module Root {
  import opened Verdicts
  import opened Schemas
  import opened Constructors
  import opened Values
  import opened Oracles
  import opened Readings
  import opened KindWalk
  import opened Tables
  import opened Shapes
  import opened Emptiness
  import opened EmptinessRight
  import opened EmptinessFuel
  import opened Rules
  import opened Decision
  import opened DecisionSound
  import opened DecisionFuel
  import opened DecisionWork
  import opened Runs
  import opened Respelling

  /** What a question may spend, and the allowance of its second asking. */
  datatype Allowance = Allowance(budget: nat, again: nat) {
    function With(extra: nat): Allowance { this.(budget := budget + extra) }
  }

  /** The setting of a question's second asking. */
  function Again(q: Setting, given: Allowance): Setting { q.(respelling := given.again) }

  /** A first asking is repeated when it ended undecided at a bound with budget to
      spare. */
  predicate AsksAgain(undecided: bool, met: bool, left: nat, q: Setting, given: Allowance) {
    undecided && met && left > 0 && q.respelling != given.again
  }

  /** Whether the emptiness recursion reads no value, on a budget of its own. */
  predicate IsEmptyWith(s: Schema, q: Setting, given: Allowance) {
    var first := EmptyAndRegion(s, q, NOTHING_HELD, OUTSIDE, given.budget);
    if AsksAgain(first.verdict.Unknown?, first.met, first.left, q, given)
    then EmptyAndRegion(s, Again(q, given), NOTHING_HELD, OUTSIDE, given.budget).verdict.Empty?
    else first.verdict.Empty?
  }

  /** The two lattice bounds read on budgets of their own, where the query spent
      every step of its. */
  function BelowByEmptiness(a: Schema, b: Schema, q: Setting, left: nat, given: Allowance): Relation {
    if left > 0 then Relation.Unknown
    else if IsEmptyWith(a, q, given) then Relation.Holds
    else if b.Complement? then Proven(IsEmptyWith(MeetWithin([a, b.inner], q.gate, true), q, given))
    else Relation.Unknown
  }

  /** One asking on `steps` of the budget: the rules, the spellings where they
      decline, and the bounds where the steps are spent. */
  function AskedOnce(a: Schema, b: Schema, q: Setting, steps: nat, given: Allowance): (r: Ran)
    ensures r.left <= steps
  {
    var ruled := IsSubtypeRec(a, b, q, ROOT, OUTSIDE, steps);
    if !ruled.answer.Unknown? then ruled
    else
      var spelled := Respelled(a, b, q, Least(ruled.left, q.respelling));
      var answer := if spelled.answer.Unknown? then BelowByEmptiness(a, b, q, ruled.left, given) else spelled.answer;
      Ran(answer, ruled.left, ruled.met || spelled.met, ruled.work + spelled.work)
  }

  function SubtypeRelation(a: Schema, b: Schema, q: Setting, given: Allowance): Relation {
    var first := AskedOnce(a, b, q, given.budget, given);
    if AsksAgain(first.answer.Unknown?, first.met, first.left, q, given)
    then AskedOnce(a, b, Again(q, given), given.budget, given).answer
    else first.answer
  }

  /** Both inclusions on one budget, the second asked only where the first holds. */
  function BothWays(a: Schema, b: Schema, q: Setting, given: Allowance): Ran {
    var first := AskedOnce(a, b, q, given.budget, given);
    if first.answer.Holds? then AskedOnce(b, a, q, first.left, given).After(first.met, first.work) else first
  }

  function EquivalenceRelation(a: Schema, b: Schema, q: Setting, given: Allowance): Relation {
    var first := BothWays(a, b, q, given);
    if AsksAgain(first.answer.Unknown?, first.met, first.left, q, given)
    then BothWays(a, b, Again(q, given), given).answer
    else first.answer
  }

  // ---- An answer at the root is a fact.

  lemma AnEmptySchemaHoldsNothing(s: Schema, q: Setting, given: Allowance, m: Meaning)
    requires Reads(q, m) && IsEmptyWith(s, q, given)
    ensures !HasValue(s, m)
  {
    hide Member;
    hide Truthful;
    hide EmptyAndRegion;
    EmptinessIsRightAtTheRoot(s, q, 0, given.budget, m);
    EmptinessIsRightAtTheRoot(s, Again(q, given), 0, given.budget, m);
  }

  lemma TheBoundsAnswer(a: Schema, b: Schema, q: Setting, left: nat, given: Allowance, m: Meaning)
    requires Reads(q, m)
    ensures !BelowByEmptiness(a, b, q, left, given).Fails?
    ensures BelowByEmptiness(a, b, q, left, given).Holds? ==> Included(a, b, m)
  {
    hide Member;
    hide Truthful;
    hide IsEmptyWith;
    if IsEmptyWith(a, q, given) { AnEmptySchemaHoldsNothing(a, q, given, m); }
    if b.Complement? {
      var meet := MeetWithin([a, b.inner], q.gate, true);
      if IsEmptyWith(meet, q, given) { AnEmptySchemaHoldsNothing(meet, q, given, m); }
      forall v ensures Member(v, meet, m) <==> Member(v, a, m) && !Member(v, b, m) {
        MeetDenotes([a, b.inner], q.gate, true, v, m);
        InSplit(v, [a, b.inner], m);
        assert [a, b.inner][1..] == [b.inner] && b.inner in [b.inner];
        AtEveryNode(v, m);
      }
    }
  }

  lemma OneAskingIsSound(a: Schema, b: Schema, q: Setting, steps: nat, given: Allowance, m: Meaning)
    requires Reads(q, m)
    ensures AskedOnce(a, b, q, steps, given).answer.Holds? ==> Included(a, b, m)
    ensures AskedOnce(a, b, q, steps, given).answer.Fails? ==> Spills(a, b, m)
  {
    hide Member;
    hide Truthful;
    hide IsSubtypeRec;
    hide Respelled;
    hide BelowByEmptiness;
    hide Included;
    hide Spills;
    var ruled := IsSubtypeRec(a, b, q, ROOT, OUTSIDE, steps);
    TheDecisionIsSound(a, b, q, false, 0, steps, m);
    RespellingIsSound(a, b, q, Least(ruled.left, q.respelling), m);
    TheBoundsAnswer(a, b, q, ruled.left, given, m);
  }

  /** For every pair, definitions table, truthful oracle, budget and allowance. */
  lemma TheRelationIsSound(a: Schema, b: Schema, q: Setting, given: Allowance, m: Meaning)
    requires Reads(q, m)
    ensures SubtypeRelation(a, b, q, given).Holds? ==> Included(a, b, m)
    ensures SubtypeRelation(a, b, q, given).Fails? ==> Spills(a, b, m)
  {
    hide Member;
    hide Truthful;
    hide AskedOnce;
    hide Included;
    hide Spills;
    OneAskingIsSound(a, b, q, given.budget, given, m);
    OneAskingIsSound(a, b, Again(q, given), given.budget, given, m);
  }

  ghost predicate SameValues(a: Schema, b: Schema, m: Meaning) {
    Included(a, b, m) && Included(b, a, m)
  }

  lemma BothWaysAreSound(a: Schema, b: Schema, q: Setting, given: Allowance, m: Meaning)
    requires Reads(q, m)
    ensures BothWays(a, b, q, given).answer.Holds? ==> SameValues(a, b, m)
    ensures BothWays(a, b, q, given).answer.Fails? ==> !SameValues(a, b, m)
  {
    hide Member;
    hide Truthful;
    hide AskedOnce;
    var first := AskedOnce(a, b, q, given.budget, given);
    OneAskingIsSound(a, b, q, given.budget, given, m);
    OneAskingIsSound(b, a, q, first.left, given, m);
  }

  /** Equivalence is the two sets being one, whichever way it is answered. */
  lemma TheEquivalenceIsSound(a: Schema, b: Schema, q: Setting, given: Allowance, m: Meaning)
    requires Reads(q, m)
    ensures EquivalenceRelation(a, b, q, given).Holds? ==> SameValues(a, b, m)
    ensures EquivalenceRelation(a, b, q, given).Fails? ==> !SameValues(a, b, m)
  {
    hide Member;
    hide Truthful;
    hide BothWays;
    hide SameValues;
    BothWaysAreSound(a, b, q, given, m);
    BothWaysAreSound(a, b, Again(q, given), given, m);
  }

  /** Two oracles that are both truthful never answer one pair two ways, nor do two
      budgets: what one proves no other refutes. */
  lemma NoTwoAnswersContradict(a: Schema, b: Schema, q: Setting, given: Allowance, p: Setting, other: Allowance, m: Meaning)
    requires Reads(q, m) && Reads(p, m)
    ensures !(SubtypeRelation(a, b, q, given).Holds? && SubtypeRelation(a, b, p, other).Fails?)
  {
    hide Member;
    hide Truthful;
    hide SubtypeRelation;
    TheRelationIsSound(a, b, q, given, m);
    TheRelationIsSound(a, b, p, other, m);
  }

  /** The oracle that declines every question is truthful of every world. */
  lemma SilenceIsTruthful(m: Meaning)
    ensures Truthful(SILENT, m)
  {
  }

  // ---- What a decline has read.

  ghost predicate ReadsAsHeld(a: Schema, q: Setting, depth: nat, steps: nat) {
    var r := EmptyAndRegion(a, q, NOTHING_HELD, depth, steps);
    !r.met && !r.verdict.Empty?
  }

  /** A pair declined with no bound met has had its subject's emptiness read, with
      no bound met, and not found empty. */
  lemma ADeclineHasReadTheSubject(a: Schema, b: Schema, q: Setting, steps: nat)
    requires var r := IsSubtypeRec(a, b, q, ROOT, OUTSIDE, steps); r.answer.Unknown? && !r.met
    ensures exists depth: nat, left: nat :: left <= steps && ReadsAsHeld(a, q, depth, left)
  {
    hide ByShape;
    hide Run;
    hide RegionSet;
    hide EmptyAndRegion;
    hide FiniteSetBelow;
    hide PushedComplementIsPlaced;
    hide Witness;
    hide WitnessRun;
    hide Decide;
    var ruled := ByRules(a, b, q, ROOT, OUTSIDE, steps);
    if ruled.answer.Fails? {
      AnUnwitnessedRefutation(a, q, ruled.left);
    } else {
      TheRulesDeclined(a, b, q, steps);
    }
  }

  lemma AnUnwitnessedRefutation(a: Schema, q: Setting, steps: nat)
    requires var r := WitnessRun(a, q, ROOT, OUTSIDE, steps); r.answer.Unknown? && !r.met
    ensures ReadsAsHeld(a, q, OUTSIDE, steps)
  {
    hide EmptyAndRegion;
    hide HoldsAValueShallowly;
  }

  /** Past the tables, the universe and the pushed complements, the rules are the
      shapes and then the bounds. */
  lemma AnUndecidedGoalReadsTheBounds(a: Schema, b: Schema, q: Setting, steps: nat)
    requires Run(Decide(a, b, q, true), q, ROOT, ONE_IN, steps).answer.Unknown?
    ensures Decide(a, b, q, true) == OrElse(ByShape(a, b, q, true), Bounded(a, b, q))
  {
    hide ByShape;
    hide Bounded;
    hide RegionSet;
    hide FiniteSetBelow;
    hide PushedComplementIsPlaced;
    hide IsSubtypeRec;
    hide Run;
    var p := Decide(a, b, q, true);
    if p.Answer? { AnAnswerIsRun(p, q, ROOT, ONE_IN, steps); }
  }

  lemma TheBoundsRead(a: Schema, b: Schema, q: Setting, steps: nat)
    requires var r := Run(Bounded(a, b, q), q, ROOT, ONE_IN, steps); r.answer.Unknown? && !r.met
    ensures ReadsAsHeld(a, q, ONE_IN, steps)
  {
    hide EmptyAndRegion;
    hide Run;
    var p := Bounded(a, b, q);
    ARunIsItsFirstQuestion(p, q, ROOT, ONE_IN, steps);
    var read := EmptyAndRegion(a, q, NOTHING_HELD, ONE_IN, steps);
    if read.verdict.Empty? { AnAnswerIsRun(HOLDS, q, ROOT, ONE_IN, read.left); }
  }

  lemma TheRulesDeclined(a: Schema, b: Schema, q: Setting, steps: nat)
    requires var r := ByRules(a, b, q, ROOT, OUTSIDE, steps); r.answer.Unknown? && !r.met
    ensures exists depth: nat, left: nat :: left <= steps && ReadsAsHeld(a, q, depth, left)
  {
    hide ByShape;
    hide Bounded;
    hide Run;
    hide RegionSet;
    hide EmptyAndRegion;
    hide Decide;
    hide ReadsAsHeld;
    var first := Run(ByShape(a, b, q, true), q, ROOT, ONE_IN, steps - 1);
    AnUndecidedGoalReadsTheBounds(a, b, q, steps - 1);
    RunOfTwoReadings(ByShape(a, b, q, true), Bounded(a, b, q), q, ROOT, ONE_IN, steps - 1);
    TheBoundsRead(a, b, q, first.left);
  }

  // ---- What a root question costs.

  lemma WithinTheCharge(r: Ran, given: nat, q: Setting)
    requires WorkBounded(r, given, false, 0, q)
    ensures r.work <= (1 + q.respelling) * given
  {
    var spent := given - r.left;
    assert (1 + q.respelling) * given == (1 + q.respelling) * spent + (1 + q.respelling) * r.left;
  }

  lemma WorkOfAnEmptied(a: Schema, b: Schema, q: Setting, steps: nat)
    ensures WorkBounded(Emptied(a, b, q, steps), steps, false, 0, q)
  {
    hide WorkBounded;
    hide EmptyAndRegion;
    ChargedIsBounded(Emptied(a, b, q, steps), steps, false, 0, q);
  }

  lemma ThenAdds(first: Ran, second: Ran, given: nat, q: Setting)
    requires WorkBounded(first, given, false, 0, q) && WorkBounded(second, first.left, false, 0, q)
    ensures WorkBounded(Then(first, second), given, false, 0, q)
  {
    hide WorkBounded;
    WorkAdds(first, second, given, false, 0, 0, q);
  }

  /** The three kinds of spelling each take what their allowance is charged. */
  lemma WorkOfEachSpelling(a: Schema, b: Schema, q: Setting, given: nat)
    ensures WorkBounded(PushedThrough(a, b, q, given), given, false, 0, q)
    ensures WorkBounded(AgainstATable(a, b, q, given), given, false, 0, q)
    ensures b.Union? ==> WorkBounded(AgainstAUnion(a, b, q, given), given, false, 0, q)
    ensures b.Complement? ==> WorkBounded(AgainstAComplement(a, b, q, given), given, false, 0, q)
    ensures WorkBounded(TwoMeetsTogether(a, b, q, given), given, false, 0, q)
  {
    hide WorkBounded;
    hide IsSubtypeRec;
    hide Emptied;
    hide Then;
    hide Moved;
    hide EmptyAndRegion;
    ChargedIsBounded(Done(Relation.Unknown, given), given, false, 0, q);
    WorkOfAGoal(MeetWithin(ComplementedAll(if a.Complement? && a.inner.Union? then a.inner.members else []), q.gate, true), b, q, ROOT, OUTSIDE, given);
    WorkOfAnEmptied(a, Complemented(b), q, given);
    if b.Union? { WorkOfAUnion(a, b, q, given); }
    if b.Complement? { WorkOfAComplement(a, b, q, given); }
    WorkOfTwoMeets(a, b, q, given);
  }

  lemma WorkOfAUnion(a: Schema, b: Schema, q: Setting, given: nat)
    requires b.Union?
    ensures WorkBounded(AgainstAUnion(a, b, q, given), given, false, 0, q)
  {
    hide WorkBounded;
    hide IsSubtypeRec;
    hide Emptied;
    hide Then;
    hide Moved;
    ChargedIsBounded(Done(Relation.Unknown, given), given, false, 0, q);
    var moved := Moved(a, b, q.gate);
    var first := IsSubtypeRec(moved.sub, moved.sup, q, ROOT, OUTSIDE, given);
    WorkOfAGoal(moved.sub, moved.sup, q, ROOT, OUTSIDE, given);
    WorkOfAnEmptied(a, Complemented(b), q, first.left);
    ThenAdds(first, Emptied(a, Complemented(b), q, first.left), given, q);
  }

  lemma WorkOfAComplement(a: Schema, b: Schema, q: Setting, given: nat)
    requires b.Complement?
    ensures WorkBounded(AgainstAComplement(a, b, q, given), given, false, 0, q)
  {
    hide WorkBounded;
    hide IsSubtypeRec;
    hide Emptied;
    hide Then;
    var meet := MeetWithin([a, b.inner], q.gate, true);
    var first := IsSubtypeRec(meet, Nothing, q, ROOT, OUTSIDE, given);
    var second := IsSubtypeRec(b.inner, Complemented(a), q, ROOT, OUTSIDE, first.left);
    WorkOfAGoal(meet, Nothing, q, ROOT, OUTSIDE, given);
    WorkOfAGoal(b.inner, Complemented(a), q, ROOT, OUTSIDE, first.left);
    ThenAdds(first, second, given, q);
    var both := Then(first, second);
    WorkOfAnEmptied(a, b.inner, q, both.left);
    ThenAdds(both, Emptied(a, b.inner, q, both.left), given, q);
  }

  lemma WorkOfTwoMeets(a: Schema, b: Schema, q: Setting, given: nat)
    ensures WorkBounded(TwoMeetsTogether(a, b, q, given), given, false, 0, q)
  {
    hide WorkBounded;
    hide EmptyAndRegion;
    ChargedIsBounded(TwoMeetsTogether(a, b, q, given), given, false, 0, q);
  }

  lemma WorkOfTheSpellings(a: Schema, b: Schema, q: Setting, given: nat)
    ensures Respelled(a, b, q, given).work <= 3 * ((1 + q.respelling) * given)
  {
    hide WorkBounded;
    hide PushedThrough;
    hide AgainstATable;
    hide AgainstAUnion;
    hide AgainstAComplement;
    hide TwoMeetsTogether;
    hide SpillsAKindInto;
    WorkOfEachSpelling(a, b, q, given);
    WithinTheCharge(PushedThrough(a, b, q, given), given, q);
    WithinTheCharge(AgainstATable(a, b, q, given), given, q);
    if b.Union? { WithinTheCharge(AgainstAUnion(a, b, q, given), given, q); }
    if b.Complement? { WithinTheCharge(AgainstAComplement(a, b, q, given), given, q); }
    WithinTheCharge(TwoMeetsTogether(a, b, q, given), given, q);
  }

  /** One asking, its narrowed meets and its spellings counted, takes at most this;
      a root question is asked at most twice, each asking so bounded. */
  lemma OneAskingIsBounded(a: Schema, b: Schema, q: Setting, steps: nat, given: Allowance)
    ensures AskedOnce(a, b, q, steps, given).work <= (1 + q.respelling) * (steps + 3 * q.respelling)
  {
    hide WorkBounded;
    hide IsSubtypeRec;
    hide Respelled;
    hide BelowByEmptiness;
    var R, ruled := q.respelling, IsSubtypeRec(a, b, q, ROOT, OUTSIDE, steps);
    WorkOfAGoal(a, b, q, ROOT, OUTSIDE, steps);
    WithinTheCharge(ruled, steps, q);
    var allowance := Least(ruled.left, R);
    WorkOfTheSpellings(a, b, q, allowance);
    assert (1 + R) * allowance <= (1 + R) * R;
    assert (1 + R) * (steps + 3 * R) == (1 + R) * steps + 3 * ((1 + R) * R);
  }

  // ---- More steps at the root.

  lemma MoreForAnEmptied(a: Schema, b: Schema, q: Setting, steps: nat, extra: nat)
    ensures Carries(Emptied(a, b, q, More(steps, extra)), Emptied(a, b, q, steps), extra)
  {
    hide EmptyAndRegion;
    MoreSteps(MeetWithin([a, b], q.gate, true), q, NOTHING_HELD, OUTSIDE, steps, q, 0, extra);
  }

  lemma MoreForEachSpelling(a: Schema, b: Schema, q: Setting, given: nat, extra: nat)
    ensures Carries(PushedThrough(a, b, q, More(given, extra)), PushedThrough(a, b, q, given), extra)
    ensures Carries(AgainstATable(a, b, q, More(given, extra)), AgainstATable(a, b, q, given), extra)
  {
    hide IsSubtypeRec;
    hide Emptied;
    if a.Complement? && a.inner.Union? {
      MoreForAGoal(MeetWithin(ComplementedAll(a.inner.members), q.gate, true), b, q, ROOT, OUTSIDE, given, q, 0, extra);
    }
    MoreForAnEmptied(a, Complemented(b), q, given, extra);
  }

  lemma MoreForAUnionSpelled(a: Schema, b: Schema, q: Setting, given: nat, extra: nat)
    requires b.Union?
    ensures Carries(AgainstAUnion(a, b, q, More(given, extra)), AgainstAUnion(a, b, q, given), extra)
  {
    hide IsSubtypeRec;
    hide Emptied;
    hide Moved;
    var moved := Moved(a, b, q.gate);
    MoreForAGoal(moved.sub, moved.sup, q, ROOT, OUTSIDE, given, q, 0, extra);
    MoreForAnEmptied(a, Complemented(b), q, IsSubtypeRec(moved.sub, moved.sup, q, ROOT, OUTSIDE, given).left, extra);
  }

  lemma MoreForAComplementSpelled(a: Schema, b: Schema, q: Setting, given: nat, extra: nat)
    requires b.Complement?
    ensures Carries(AgainstAComplement(a, b, q, More(given, extra)), AgainstAComplement(a, b, q, given), extra)
  {
    hide IsSubtypeRec;
    hide Emptied;
    var meet := MeetWithin([a, b.inner], q.gate, true);
    var first := IsSubtypeRec(meet, Nothing, q, ROOT, OUTSIDE, given);
    var second := IsSubtypeRec(b.inner, Complemented(a), q, ROOT, OUTSIDE, first.left);
    MoreForAGoal(meet, Nothing, q, ROOT, OUTSIDE, given, q, 0, extra);
    MoreForAGoal(b.inner, Complemented(a), q, ROOT, OUTSIDE, first.left, q, 0, extra);
    MoreForAnEmptied(a, b.inner, q, Then(first, second).left, extra);
  }

  lemma MoreForTwoMeets(a: Schema, b: Schema, q: Setting, given: nat, extra: nat)
    ensures Carries(TwoMeetsTogether(a, b, q, More(given, extra)), TwoMeetsTogether(a, b, q, given), extra)
  {
    hide Emptied;
    hide EmptyAndRegion;
    MoreForAnEmptied(a, b, q, given, extra);
    MoreSteps(a, q, NOTHING_HELD, OUTSIDE, Emptied(a, b, q, given).left, q, 0, extra);
  }

  lemma MoreForTheSpellings(a: Schema, b: Schema, q: Setting, given: nat, extra: nat)
    ensures Carries(Respelled(a, b, q, More(given, extra)), Respelled(a, b, q, given), extra)
  {
    hide PushedThrough;
    hide AgainstATable;
    hide AgainstAUnion;
    hide AgainstAComplement;
    hide TwoMeetsTogether;
    hide SpillsAKindInto;
    MoreForEachSpelling(a, b, q, given, extra);
    if b.Union? { MoreForAUnionSpelled(a, b, q, given, extra); }
    if b.Complement? { MoreForAComplementSpelled(a, b, q, given, extra); }
    MoreForTwoMeets(a, b, q, given, extra);
  }

  /** A pair declined with every step spent and no bound met is read no emptier on a
      budget of its own than the rules read it. */
  lemma TheBoundsAreReadAlready(a: Schema, b: Schema, q: Setting, given: Allowance)
    requires var ruled := IsSubtypeRec(a, b, q, ROOT, OUTSIDE, given.budget);
      ruled.answer.Unknown? && !ruled.met && ruled.left == 0 && Respelled(a, b, q, SPENT).answer.Unknown? && !Respelled(a, b, q, SPENT).met
    ensures BelowByEmptiness(a, b, q, SPENT, given).Unknown?
  {
    hide IsSubtypeRec;
    hide EmptyAndRegion;
    hide PushedThrough;
    hide AgainstATable;
    hide AgainstAUnion;
    hide SpillsAKindInto;
    ADeclineHasReadTheSubject(a, b, q, given.budget);
    var depth: nat, left: nat :| left <= given.budget && ReadsAsHeld(a, q, depth, left);
    MoreSteps(a, q, NOTHING_HELD, depth, left, q, 0, given.budget - left);
    assert left + (given.budget - left) == given.budget;
    if b.Complement? { ASpentSpellingMeetsABound(MeetWithin([a, b.inner], q.gate, true), q); }
  }

  lemma ASpentSpellingMeetsABound(a: Schema, q: Setting)
    ensures var r := IsSubtypeRec(a, Nothing, q, ROOT, OUTSIDE, SPENT); r.met || r.answer.Holds?
  {
    hide Decide;
    hide Run;
    hide WitnessRun;
  }

  /** One asking, by its parts. */
  lemma AnAskingIs(a: Schema, b: Schema, q: Setting, steps: nat, given: Allowance)
    ensures var ruled := IsSubtypeRec(a, b, q, ROOT, OUTSIDE, steps);
      var spelled := Respelled(a, b, q, Least(ruled.left, q.respelling));
      var r := AskedOnce(a, b, q, steps, given);
      && r.left == ruled.left
      && r.met == (ruled.met || (ruled.answer.Unknown? && spelled.met))
      && r.work == ruled.work + (if ruled.answer.Unknown? then spelled.work else 0)
      && r.answer == if !ruled.answer.Unknown? then ruled.answer
                     else if !spelled.answer.Unknown? then spelled.answer
                     else BelowByEmptiness(a, b, q, ruled.left, given)
  {
    hide IsSubtypeRec;
    hide Respelled;
    hide BelowByEmptiness;
  }

  lemma OneAskingAnswersAlike(a: Schema, b: Schema, q: Setting, given: Allowance, extra: nat)
    requires !AskedOnce(a, b, q, given.budget, given).met
    ensures var more := given.With(extra);
      var first, second := AskedOnce(a, b, q, given.budget, given), AskedOnce(a, b, q, more.budget, more);
      second.answer == first.answer && !second.met
  {
    hide IsSubtypeRec;
    hide Respelled;
    hide BelowByEmptiness;
    hide AskedOnce;
    var ruled := IsSubtypeRec(a, b, q, ROOT, OUTSIDE, given.budget);
    MoreForAGoal(a, b, q, ROOT, OUTSIDE, given.budget, q, 0, extra);
    AnAskingIs(a, b, q, given.budget, given);
    AnAskingIs(a, b, q, More(given.budget, extra), given.With(extra));
    if ruled.answer.Unknown? {
      var allowance, more := Least(ruled.left, q.respelling), Least(More(ruled.left, extra), q.respelling);
      MoreForTheSpellings(a, b, q, allowance, more - allowance);
      assert allowance + (more - allowance) == more;
      StepsLeftReadNoBounds(a, b, q, More(ruled.left, extra), given.With(extra));
      StepsLeftReadNoBounds(a, b, q, ruled.left, given);
      if ruled.left == 0 && Respelled(a, b, q, SPENT).answer.Unknown? {
        TheBoundsAreReadAlready(a, b, q, given);
        if extra == 0 { assert given.With(0) == given; }
      }
    }
  }

  lemma StepsLeftReadNoBounds(a: Schema, b: Schema, q: Setting, left: nat, given: Allowance)
    ensures left > 0 ==> BelowByEmptiness(a, b, q, left, given).Unknown?
  {
  }

  /** A root question no bound stopped answers alike on a larger budget. */
  lemma MoreBudgetAnswersAlike(a: Schema, b: Schema, q: Setting, given: Allowance, extra: nat)
    requires !AskedOnce(a, b, q, given.budget, given).met
    ensures SubtypeRelation(a, b, q, given.With(extra)) == SubtypeRelation(a, b, q, given)
  {
    hide AskedOnce;
    OneAskingAnswersAlike(a, b, q, given, extra);
  }
}
