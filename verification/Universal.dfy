/** A supertype that holds every value is above every subject: where its regions
    cover the universe, where its complements meet in nothing, and so wherever its
    complement is read empty. */
module Universal {
  import opened Kinds
  import opened Schemas
  import opened Constructors
  import opened Values
  import opened Oracles
  import opened Readings
  import opened Tables
  import opened Shapes
  import opened KindWalk
  import opened Emptiness
  import opened EmptinessRight
  import opened Unbounded
  import opened EmptinessEnds
  import opened Rules
  import opened Decision
  import opened DecisionSound
  import opened DecisionEnds
  import opened Runs
  import opened Respelling
  import opened Root
  import opened Laws

  // ---- What the bounds read of a supertype.

  /** The complements of a union's members, met: the meet the bounds read. */
  function ComplementsMet(b: Schema, gate: Gate): Schema
    requires b.Union?
  {
    MeetWithin(ComplementedAll(FlatMembers(b.members)), gate, true)
  }

  /** Every value is in the supertype by what the rules read of it alone. */
  ghost predicate ReadsUniversal(b: Schema, q: Setting) {
    || RegionSet(b) == Known(ALL)
    || CoversTheUniverse(b)
    || (b.Union? && (exists t <- b.members :: RegionSet(t).Unknown?) && Limit(ComplementsMet(b, q.gate), q).Empty?)
  }

  lemma LimitsAlike(s: Schema, q: Setting, w: Setting)
    requires Alike(q, w)
    ensures Limit(s, w) == Limit(s, q)
  {
    hide EmptyAndRegion, Limit, Enough;
    var n := Enough(s, q) + Enough(s, w);
    WithRoomItReadsTheLimit(s, q, Bounding(q, n), 0, n);
    WithRoomItReadsTheLimit(s, w, Bounding(q, n), 0, n);
  }

  lemma AMeetReadEmptyHoldsNothing(s: Schema, q: Setting, m: Meaning)
    requires Reads(q, m) && Limit(s, q).Empty?
    ensures !HasValue(s, m)
  {
    hide Member, Truthful, EmptyAndRegion, Enough;
    EmptinessIsRightAtTheRoot(s, Bounding(q, Enough(s, q)), 0, Enough(s, q), m);
  }

  lemma AReadUniverseHoldsEverything(b: Schema, q: Setting, m: Meaning)
    requires Reads(q, m) && ReadsUniversal(b, q)
    ensures forall v :: Member(v, b, m)
  {
    hide Member, Truthful, Limit, CoversTheUniverse;
    if RegionSet(b) == Known(ALL) {
      forall v ensures Member(v, b, m) {
        RegionsAreExact(b, v, m);
        EveryPartIsHeld(PartOf(v));
      }
    } else if CoversTheUniverse(b) {
      forall v ensures Member(v, b, m) { TheUniverseIsCovered(b, v, m); }
    } else {
      AMeetReadEmptyHoldsNothing(ComplementsMet(b, q.gate), q, m);
      AnEmptyComplementIsTheUniverse(b, q.gate, m);
    }
  }

  // ---- The bounds prove it, or meet a bound.

  lemma TheBoundsProveTheUniverse(a: Schema, b: Schema, q: Setting, steps: nat)
    requires ReadsUniversal(b, q) && RegionSet(b) != Known(ALL)
    ensures var r := Run(Bounded(a, b, q), q, ROOT, ONE_IN, steps); r.answer.Holds? || (r.met && !CoversTheUniverse(b))
  {
    hide EmptyAndRegion, Run, CoversTheUniverse, RegionSet, MeetWithin, Limit, FlatMembers;
    var p := Bounded(a, b, q);
    ARunIsItsFirstQuestion(p, q, ROOT, ONE_IN, steps);
    var left := EmptyAndRegion(a, q, NOTHING_HELD, ONE_IN, steps).left;
    AnAnswerIsRun(HOLDS, q, ROOT, ONE_IN, left);
    if !CoversTheUniverse(b) { TheComplementsAreRead(b, q, left); }
  }

  lemma TheComplementsAreRead(b: Schema, q: Setting, steps: nat)
    requires b.Union? && Limit(ComplementsMet(b, q.gate), q).Empty?
    ensures var r := Run(Empties(ComplementsMet(b, q.gate), HOLDS, DECLINES, DECLINES), q, ROOT, ONE_IN, steps); r.answer.Holds? || r.met
  {
    hide EmptyAndRegion, Run, ComplementsMet, Limit;
    var meet := ComplementsMet(b, q.gate);
    var read := EmptyAndRegion(meet, q, NOTHING_HELD, ONE_IN, steps);
    ARunIsItsFirstQuestion(Empties(meet, HOLDS, DECLINES, DECLINES), q, ROOT, ONE_IN, steps);
    if !read.met {
      AnUnstoppedReadingIsTheLimit(meet, q, 1, steps);
      AnAnswerIsRun(HOLDS, q, ROOT, ONE_IN, read.left);
    }
  }

  /** The rules prove the pair, or decline it at a bound; the bounds of a union whose
      regions cover the universe meet none. */
  lemma TheRulesProveTheUniverse(a: Schema, b: Schema, q: Setting, budget: nat, m: Meaning)
    requires Reads(q, m) && ReadsUniversal(b, q) && HasValue(a, m) && budget > 0 && q.maxDepth > 0
    ensures var r := IsSubtypeRec(a, b, q, ROOT, OUTSIDE, budget);
      r.answer.Holds? || (r.answer.Unknown? && r.met && RegionSet(b) != Known(ALL) && !CoversTheUniverse(b))
  {
    hide Member, Truthful, CoversTheUniverse, ByRules, RegionSet, WitnessRun, ReadsUniversal;
    AReadUniverseHoldsEverything(b, q, m);
    TheRulesAreSound(a, b, q, ROOT, OUTSIDE, budget, m);
    AGoalIs(a, b, q, ROOT, OUTSIDE, budget);
    if ByRules(a, b, q, ROOT, OUTSIDE, budget).answer.Unknown? { UndecidedRulesMetABound(a, b, q, budget); }
  }

  lemma UndecidedRulesMetABound(a: Schema, b: Schema, q: Setting, budget: nat)
    requires ByRules(a, b, q, ROOT, OUTSIDE, budget).answer.Unknown? && ReadsUniversal(b, q) && budget > 0 && q.maxDepth > 0
    ensures ByRules(a, b, q, ROOT, OUTSIDE, budget).met && RegionSet(b) != Known(ALL) && !CoversTheUniverse(b)
  {
    hide CoversTheUniverse, ByShape, Bounded, Run, RegionSet, Decide, PlacedByMembership, ReadsUniversal;
    var first := Run(ByShape(a, b, q, true), q, ROOT, ONE_IN, budget - 1);
    AnUndecidedGoalIsNotTheUniverse(a, b, q, budget - 1);
    AnUndecidedGoalReadsTheBounds(a, b, q, budget - 1);
    RunOfTwoReadings(ByShape(a, b, q, true), Bounded(a, b, q), q, ROOT, ONE_IN, budget - 1);
    TheBoundsProveTheUniverse(a, b, q, first.left);
  }

  lemma AnUndecidedGoalIsNotTheUniverse(a: Schema, b: Schema, q: Setting, steps: nat)
    requires Run(Decide(a, b, q, true), q, ROOT, ONE_IN, steps).answer.Unknown?
    ensures RegionSet(b) != Known(ALL)
  {
    hide RegionSet, FiniteSetBelow, ByShape, Bounded, Run, PushedComplementIsPlaced, FiniteSet;
    var p := Decide(a, b, q, true);
    if p.Answer? { AnAnswerIsRun(p, q, ROOT, ONE_IN, steps); }
  }

  // ---- The law, at a root.

  /** A union whose regions cover the universe is above every subject that holds a
      value, at a step and a level. */
  lemma TheUniverseIsAbove(a: Schema, b: Schema, q: Setting, given: Allowance, m: Meaning)
    requires Reads(q, m) && CoversTheUniverse(b) && HasValue(a, m) && given.budget > 0 && q.maxDepth > 0
    ensures SubtypeRelation(a, b, q, given).Holds?
  {
    hide Member, Truthful, CoversTheUniverse, IsSubtypeRec, SubtypeRelation, RegionSet, Limit, ComplementsMet;
    TheRulesProveTheUniverse(a, b, q, given.budget, m);
    AnAnsweredGoalIsTheRelation(a, b, q, given);
  }

  /** With room, a supertype the rules read as the universe is above every subject
      that holds a value, and every subject that reads empty. */
  lemma AReadUniverseIsAbove(a: Schema, b: Schema, q: Setting, w: Setting, given: Allowance, m: Meaning)
    requires Reads(w, m) && Alike(q, w) && ReadsUniversal(b, q) && (HasValue(a, m) || Limit(a, q).Empty?)
    requires Room(w, 1, given.budget, Needs(a, b, q) + Enough(a, q)) && given.budget > 0
    ensures SubtypeRelation(a, b, w, given).Holds?
  {
    hide Member, Truthful, IsSubtypeRec, Respelled, BelowByEmptiness, Limit, Enough, Needs, CoversTheUniverse, RegionSet, SubtypeRelation;
    if Limit(a, q).Empty? {
      WithRoomTheyAgree(a, b, q, w, given, m);
    } else {
      if b.Union? { LimitsAlike(ComplementsMet(b, q.gate), q, w); }
      TheRulesProveTheUniverse(a, b, w, given.budget, m);
      WithRoomItIsTheAnswer(a, b, q, w, given.budget);
      AnAnsweredGoalIsTheRelation(a, b, w, given);
    }
  }

  lemma AnAnsweredGoalIsTheRelation(a: Schema, b: Schema, q: Setting, given: Allowance)
    requires IsSubtypeRec(a, b, q, ROOT, OUTSIDE, given.budget).answer.Holds?
    ensures SubtypeRelation(a, b, q, given).Holds?
  {
    hide IsSubtypeRec, Respelled, BelowByEmptiness;
  }

  // ---- A complement read empty.

  lemma {:induction false} NothingAmongMembers(ms: seq<Schema>, empty: bool, regions: Regions, q: Setting, h: Held, depth: nat, left: nat)
    requires empty || Nothing in ms
    ensures var (any, r) := MembersRead(ms, empty, regions, q, h, depth, left); any || r.met
  {
    hide EmptyAndRegionAt;
    if ms != [] && !(empty && regions.Unknown?) {
      var first := EmptyAndRegion(ms[0], q, h, depth, left);
      if ms[0] == Nothing && !first.met { NothingReadsEmpty(q, h, depth + 1, left - 1); }
      if empty || first.verdict.Empty? || Nothing in ms[1..] {
        NothingAmongMembers(ms[1..], empty || first.verdict.Empty?, regions.Intersect(first.regions), q, h, depth, first.left);
      }
    }
  }

  lemma NothingReadsEmpty(q: Setting, h: Held, depth: nat, left: nat)
    ensures EmptyAndRegionAt(Nothing, q, h, depth, left).verdict.Empty?
  {
    hide MeetRead, UnionRead, EveryPosition, RefinementRead;
  }

  lemma AMeetsMembersReadEmpty(ms: seq<Schema>, q: Setting, depth: nat, left: nat)
    requires Nothing in ms
    ensures var r := MeetRead(ms, q, NOTHING_HELD, depth, left); r.verdict.Empty? || r.met
  {
    hide MembersRead, DeclinedMeetRead, MeetSettled;
    NothingAmongMembers(ms, false, MEET_UNIT, q, NOTHING_HELD, depth, left);
    var (empty, members) := MembersRead(ms, false, MEET_UNIT, q, NOTHING_HELD, depth, left);
    if empty { AnEmptyMemberSettles(ms, members.regions, q); }
  }

  lemma AnEmptyMemberSettles(ms: seq<Schema>, regions: Regions, q: Setting)
    ensures MeetSettled(ms, true, regions, q).Empty?
  {
    hide HasComplementaryPair, HasDisjointPair, KindsPossiblyHeld;
  }

  lemma AMeetWithNothingReadsEmpty(ms: seq<Schema>, q: Setting, depth: nat, steps: nat)
    requires Nothing in ms
    ensures var r := EmptyAndRegion(Intersection(ms), q, NOTHING_HELD, depth, steps); r.verdict.Empty? || r.met
  {
    hide MeetRead, UnionRead, EveryPosition, RefinementRead;
    if depth < q.maxDepth && steps > 0 { AMeetsMembersReadEmpty(ms, q, depth + 1, steps - 1); }
  }

  /** What a complement pushed in folds to nothing as reads empty. */
  lemma APlacedNothingIsTheLimit(s: Schema, q: Setting)
    requires s == Nothing || PlacedByMembership(s, Nothing)
    ensures Limit(s, q).Empty?
  {
    hide EmptyAndRegion, Enough, EmptyAndRegionAt;
    var n := Enough(s, q);
    WithRoomItReadsTheLimit(s, q, Bounding(q, n), 0, n);
    if s == Nothing {
      var r := EmptyAndRegion(s, Bounding(q, n), NOTHING_HELD, OUTSIDE, n);
      if !r.met { NothingIsReadEmpty(Bounding(q, n), n); }
    } else {
      AMeetWithNothingReadsEmpty(s.members, Bounding(q, n), 0, n);
    }
  }

  lemma NothingIsReadEmpty(q: Setting, steps: nat)
    requires !EmptyAndRegion(Nothing, q, NOTHING_HELD, OUTSIDE, steps).met
    ensures EmptyAndRegion(Nothing, q, NOTHING_HELD, OUTSIDE, steps).verdict.Empty?
  {
    hide EmptyAndRegionAt;
    NothingReadsEmpty(q, NOTHING_HELD, ONE_IN, steps - 1);
  }

  lemma AComplementsReading(b: Schema, q: Setting, depth: nat, steps: nat)
    requires EmptyAndRegion(Complement(b), q, NOTHING_HELD, depth, steps).verdict.Empty?
    ensures steps > 0
    ensures ComplementVerdict(b, EmptyAndRegion(b, q, NOTHING_HELD, depth + 1, steps - 1).regions.Complement(), q).Empty?
  {
    hide ComplementVerdict, MeetRead, UnionRead, EveryPosition, RefinementRead;
  }

  /** A complement is read empty for one of three readings, and no other. */
  lemma WhyAComplementReadsEmpty(b: Schema, q: Setting, depth: nat, steps: nat, m: Meaning)
    requires Reads(q, m) && EmptyAndRegion(Complement(b), q, NOTHING_HELD, depth, steps).verdict.Empty?
    ensures RegionSet(b) == Known(ALL) || CoversTheUniverse(b) || (b.Union? && PushedComplementIsPlaced(b, Nothing, q.gate))
  {
    hide Member, Truthful, EmptyAndRegion, CoversTheUniverse, PushedComplementIsPlaced, RegionSet;
    AComplementsReading(b, q, depth, steps);
    var inner := EmptyAndRegion(b, q, NOTHING_HELD, depth + 1, steps - 1);
    EmptinessIsRight(b, q, NOTHING_HELD, depth + 1, steps - 1, m);
    if inner.regions.Known? { TheComplementOfARegion(b, inner.regions.region, m); }
  }

  lemma TheComplementOfARegion(b: Schema, x: Region, m: Meaning)
    requires RegionSet(b) == Known(x) && x.Complement().IsEmpty()
    ensures x == ALL
  {
    RegionsAreExact(b, VNone, m);
  }

  /** The universe is above everything, however it is spelled: a supertype whose
      complement is read empty, at any bounds, is with room above every subject that
      holds a value and every subject that reads empty. */
  lemma AUniversalSupertypeIsAbove(a: Schema, b: Schema, q: Setting, w: Setting, given: Allowance, depth: nat, steps: nat, m: Meaning)
    requires Reads(w, m) && Alike(q, w) && (b.Union? ==> FlatMembers(b.members) == b.members)
    requires EmptyAndRegion(Complement(b), w, NOTHING_HELD, depth, steps).verdict.Empty?
    requires HasValue(a, m) || Limit(a, q).Empty?
    requires Room(w, 1, given.budget, Needs(a, b, q) + Enough(a, q)) && given.budget > 0
    ensures SubtypeRelation(a, b, w, given).Holds?
  {
    hide Member, Truthful, EmptyAndRegion, SubtypeRelation, Limit, Enough, Needs, CoversTheUniverse, RegionSet;
    WhyAComplementReadsEmpty(b, w, depth, steps, m);
    AComplementReadEmptyIsUniversal(b, q, m);
    AReadUniverseIsAbove(a, b, q, w, given, m);
  }

  lemma {:induction false} RegionsOfAll(ms: seq<Schema>, acc: Regions)
    requires acc.Known? && forall t <- ms :: RegionSet(t).Known?
    ensures RegionJoin(ms, acc).Known?
  {
    hide RegionSet;
    if ms != [] { RegionsOfAll(ms[1..], acc.Union(RegionSet(ms[0]))); }
  }

  lemma NothingIsOutside(b: Schema, gate: Gate, v: Value, m: Meaning)
    requires PushedComplementIsPlaced(b, Nothing, gate)
    ensures Member(v, b, m)
  {
    hide PushedComplementIsPlaced;
    APushedPlacementHolds(b, Nothing, gate, v, m);
  }

  lemma AKnownUniverse(b: Schema, m: Meaning)
    requires b.Union? && RegionJoin(b.members, UNION_UNIT).Known? && forall v :: Member(v, b, m)
    ensures RegionSet(b) == Known(ALL)
  {
    hide Member;
    assert AtomRegion(b).None?;
    assert RegionSet(b) == RegionJoin(b.members, UNION_UNIT);
    RegionsAreExact(b, VNone, m);
    forall part: Part ensures RegionSet(b).region.Has(part) { RegionsAreExact(b, PartSample(part), m); }
    EveryRegionIsAll(RegionSet(b).region);
  }

  lemma EveryRegionIsAll(x: Region)
    requires x.Valid() && forall part: Part :: x.Has(part)
    ensures x == ALL
  {
    assert x.Has(NonePart) && x.Has(BoolPart) && x.Has(IntPart) && x.Has(FloatPart) && x.Has(StrPart) && x.Has(BytesPart) && x.Has(OtherPart);
  }

  lemma AComplementReadEmptyIsUniversal(b: Schema, q: Setting, m: Meaning)
    requires RegionSet(b) == Known(ALL) || CoversTheUniverse(b) || (b.Union? && PushedComplementIsPlaced(b, Nothing, q.gate))
    requires b.Union? ==> FlatMembers(b.members) == b.members
    ensures ReadsUniversal(b, q)
  {
    hide Member, CoversTheUniverse, Limit, MeetWithin, FlatMembers, RegionSet;
    if RegionSet(b) != Known(ALL) && !CoversTheUniverse(b) {
      APlacedNothingIsTheLimit(ComplementsMet(b, q.gate), q);
      if forall t <- b.members :: RegionSet(t).Known? {
        RegionsOfAll(b.members, UNION_UNIT);
        forall v ensures Member(v, b, m) { NothingIsOutside(b, q.gate, v, m); }
        AKnownUniverse(b, m);
      }
    }
  }
}
