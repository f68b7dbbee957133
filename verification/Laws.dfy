/** The laws of the order at a root: what each question is answered, and, with no
    bound in the way, that the answers are those of one relation. */
module Laws {
  import opened Verdicts
  import opened Kinds
  import opened Schemas
  import opened Values
  import opened Oracles
  import opened Readings
  import opened Shapes
  import opened Emptiness
  import opened EmptinessRight
  import opened Unbounded
  import opened EmptinessFuel
  import opened EmptinessEnds
  import opened Rules
  import opened Decision
  import opened DecisionSound
  import opened DecisionFuel
  import opened Runs
  import opened Respelling
  import opened Root

  // ---- Reflexivity, and the top.

  lemma AnAskingOfItself(a: Schema, q: Setting, steps: nat, given: Allowance)
    ensures AskedOnce(a, a, q, steps, given).answer.Holds? && AskedOnce(a, a, q, steps, given).left == steps
  {
    hide Respelled, BelowByEmptiness, WitnessRun, Run;
    assert ByRules(a, a, q, ROOT, OUTSIDE, steps) == Done(Relation.Holds, steps);
  }

  /** Every schema is below itself and equivalent to itself, on any budget. */
  lemma TheRelationIsReflexive(a: Schema, q: Setting, given: Allowance)
    ensures SubtypeRelation(a, a, q, given).Holds? && EquivalenceRelation(a, a, q, given).Holds?
  {
    hide AskedOnce;
    AnAskingOfItself(a, q, given.budget, given);
  }

  /** Everything is below the top, at a step and a level. */
  lemma TheTopIsAbove(a: Schema, q: Setting, given: Allowance)
    requires given.budget > 0 && q.maxDepth > 0
    ensures SubtypeRelation(a, Anything, q, given).Holds?
  {
    hide Respelled, BelowByEmptiness, WitnessRun, ByShape, Bounded;
    if a != Anything && RegionSet(a).Known? { EverythingIsASubset(a); }
    assert ByRules(a, Anything, q, ROOT, OUTSIDE, given.budget).answer.Holds?;
  }

  lemma EverythingIsASubset(a: Schema)
    requires RegionSet(a).Known?
    ensures RegionSet(a).region.SubsetOf(ALL)
  {
  }

  // ---- Emptiness and inclusion agree.

  /** The emptiness reading one level down proves the schema empty, and no bound
      stops it. */
  ghost predicate ReadEmpty(a: Schema, q: Setting, budget: nat) {
    var read := EmptyAndRegion(a, q, NOTHING_HELD, ONE_IN, budget);
    read.verdict.Empty? && !read.met
  }

  lemma AReadingHadRoom(a: Schema, q: Setting, budget: nat)
    requires ReadEmpty(a, q, budget)
    ensures q.maxDepth > 1 && budget > 0
  {
    hide EmptyAndRegionAt;
  }

  lemma TheBottomReadsEmpty(q: Setting, budget: nat)
    requires budget > 0 && q.maxDepth > 1
    ensures ReadEmpty(Nothing, q, budget)
  {
    hide MeetRead, UnionRead, EveryPosition, RefinementRead;
    assert EmptyAndRegion(Nothing, q, NOTHING_HELD, ONE_IN, budget) == EmptyAndRegionAt(Nothing, q, NOTHING_HELD, 2, budget - 1);
    assert AtomRegion(Nothing).None?;
  }

  /** A shorter reading finds it empty too, or spends every step. */
  lemma AShorterReading(a: Schema, q: Setting, budget: nat, depth: nat, steps: nat)
    requires ReadEmpty(a, q, budget) && depth <= 1 && steps <= budget
    ensures var r := EmptyAndRegion(a, q, NOTHING_HELD, depth, steps); r.verdict.Empty? || r.left == 0
  {
    hide EmptyAndRegion;
    MoreSteps(a, q, NOTHING_HELD, ONE_IN, budget, q, depth, 0);
    MoreSteps(a, q, NOTHING_HELD, depth, steps, q, depth, budget - steps);
    assert steps + (budget - steps) == budget && budget + 0 == budget;
  }

  lemma TheBoundsProveOrSpend(a: Schema, b: Schema, q: Setting, budget: nat, steps: nat)
    requires ReadEmpty(a, q, budget) && steps <= budget
    ensures var r := Run(Bounded(a, b, q), q, ROOT, ONE_IN, steps); r.answer.Holds? || r.left == 0
  {
    hide EmptyAndRegion, Run, ReadEmpty;
    var p := Bounded(a, b, q);
    ARunIsItsFirstQuestion(p, q, ROOT, ONE_IN, steps);
    AShorterReading(a, q, budget, 1, steps);
    var read := EmptyAndRegion(a, q, NOTHING_HELD, ONE_IN, steps);
    if read.verdict.Empty? { AnAnswerIsRun(HOLDS, q, ROOT, ONE_IN, read.left); }
  }

  lemma TheRulesProveOrSpend(a: Schema, b: Schema, q: Setting, budget: nat)
    requires ReadEmpty(a, q, budget)
    ensures var r := ByRules(a, b, q, ROOT, OUTSIDE, budget); r.answer.Unknown? ==> r.left == 0
  {
    hide Proven, ReadEmpty;
    hide ByShape, Bounded, Run, RegionSet, EmptyAndRegion, Decide, PlacedByMembership;
    AReadingHadRoom(a, q, budget);
    var r := ByRules(a, b, q, ROOT, OUTSIDE, budget);
    if r.answer.Unknown? {
      var first := Run(ByShape(a, b, q, true), q, ROOT, ONE_IN, budget - 1);
      AnUndecidedGoalReadsTheBounds(a, b, q, budget - 1);
      RunOfTwoReadings(ByShape(a, b, q, true), Bounded(a, b, q), q, ROOT, ONE_IN, budget - 1);
      TheBoundsProveOrSpend(a, b, q, budget, first.left);
    }
  }

  /** The rules prove the pair, or decline it with every step spent. */
  lemma AGoalIsProvedOrSpends(a: Schema, b: Schema, q: Setting, budget: nat, m: Meaning)
    requires Reads(q, m) && ReadEmpty(a, q, budget)
    ensures var r := IsSubtypeRec(a, b, q, ROOT, OUTSIDE, budget); r.answer.Holds? || (r.answer.Unknown? && r.left == 0)
  {
    hide Member, Truthful, ByRules, EmptyAndRegion, ReadEmpty, WitnessRun;
    assert !HasValue(a, m) by { AReadEmptySchemaHoldsNothing(a, q, budget, m); }
    TheDecisionIsSound(a, b, q, false, 0, budget, m);
    TheRulesProveOrSpend(a, b, q, budget);
    var ruled := ByRules(a, b, q, ROOT, OUTSIDE, budget);
    if ruled.answer.Fails? { AWitnessIsReadOrSpends(a, q, budget, ruled.left); }
  }

  lemma AReadEmptySchemaHoldsNothing(a: Schema, q: Setting, budget: nat, m: Meaning)
    requires Reads(q, m) && ReadEmpty(a, q, budget)
    ensures !HasValue(a, m)
  {
    hide Member, Truthful, EmptyAndRegion;
    EmptinessIsRightAtTheRoot(a, q, 1, budget, m);
  }

  lemma AWitnessIsReadOrSpends(a: Schema, q: Setting, budget: nat, steps: nat)
    requires ReadEmpty(a, q, budget) && steps <= budget
    ensures var r := WitnessRun(a, q, ROOT, OUTSIDE, steps); r.answer.Unknown? ==> r.left == 0
  {
    hide EmptyAndRegion, ReadEmpty, Witness;
    WhatAWitnessReads(a, q);
    AShorterReading(a, q, budget, 0, steps);
  }

  /** A schema the emptiness reading proves empty, stopped by no bound, is answered
      below every supertype. */
  lemma EmptinessAndInclusionAgree(a: Schema, b: Schema, q: Setting, given: Allowance, m: Meaning)
    requires Reads(q, m) && ReadEmpty(a, q, given.budget)
    ensures SubtypeRelation(a, b, q, given).Holds?
  {
    hide Member, Truthful, IsSubtypeRec, EmptyAndRegion, Respelled, AskedOnce, ReadEmpty;
    AGoalIsProvedOrSpends(a, b, q, given.budget, m);
    AReadEmptySchemaHoldsNothing(a, q, given.budget, m);
    AnAskingIs(a, b, q, given.budget, given);
    var ruled := IsSubtypeRec(a, b, q, ROOT, OUTSIDE, given.budget);
    RespellingIsSound(a, b, q, Least(ruled.left, q.respelling), m);
    AShorterReadingAtTheRoot(a, q, given);
  }

  lemma AShorterReadingAtTheRoot(a: Schema, q: Setting, given: Allowance)
    requires ReadEmpty(a, q, given.budget)
    ensures IsEmptyWith(a, q, given)
  {
    hide EmptyAndRegion;
    MoreSteps(a, q, NOTHING_HELD, ONE_IN, given.budget, q, 0, 0);
    assert given.budget + 0 == given.budget;
  }

  /** The bottom is below everything, at a step and two levels. */
  lemma TheBottomIsBelow(b: Schema, q: Setting, given: Allowance, m: Meaning)
    requires Reads(q, m) && given.budget > 0 && q.maxDepth > 1
    ensures SubtypeRelation(Nothing, b, q, given).Holds?
  {
    hide Member, Truthful, SubtypeRelation, ReadEmpty;
    TheBottomReadsEmpty(q, given.budget);
    EmptinessAndInclusionAgree(Nothing, b, q, given, m);
  }

  /** And with room for the reading: what it proves empty is below everything. */
  lemma WithRoomTheyAgree(a: Schema, b: Schema, q: Setting, w: Setting, given: Allowance, m: Meaning)
    requires Reads(w, m) && Alike(q, w) && Room(w, 1, given.budget, Enough(a, q)) && Limit(a, q).Empty?
    ensures SubtypeRelation(a, b, w, given).Holds?
  {
    hide Member, Truthful, EmptyAndRegion, SubtypeRelation, Limit, Enough;
    WithRoomItReadsTheLimit(a, q, w, 1, given.budget);
    EmptinessAndInclusionAgree(a, b, w, given, m);
  }

  // ---- A supertype of every value.

  /** A supertype whose complement is proved empty is refuted below no subject. */
  lemma AUniversalSupertypeIsNeverRefuted(a: Schema, b: Schema, q: Setting, given: Allowance, m: Meaning)
    requires Reads(q, m) && IsEmptyWith(Complement(b), q, given)
    ensures !SubtypeRelation(a, b, q, given).Fails?
  {
    hide Member, Truthful, IsEmptyWith, SubtypeRelation;
    AnEmptySchemaHoldsNothing(Complement(b), q, given, m);
    TheRelationIsSound(a, b, q, given, m);
    forall v ensures Member(v, b, m) { AtEveryNode(v, m); }
  }
}
