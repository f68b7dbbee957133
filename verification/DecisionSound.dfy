/** The decision is sound: at any budget, depth and trail, an answer is what it
    claims under the goals assumed, and at the root it is a fact. */
module DecisionSound {
  import opened Verdicts
  import opened Kinds
  import opened Schemas
  import opened Constructors
  import opened Values
  import opened Oracles
  import opened Readings
  import opened KindWalk
  import opened Tables
  import opened Shapes
  import opened EmptinessRight
  import opened Rules
  import opened Decision
  import opened Claims
  import opened RulesSound
  import opened ProductsSound
  import opened UnionsSound
  import opened SequencesSound
  import opened Emptiness

  // ---- The shapes left.

  lemma BelowAComplementIsValid(a: Schema, b: Schema, q: Setting, trail: seq<Goal>, m: Meaning)
    requires Reads(q, m) && b.Complement? && !a.Union?
    ensures Valid(BelowAComplement(a, b, q), PromiseOf(a, b, trail, m), m)
  {
    hide Exposed;
    hide Truthful;
    hide Member;
    var to := PromiseOf(a, b, trail, m);
    AnswersAreValid(to, m);
    var declined := BelowAComplementDeclined(a, b, q);
    BelowAComplementDeclinedIsValid(a, b, q, trail, m);
    var asked := Ask(a, b.inner, Empties(a, HOLDS, FAILS, DECLINES), declined, declined);
    if HoldsUnder(a, b.inner, trail, m) {
      InsideIsOutsideTheComplement(a, b, trail, m);
      assert Valid(Empties(a, HOLDS, FAILS, DECLINES), to, m);
    }
    AskIsValid(asked, to, m);
    ApartIsBelowTheComplement(a, b, trail, m);
    BesideIsValid(a, b.inner, HOLDS, FAILS, asked, q, to, m);
  }

  lemma BelowAComplementDeclinedIsValid(a: Schema, b: Schema, q: Setting, trail: seq<Goal>, m: Meaning)
    requires Reads(q, m)
    ensures Valid(BelowAComplementDeclined(a, b, q), PromiseOf(a, b, trail, m), m)
  {
    hide Exposed;
    hide Member;
    hide Valid;
    AnswersAreValid(PromiseOf(a, b, trail, m), m);
    if (a.Anything? || a.Complement?) && SpillsAKindInto(a, b, q) {
      ASpilledKindRefutes(a, b, q, m);
    } else if a.Instance? && q.oracle.leafSubtype(a, b) == Some(true) {
      IncludedHolds(a, b, trail, m);
    }
  }

  /** A proof of `A <= B` under hypotheses refutes `A <= not B`, for a subject
      that has a value: if the hypotheses are true the proof is a proof. */
  lemma InsideIsOutsideTheComplement(a: Schema, b: Schema, trail: seq<Goal>, m: Meaning)
    requires b.Complement? && HoldsUnder(a, b.inner, trail, m)
    ensures !HasValue(a, m) ==> HoldsUnder(a, b, trail, m)
    ensures HasValue(a, m) ==> Mismatched(a, b, trail, m)
  {
    if HasValue(a, m) && TrailTrue(trail, m) {
      HoldsOutright(a, b.inner, trail, m);
      var v :| Member(v, a, m);
      assert !Member(v, b, m);
    }
  }

  /** Complement is contravariant. */
  lemma ComplementsSwap(a: Schema, b: Schema, trail: seq<Goal>, m: Meaning)
    requires a.Complement? && b.Complement?
    ensures Valid(Just(b.inner, a.inner), PromiseOf(a, b, trail, m), m)
  {
    hide Exposed;
    if HoldsUnder(b.inner, a.inner, trail, m) { SwappedHolds(a, b, trail, m); }
    if FailsUnder(b.inner, a.inner, trail, m) && TrailTrue(trail, m) {
      var v :| Member(v, b.inner, m) && !Member(v, a.inner, m);
      assert Member(v, a, m) && !Member(v, b, m);
    }
    JustIsValid(b.inner, a.inner, PromiseOf(a, b, trail, m), m);
  }

  lemma SwappedHolds(a: Schema, b: Schema, trail: seq<Goal>, m: Meaning)
    requires a.Complement? && b.Complement? && HoldsUnder(b.inner, a.inner, trail, m)
    ensures HoldsUnder(a, b, trail, m)
  {
    HoldsVia(b.inner, a.inner, a, b, trail, m);
  }

  /** Collections of one kind are ordered as their elements are. */
  lemma SetsByElement(a: Schema, b: Schema, trail: seq<Goal>, m: Meaning)
    requires a.Coll? && b.Coll? && a.kind == b.kind
    ensures Valid(Just(a.element, b.element), PromiseOf(a, b, trail, m), m)
  {
    hide Exposed;
    hide HoldsUnder;
    if HoldsUnder(a.element, b.element, trail, m) {
      forall v | TrailLends(trail, v, Exposure(a, b, m), m) ensures At(a, b, v, m) {
        if Member(v, a, m) {
          forall e | e in v.elements ensures Member(e, b.element, m) { AnElementHolds(a.element, b.element, trail, v, e, Exposure(a, b, m), m); }
        }
      }
      HoldsAtEvery(a, b, trail, m);
    }
    if FailsUnder(a.element, b.element, trail, m) && TrailTrue(trail, m) {
      var x :| Member(x, a.element, m) && !Member(x, b.element, m);
      var v := if a.kind.SetColl? then VSet({x}) else VFrozenSet({x});
      assert x in v.elements && Member(v, a, m) && !Member(v, b, m);
    }
    JustIsValid(a.element, b.element, PromiseOf(a, b, trail, m), m);
  }

  lemma AnElementHolds(sub: Schema, sup: Schema, trail: seq<Goal>, v: Value, e: Value, exposure: nat, m: Meaning)
    requires (v.VSet? || v.VFrozenSet?) && e in v.elements
    requires HoldsUnder(sub, sup, trail, m) && TrailLends(trail, v, exposure, m) && Member(e, sub, m)
    ensures Member(e, sup, m)
  {
    hide Member;
    assert Smaller(e, v);
    LendsInside(trail, v, exposure, e, Exposure(sub, sup, m), m);
    assert At(sub, sup, e, m);
  }

  lemma BareRefinements(a: Schema, b: Schema, trail: seq<Goal>, m: Meaning)
    ensures a.Refine? && a.constraints == [] ==> Valid(Just(a.base, b), PromiseOf(a, b, trail, m), m)
    ensures b.Refine? && b.constraints == [] ==> Valid(Just(a, b.base), PromiseOf(a, b, trail, m), m)
  {
    hide HoldsUnder;
    hide FailsUnder;
    if a.Refine? && a.constraints == [] {
      SameSubject(a.base, a, b, trail, m);
      JustIsValid(a.base, b, PromiseOf(a, b, trail, m), m);
    }
    if b.Refine? && b.constraints == [] {
      SameSupertype(a, b.base, b, trail, m);
      JustIsValid(a, b.base, PromiseOf(a, b, trail, m), m);
    }
  }

  lemma AMeetIsValid(a: Schema, b: Schema, q: Setting, trail: seq<Goal>, m: Meaning)
    requires Reads(q, m) && a.Intersection?
    ensures Valid(ByShapeOfAMeet(a, b, q, trail == []), PromiseOf(a, b, trail, m), m)
  {
    hide MeetSettled;
    hide Member;
    hide HoldsUnder;
    hide Truthful;
    hide Exposed;
    var to := PromiseOf(a, b, trail, m);
    var tables := Answer(TheTablesBelow(a.members, b, q.oracle));
    MeetBelowIsValid(a, b, q, trail, m);
    TablesAreValid(a, b, q, trail, m);
    MeetReadWholeIsValid(a, b, q, trail, m);
    NarrowedMeetBelowIsValid(a, b, q, trail, m);
    ThreeReadings(MeetBelow(a, b, q, trail == []), tables, MeetReadWhole(a, b, q), to, m);
    OrElseIsValid(OrElse(OrElse(MeetBelow(a, b, q, trail == []), tables), MeetReadWhole(a, b, q)), NarrowedMeetBelow(a, b, q), to, m);
  }

  lemma TablesAreValid(a: Schema, b: Schema, q: Setting, trail: seq<Goal>, m: Meaning)
    requires Reads(q, m) && a.Intersection?
    ensures Valid(Answer(TheTablesBelow(a.members, b, q.oracle)), PromiseOf(a, b, trail, m), m)
  {
    hide Truthful;
    hide Member;
    TheTablesBelowAreRead(a.members, b, q.oracle, m);
    if TheTablesBelow(a.members, b, q.oracle).Holds? { IncludedHolds(a, b, trail, m); }
  }

  lemma AUnionSupertypeIsValid(a: Schema, b: Schema, q: Setting, trail: seq<Goal>, m: Meaning)
    requires Reads(q, m) && b.Union? && !a.Union?
    ensures Valid(OrElse(OrElse(BelowAUnion(a, b, q), if SpillsPastATable(a, b, q) then FAILS else DECLINES), Unstructured(a, b, q)),
                  PromiseOf(a, b, trail, m), m)
  {
    hide Exposed;
    hide Truthful;
    hide Member;
    hide HoldsUnder;
    BelowAUnionIsValid(a, b, q, trail, m);
    SpillingIsValid(a, b, q, trail, m);
    UnstructuredIsValid(a, b, q, trail, m);
    ThreeReadings(BelowAUnion(a, b, q), if SpillsPastATable(a, b, q) then FAILS else DECLINES, Unstructured(a, b, q), PromiseOf(a, b, trail, m), m);
  }

  lemma SpillingIsValid(a: Schema, b: Schema, q: Setting, trail: seq<Goal>, m: Meaning)
    requires Reads(q, m)
    ensures Valid(if SpillsPastATable(a, b, q) then FAILS else DECLINES, PromiseOf(a, b, trail, m), m)
  {
    hide Truthful;
    hide Member;
    AnswersAreValid(PromiseOf(a, b, trail, m), m);
    if SpillsPastATable(a, b, q) { AnEndlessKindSpills(a, b, q, m); }
  }

  lemma ARefinementIsValid(a: Schema, b: Schema, q: Setting, trail: seq<Goal>, m: Meaning)
    requires Reads(q, m) && a.Refine?
    ensures Valid(OrElse(if b.Refine? then RefinementBelow(a, b, q) else LeftReduces(a, b, q), Unstructured(a, b, q)),
                  PromiseOf(a, b, trail, m), m)
  {
    hide Exposed;
    hide Truthful;
    hide Member;
    hide HoldsUnder;
    if b.Refine? { RefinementBelowIsValid(a, b, q, trail, m); } else { LeftReducesIsValid(a, b, q, trail, m); }
    UnstructuredIsValid(a, b, q, trail, m);
    OrElseIsValid(if b.Refine? then RefinementBelow(a, b, q) else LeftReduces(a, b, q), Unstructured(a, b, q), PromiseOf(a, b, trail, m), m);
  }

  lemma ByShapeIsValid(a: Schema, b: Schema, q: Setting, trail: seq<Goal>, m: Meaning)
    requires Reads(q, m)
    ensures Valid(ByShape(a, b, q, trail == []), PromiseOf(a, b, trail, m), m)
  {
    hide MeetSettled;
    hide Member;
    hide HoldsUnder;
    hide Mismatched;
    hide Truthful;
    hide Valid;
    hide CanonicalMembers;
    var to := PromiseOf(a, b, trail, m);
    if a.Intersection? && !b.Intersection? {
      AMeetIsValid(a, b, q, trail, m);
    } else {
      if a.Union? { UnionBelowIsValid(a, b, q, trail, m); }
      else if b.Intersection? { BelowAMeetIsValid(a, b, trail, m); }
      else { AConstructorIsValid(a, b, q, trail, m); }
    }
  }

  lemma AConstructorIsValid(a: Schema, b: Schema, q: Setting, trail: seq<Goal>, m: Meaning)
    requires Reads(q, m) && !a.Union? && !b.Intersection? && !a.Intersection?
    ensures Valid(ByShape(a, b, q, trail == []), PromiseOf(a, b, trail, m), m)
  {
    hide MeetSettled;
    hide Exposed;
    hide Member;
    hide HoldsUnder;
    hide Mismatched;
    hide Truthful;
    hide Valid;
    BareRefinements(a, b, trail, m);
    if b.Union? { AUnionSupertypeIsValid(a, b, q, trail, m); }
    else if a.Refine? && a.constraints == [] { }
    else if b.Refine? && b.constraints == [] { }
    else if a.Ref? || b.Ref? {
      BelowAReferenceIsValid(a, b, q, trail, m);
      LeftReducesIsValid(a, b, q, trail, m);
    }
    else if a.Coll? && b.Coll? && a.kind == b.kind { SetsByElement(a, b, trail, m); }
    else if a.Seq? && b.Seq? && a.container == b.container { LinearBelowIsValid(a, b, trail, m); }
    else if a.Complement? && b.Complement? { ComplementsSwap(a, b, trail, m); }
    else if b.Complement? { BelowAComplementIsValid(a, b, q, trail, m); }
    else if a.Refine? { ARefinementIsValid(a, b, q, trail, m); }
    else {
      SpillingIsValid(a, b, q, trail, m);
      UnstructuredIsValid(a, b, q, trail, m);
    }
  }

  // ---- The bounds around the shapes.

  lemma {:induction false} FlatMembersDenote(ms: seq<Schema>, v: Value, m: Meaning)
    ensures InAny(v, FlatMembers(ms), m) <==> InAny(v, ms, m)
    decreases ms
  {
    hide MeetSettled;
    hide InAll;
    if ms != [] {
      var first := if ms[0].Union? then FlatMembers(ms[0].members) else [ms[0]];
      InSplit(v, ms, m);
      FlatMembersDenote(ms[1..], v, m);
      InConcatenation(v, first, FlatMembers(ms[1..]), m);
      if ms[0].Union? {
        FlatMembersDenote(ms[0].members, v, m);
        assert Member(v, ms[0], m) <==> InAny(v, ms[0].members, m);
      } else {
        assert ms[0] in first;
      }
    }
  }

  lemma AnEmptyComplementIsTheUniverse(b: Schema, gate: Gate, m: Meaning)
    requires b.Union? && !HasValue(MeetWithin(ComplementedAll(FlatMembers(b.members)), gate, true), m)
    ensures forall v :: Member(v, b, m)
  {
    hide Exposed;
    forall v ensures Member(v, b, m) {
      MeetDenotes(ComplementedAll(FlatMembers(b.members)), gate, true, v, m);
      ComplementedAllDenote(FlatMembers(b.members), v, m);
      FlatMembersDenote(b.members, v, m);
    }
  }

  lemma BoundedIsValid(a: Schema, b: Schema, q: Setting, trail: seq<Goal>, m: Meaning)
    requires Reads(q, m)
    ensures Valid(Bounded(a, b, q), PromiseOf(a, b, trail, m), m)
  {
    hide MeetSettled;
    hide Exposed;
    hide Member;
    hide Truthful;
    hide HoldsUnder;
    hide Mismatched;
    hide CoversTheUniverse;
    hide FlatMembers;
    hide MeetWithin;
    hide RegionSet;
    hide ComplementedAll;
    hide TrailLends;
    var to := PromiseOf(a, b, trail, m);
    AnswersAreValid(to, m);
    if CoversTheUniverse(b) {
      forall v ensures Member(v, b, m) { TheUniverseIsCovered(b, v, m); }
      IncludedHolds(a, b, trail, m);
    } else if b.Union? {
      var meet := MeetWithin(ComplementedAll(FlatMembers(b.members)), q.gate, true);
      if !HasValue(meet, m) {
        AnEmptyComplementIsTheUniverse(b, q.gate, m);
        IncludedHolds(a, b, trail, m);
      }
    }
    if !HasValue(a, m) { IncludedHolds(a, b, trail, m); }
  }

  lemma DecideIsValid(a: Schema, b: Schema, q: Setting, trail: seq<Goal>, m: Meaning)
    requires Reads(q, m)
    ensures Valid(Decide(a, b, q, trail == []), PromiseOf(a, b, trail, m), m)
  {
    hide Member;
    hide Truthful;
    hide HoldsUnder;
    hide ByShape;
    hide Bounded;
    hide RegionSet;
    hide PushedComplementIsPlaced;
    hide FiniteSetBelow;
    var to := PromiseOf(a, b, trail, m);
    AnswersAreValid(to, m);
    var table := if FiniteSet(a).Some? && FiniteSet(b).Some? then FiniteSetBelow(FiniteSet(a).value, FiniteSet(b).value, q.oracle)
                 else Relation.Unknown;
    if !table.Unknown? {
      TablesBelow(a, b, q.oracle, m);
      if table.Holds? { IncludedHolds(a, b, trail, m); }
    } else if RegionSet(b) == Known(ALL) {
      EverythingIsBelow(a, b, trail, m);
      assert to.holds && Valid(HOLDS, to, m);
      assert Decide(a, b, q, trail == []) == HOLDS;
    } else if a.Complement? && PushedComplementIsPlaced(a.inner, b, q.gate) {
      APushedComplementHolds(a, b, q, trail, m);
      assert Decide(a, b, q, trail == []) == HOLDS;
    } else {
      ByShapeIsValid(a, b, q, trail, m);
      BoundedIsValid(a, b, q, trail, m);
      OrElseIsValid(ByShape(a, b, q, trail == []), Bounded(a, b, q), to, m);
    }
  }

  lemma EverythingIsBelow(a: Schema, b: Schema, trail: seq<Goal>, m: Meaning)
    requires RegionSet(b) == Known(ALL)
    ensures HoldsUnder(a, b, trail, m)
  {
    hide Member;
    forall v ensures Member(v, b, m) {
      RegionsAreExact(b, v, m);
      EveryPartIsHeld(PartOf(v));
    }
  }

  lemma APushedComplementHolds(a: Schema, b: Schema, q: Setting, trail: seq<Goal>, m: Meaning)
    requires a.Complement? && PushedComplementIsPlaced(a.inner, b, q.gate)
    ensures HoldsUnder(a, b, trail, m)
  {
    hide Member;
    forall v ensures Member(v, a, m) ==> Member(v, b, m) { APushedPlacementHolds(a.inner, b, q.gate, v, m); }
    IncludedHolds(a, b, trail, m);
  }

  // ---- The recursion.

  ghost predicate Claimed(r: Ran, a: Schema, b: Schema, trail: seq<Goal>, m: Meaning) {
    (r.answer.Holds? ==> HoldsUnder(a, b, trail, m)) && (r.answer.Fails? ==> FailsUnder(a, b, trail, m))
  }

  ghost predicate Kept(r: Ran, to: Promise) {
    (r.answer.Holds? ==> to.holds) && (r.answer.Fails? ==> to.fails)
  }

  lemma {:induction false} RunKeepsThePromise(p: Plan, to: Promise, q: Setting, narrowing: bool, depth: nat, steps: nat, m: Meaning)
    requires Reads(q, m) && Valid(p, to, m)
    ensures Kept(Run(p, q, Path(to.trail, narrowing), depth, steps), to)
    decreases steps, 1, p
  {
    hide Exposed;
    hide Member;
    hide Truthful;
    hide HoldsUnder;
    hide FailsUnder;
    hide IsSubtypeRec;
    hide NarrowedRun;
    hide ProductRun;
    hide EmptyAndRegion;
    hide ProductHoldsUnder;
    hide ProductFailsUnder;
    var path := Path(to.trail, narrowing);
    match p
    case Answer(_) =>
    case Ask(a, b, _, _, _) =>
      var first := IsSubtypeRec(a, b, q, path, depth, steps);
      AGoalIsSound(a, b, q, path, depth, steps, m);
      RunKeepsThePromise(Next(p, first.answer), to, q, narrowing, depth, first.left, m);
    case Unfold(a, b, c, d, _, _, _) =>
      var within := path.(trail := path.trail + [Goal(a, b)]);
      var first := IsSubtypeRec(c, d, q, within, depth, steps);
      AGoalIsSound(c, d, q, within, depth, steps, m);
      RunKeepsThePromise(Next(p, first.answer), to, q, narrowing, depth, first.left, m);
    case Narrowed(a, b, _, _, _) =>
      var first := NarrowedRun(a, b, q, path, depth, steps);
      ANarrowedMeetIsSound(a, b, q, path, depth, steps, m);
      RunKeepsThePromise(Next(p, first.answer), to, q, narrowing, depth, first.left, m);
    case Product(split, deeper, _, _, _) =>
      var first := ProductRun(split, deeper, q, path, depth, steps);
      AProductIsSound(split, deeper, q, path, depth, steps, m);
      RunKeepsThePromise(Next(p, first.answer), to, q, narrowing, depth, first.left, m);
    case Empties(t, _, _, _) =>
      var first := EmptyAndRegion(t, q, NOTHING_HELD, depth, steps);
      EmptinessIsRightAtTheRoot(t, q, depth, steps, m);
      RunKeepsThePromise(NextRead(p, first.verdict), to, q, narrowing, depth, first.left, m);
    case Spent(yes, no) =>
      RunKeepsThePromise(if steps == 0 then yes else no, to, q, narrowing, depth, steps, m);
  }

  lemma {:induction false} ANarrowedMeetIsSound(a: Schema, b: Schema, q: Setting, path: Path, depth: nat, steps: nat, m: Meaning)
    requires Reads(q, m)
    ensures Claimed(NarrowedRun(a, b, q, path, depth, steps), a, b, path.trail, m)
    decreases steps, 0, 3
  {
    hide MeetSettled;
    hide Member;
    hide Truthful;
    hide HoldsUnder;
    hide ByRules;
    hide WitnessRun;
    hide Run;
    if path.narrowing {
      AGoalIsSound(a, b, q, path, depth, steps, m);
    } else {
      var own := IsSubtypeRec(a, b, q, Path([], true), 0, Least(steps, q.respelling));
      AGoalIsSound(a, b, q, Path([], true), 0, Least(steps, q.respelling), m);
      if own.answer.Holds? {
        HoldsOutright(a, b, [], m);
        IncludedHolds(a, b, path.trail, m);
      }
    }
  }

  lemma {:induction false} AProductIsSound(split: Split, deeper: bool, q: Setting, path: Path, depth: nat, steps: nat, m: Meaning)
    requires Reads(q, m)
    ensures Kept(ProductRun(split, deeper, q, path, depth, steps), ProductPromise(split.components, split.branches, path.trail, m))
    decreases steps, 0, 1
  {
    hide Member;
    hide Truthful;
    hide ProductPlan;
    hide ProductHoldsUnder;
    hide ProductFailsUnder;
    hide Run;
    if !((deeper && depth >= q.maxDepth) || steps == 0) {
      var to := ProductPromise(split.components, split.branches, path.trail, m);
      ProductPlanIsValid(split, q, path.trail, m);
      RunKeepsThePromise(ProductPlan(split, q), to, q, path.narrowing, if deeper then depth + 1 else depth, steps - 1, m);
    }
  }

  /** The rules' own answer: a proof under the trail, or a mismatch. */
  lemma {:induction false} TheRulesAreSound(a: Schema, b: Schema, q: Setting, path: Path, depth: nat, steps: nat, m: Meaning)
    requires Reads(q, m)
    ensures Kept(ByRules(a, b, q, path, depth, steps), PromiseOf(a, b, path.trail, m))
    decreases steps, 0, 1
  {
    hide Exposed;
    hide Member;
    hide Truthful;
    hide HoldsUnder;
    hide Decide;
    hide Run;
    hide RegionSet;
    hide PlacedByMembership;
    hide Valid;
    var to := PromiseOf(a, b, path.trail, m);
    if a == b {
      IncludedHolds(a, b, path.trail, m);
    } else if steps == 0 {
      if PlacedByMembership(a, b) {
        forall v ensures Member(v, a, m) ==> Member(v, b, m) { APlacementHolds(a, b, v, m); }
        IncludedHolds(a, b, path.trail, m);
      }
    } else if RegionSet(b).Known? && RegionSet(a).Known? {
      RegionsDecideInclusion(a, b, m);
      if Included(a, b, m) { IncludedHolds(a, b, path.trail, m); } else { NotIncludedSpills(a, b, m); }
    } else if Goal(a, b) in path.trail {
      AnAssumedGoalHolds(a, b, path.trail, m);
    } else if depth < q.maxDepth {
      DecideIsValid(a, b, q, path.trail, m);
      RunKeepsThePromise(Decide(a, b, q, path.trail == []), to, q, path.narrowing, depth + 1, steps - 1, m);
    }
  }

  lemma NotIncludedSpills(a: Schema, b: Schema, m: Meaning)
    requires !Included(a, b, m)
    ensures Spills(a, b, m)
  {
    hide Member;
  }

  /** A goal met again while it is assumed is lent at the value in hand. */
  lemma AnAssumedGoalHolds(a: Schema, b: Schema, trail: seq<Goal>, m: Meaning)
    requires Goal(a, b) in trail
    ensures HoldsUnder(a, b, trail, m)
  {
    hide Member;
    forall v | TrailLends(trail, v, Exposure(a, b, m), m) ensures At(a, b, v, m) {
      assert Lends(Goal(a, b), v, Exposure(a, b, m), m);
    }
  }

  /** Every answer the goal recursion gives is what it claims. */
  lemma {:induction false} AGoalIsSound(a: Schema, b: Schema, q: Setting, path: Path, depth: nat, steps: nat, m: Meaning)
    requires Reads(q, m)
    ensures Claimed(IsSubtypeRec(a, b, q, path, depth, steps), a, b, path.trail, m)
    decreases steps, 0, 2
  {
    hide MeetSettled;
    hide Member;
    hide Truthful;
    hide HoldsUnder;
    hide FailsUnder;
    hide Mismatched;
    hide ByRules;
    hide WitnessRun;
    hide Run;
    hide IsSubtypeRec;
    AGoalIs(a, b, q, path, depth, steps);
    var ruled := ByRules(a, b, q, path, depth, steps);
    TheRulesAreSound(a, b, q, path, depth, steps, m);
    if ruled.answer.Fails? { TheWitnessIsReal(a, b, q, path, depth, ruled.left, m); }
  }

  lemma TheWitnessIsReal(a: Schema, b: Schema, q: Setting, path: Path, depth: nat, steps: nat, m: Meaning)
    requires Reads(q, m) && Mismatched(a, b, path.trail, m)
    ensures Claimed(WitnessRun(a, q, path, depth, steps), a, b, path.trail, m)
  {
    hide TrailTrue, Spills, TrailLends;
    hide MeetSettled;
    hide Member;
    hide Truthful;
    hide HoldsUnder;
    hide EmptyAndRegion;
    hide HoldsAValueShallowly;
    hide MissesAKind;
    if HoldsAValueShallowly(a) {
      AShapeHoldsAValue(a, m);
    } else if a.Complement? && MissesAKind(a.inner, q) {
      AMissedKindIsComplemented(a.inner, q, m);
    } else if !a.Union? {
      EmptinessIsRightAtTheRoot(a, q, depth, steps, m);
      if !HasValue(a, m) { IncludedHolds(a, b, path.trail, m); }
    }
  }

  /** With nothing assumed, `Holds` is inclusion of the two sets and `Fails` is a
      value that spills. */
  lemma TheDecisionIsSound(a: Schema, b: Schema, q: Setting, narrowing: bool, depth: nat, steps: nat, m: Meaning)
    requires Reads(q, m)
    ensures IsSubtypeRec(a, b, q, Path([], narrowing), depth, steps).answer.Holds? ==> Included(a, b, m)
    ensures IsSubtypeRec(a, b, q, Path([], narrowing), depth, steps).answer.Fails? ==> Spills(a, b, m)
  {
    hide Member;
    hide Truthful;
    hide HoldsUnder;
    hide ByRules;
    hide WitnessRun;
    AGoalIsSound(a, b, q, Path([], narrowing), depth, steps, m);
    if IsSubtypeRec(a, b, q, Path([], narrowing), depth, steps).answer.Holds? { HoldsOutright(a, b, [], m); }
  }
}
