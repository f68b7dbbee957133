/** A union as the supertype: the branch that holds the subject, and the union less
    the branches apart from it. */
module UnionsSound {
  import opened Verdicts
  import opened Schemas
  import opened Constructors
  import opened Values
  import opened Oracles
  import opened Disjointness
  import opened Shapes
  import opened Rules
  import opened Decision
  import opened Claims
  import opened RulesSound
  import opened ProductsSound

  // ---- A schema below a union.

  lemma ABranchHolds(a: Schema, t: Schema, b: Schema, trail: seq<Goal>, m: Meaning)
    requires b.Union? && t in b.members && HoldsUnder(a, t, trail, m)
    ensures HoldsUnder(a, b, trail, m)
  {
    HoldsVia(a, t, a, b, trail, m);
  }

  lemma {:induction false} EachBranchIsValid(a: Schema, ms: seq<Schema>, refuted: bool, b: Schema, q: Setting, to: Promise, m: Meaning)
    requires b.Union?
    requires forall t <- ms :: HoldsUnder(a, t, to.trail, m) ==> to.holds
    requires Valid(PastTheBranches(a, b, true, q), to, m) && Valid(PastTheBranches(a, b, false, q), to, m)
    ensures Valid(EachBranch(a, ms, refuted, b, q), to, m)
  {
    hide Member;
    hide Valid;
    hide DisjointWith;
    hide MeetWithin;
    hide UnionWithin;
    if ms != [] {
      EachBranchIsValid(a, ms[1..], true, b, q, to, m);
      EachBranchIsValid(a, ms[1..], refuted, b, q, to, m);
      AskIsValid(EachBranch(a, ms, refuted, b, q), to, m);
    }
  }

  /** The branches kept are branches, and each one dropped shares nothing with
      the subject. */
  ghost predicate DropsApart(a: Schema, b: Schema, kept: seq<Schema>, left: seq<Schema>, m: Meaning)
    requires b.Union?
  {
    && (forall t <- kept + left :: t in b.members)
    && (forall t <- b.members :: t in kept || t in left || Apart(a, t, m))
  }

  /** Of the subject's values the branches kept hold those the union holds. */
  lemma KeptDenotes(a: Schema, b: Schema, kept: seq<Schema>, v: Value, m: Meaning)
    requires b.Union? && DropsApart(a, b, kept, [], m) && Member(v, a, m)
    ensures Member(v, Union(kept), m) <==> Member(v, b, m)
  {
    hide Member, DropsApart, InAny;
    KeptHoldIt(a, b, kept, v, m);
    InAUnion(v, kept, m);
    InAUnion(v, b.members, m);
    assert b == Union(b.members);
  }

  lemma KeptHoldIt(a: Schema, b: Schema, kept: seq<Schema>, v: Value, m: Meaning)
    requires b.Union? && DropsApart(a, b, kept, [], m) && Member(v, a, m)
    ensures InAny(v, kept, m) <==> InAny(v, b.members, m)
  {
    hide Member;
    if t :| t in kept && Member(v, t, m) { assert t in kept + []; }
    if t :| t in b.members && Member(v, t, m) { assert !Apart(a, t, m); }
  }

  /** Dropping the branches apart from the subject changes neither answer. */
  lemma NarrowingIsExact(a: Schema, b: Schema, kept: seq<Schema>, trail: seq<Goal>, m: Meaning)
    requires b.Union? && DropsApart(a, b, kept, [], m)
    ensures HoldsUnder(a, Union(kept), trail, m) ==> HoldsUnder(a, b, trail, m)
    ensures FailsUnder(a, Union(kept), trail, m) ==> FailsUnder(a, b, trail, m)
    ensures kept == [] && HasValue(a, m) ==> Spills(a, b, m)
  {
    hide Member;
    hide Exposed;
    hide HoldsUnder;
    assert forall t <- kept :: t in kept + [];
    forall v | Member(v, a, m) ensures Member(v, Union(kept), m) <==> Member(v, b, m) { KeptDenotes(a, b, kept, v, m); }
    KeptExposes(b, kept, m);
    if HoldsUnder(a, Union(kept), trail, m) { HoldsVia(a, Union(kept), a, b, trail, m); }
    if FailsUnder(a, Union(kept), trail, m) && TrailTrue(trail, m) {
      var v :| Member(v, a, m) && !Member(v, Union(kept), m);
      assert !Member(v, b, m);
    }
    if kept == [] && HasValue(a, m) {
      var v :| Member(v, a, m);
      NothingIsKept(v, m);
      assert !Member(v, b, m);
    }
  }

  lemma NothingIsKept(v: Value, m: Meaning)
    ensures !Member(v, Union([]), m)
  {
  }

  lemma KeptExposes(b: Schema, kept: seq<Schema>, m: Meaning)
    requires b.Union? && forall t <- kept :: t in b.members
    ensures Exposed(Union(kept), m.rank) <= Exposed(b, m.rank)
  {
    ExposedBelow(kept, m.rank, Exposed(b, m.rank));
  }

  lemma BelowKeptIsValid(a: Schema, b: Schema, kept: seq<Schema>, trail: seq<Goal>, m: Meaning)
    requires b.Union? && !a.Union? && DropsApart(a, b, kept, [], m)
    ensures Valid(BelowKept(a, kept), PromiseOf(a, b, trail, m), m)
  {
    hide Member;
    hide Exposed;
    var to := PromiseOf(a, b, trail, m);
    NarrowingIsExact(a, b, kept, trail, m);
    if kept == [] {
      AnswersAreValid(to, m);
    } else if |kept| == 1 {
      assert kept[0] in kept + [];
      OneKept(a, kept, trail, m);
      JustIsValid(a, kept[0], to, m);
    } else {
      JustIsValid(a, Union(kept), to, m);
    }
  }

  lemma OneKept(a: Schema, kept: seq<Schema>, trail: seq<Goal>, m: Meaning)
    requires |kept| == 1
    ensures HoldsUnder(a, kept[0], trail, m) ==> HoldsUnder(a, Union(kept), trail, m)
    ensures FailsUnder(a, kept[0], trail, m) ==> FailsUnder(a, Union(kept), trail, m)
  {
    assert SameSet(kept[0], Union(kept), m);
    SameSupertype(a, kept[0], Union(kept), trail, m);
  }

  lemma MetCheaplyIsValid(a: Schema, b: Schema, q: Setting, trail: seq<Goal>, m: Meaning)
    requires Reads(q, m) && b.Union? && !a.Union?
    ensures Valid(MetCheaply(a, b.members, q), PromiseOf(a, b, trail, m), m)
  {
    hide Truthful;
    hide DisjointWith;
    var kept := KeptCheaply(a, b.members, q.oracle);
    forall t | t in b.members && DisjointWith(a, t, q.oracle) ensures Apart(a, t, m) { DisjointIsApart(a, t, q.oracle, m); }
    assert DropsApart(a, b, kept, [], m);
    BelowKeptIsValid(a, b, kept, trail, m);
  }

  lemma {:induction false} KeptFullyIsValid(a: Schema, b: Schema, ms: seq<Schema>, kept: seq<Schema>, q: Setting, trail: seq<Goal>, m: Meaning)
    requires Reads(q, m) && b.Union? && !a.Union? && DropsApart(a, b, kept, ms, m)
    ensures Valid(KeptFully(a, ms, kept, q), PromiseOf(a, b, trail, m), m)
  {
    hide Member;
    hide Exposed;
    hide Truthful;
    if ms == [] {
      BelowKeptIsValid(a, b, kept, trail, m);
    } else {
      assert ms[0] in kept + ms;
      StayingDropsApart(a, b, kept, ms, m);
      KeptFullyIsValid(a, b, ms[1..], kept + [ms[0]], q, trail, m);
      if Apart(a, ms[0], m) { KeptFullyIsValid(a, b, ms[1..], kept, q, trail, m); }
      var stays := KeptFully(a, ms[1..], kept + [ms[0]], q);
      BesideIsValid(a, ms[0], KeptFully(a, ms[1..], kept, q), stays, stays, q, PromiseOf(a, b, trail, m), m);
    }
  }

  lemma StayingDropsApart(a: Schema, b: Schema, kept: seq<Schema>, ms: seq<Schema>, m: Meaning)
    requires b.Union? && ms != [] && DropsApart(a, b, kept, ms, m)
    ensures DropsApart(a, b, kept + [ms[0]], ms[1..], m)
    ensures Apart(a, ms[0], m) ==> DropsApart(a, b, kept, ms[1..], m)
  {
    assert forall t :: t in ms <==> t == ms[0] || t in ms[1..];
    assert forall t <- (kept + [ms[0]]) + ms[1..] :: t in kept + ms;
    assert forall t <- kept + ms[1..] :: t in kept + ms;
  }

  lemma {:induction false} SomeApartIsValid(a: Schema, b: Schema, ms: seq<Schema>, q: Setting, trail: seq<Goal>, m: Meaning)
    requires Reads(q, m) && b.Union? && !a.Union?
    ensures Valid(SomeApart(a, ms, b.members, q), PromiseOf(a, b, trail, m), m)
  {
    hide Member;
    hide Exposed;
    hide Truthful;
    if ms != [] {
      SomeApartIsValid(a, b, ms[1..], q, trail, m);
      assert DropsApart(a, b, [], b.members, m);
      KeptFullyIsValid(a, b, b.members, [], q, trail, m);
      var next := SomeApart(a, ms[1..], b.members, q);
      BesideIsValid(a, ms[0], KeptFully(a, b.members, [], q), next, next, q, PromiseOf(a, b, trail, m), m);
    }
  }

  lemma ReducedIsValid(a: Schema, b: Schema, q: Setting, trail: seq<Goal>, m: Meaning)
    requires Reads(q, m)
    ensures Valid(Reduced(a, b, q), PromiseOf(a, b, trail, m), m)
  {
    if a.Instance? && q.oracle.leafSubtype(a, b) == Some(true) {
      IncludedHolds(a, b, trail, m);
      AnswersAreValid(PromiseOf(a, b, trail, m), m);
    } else {
      LeftReducesIsValid(a, b, q, trail, m);
    }
  }

  lemma PastTheBranchesIsValid(a: Schema, b: Schema, refuted: bool, q: Setting, trail: seq<Goal>, m: Meaning)
    requires Reads(q, m) && b.Union? && !a.Union?
    ensures Valid(PastTheBranches(a, b, refuted, q), PromiseOf(a, b, trail, m), m)
  {
    hide Member;
    hide Truthful;
    var reduced := Reduced(a, b, q);
    var narrowed := if refuted then OrElse(OrElse(MetCheaply(a, b.members, q), MetFully(a, b.members, q)), reduced) else reduced;
    NarrowedOrReducedIsValid(a, b, refuted, q, trail, m);
    var split := if a.Seq? then SplitsAcross(a, b.members, q) else DECLINES;
    SplitOrElseIsValid(a, b, split, narrowed, q, trail, m);
    BelowAMergedSplitIsValid(a, b, OrElse(split, narrowed), q, trail, m);
  }

  lemma NarrowedOrReducedIsValid(a: Schema, b: Schema, refuted: bool, q: Setting, trail: seq<Goal>, m: Meaning)
    requires Reads(q, m) && b.Union? && !a.Union?
    ensures Valid(if refuted then OrElse(OrElse(MetCheaply(a, b.members, q), MetFully(a, b.members, q)), Reduced(a, b, q)) else Reduced(a, b, q),
                  PromiseOf(a, b, trail, m), m)
  {
    hide Member;
    hide Exposed;
    hide Truthful;
    ReducedIsValid(a, b, q, trail, m);
    if refuted {
      MetCheaplyIsValid(a, b, q, trail, m);
      SomeApartIsValid(a, b, b.members, q, trail, m);
      ThreeReadings(MetCheaply(a, b.members, q), MetFully(a, b.members, q), Reduced(a, b, q), PromiseOf(a, b, trail, m), m);
    }
  }

  lemma SplitOrElseIsValid(a: Schema, b: Schema, split: Plan, second: Plan, q: Setting, trail: seq<Goal>, m: Meaning)
    requires Reads(q, m) && b.Union? && split == if a.Seq? then SplitsAcross(a, b.members, q) else DECLINES
    requires Valid(second, PromiseOf(a, b, trail, m), m)
    ensures Valid(OrElse(split, second), PromiseOf(a, b, trail, m), m)
  {
    hide Member;
    hide Exposed;
    hide Truthful;
    AnswersAreValid(PromiseOf(a, b, trail, m), m);
    if a.Seq? { SplitsAcrossIsValid(a, b, q, trail, m); }
    OrElseIsValid(split, second, PromiseOf(a, b, trail, m), m);
  }

  lemma BelowAUnionIsValid(a: Schema, b: Schema, q: Setting, trail: seq<Goal>, m: Meaning)
    requires Reads(q, m) && b.Union? && !a.Union?
    ensures Valid(BelowAUnion(a, b, q), PromiseOf(a, b, trail, m), m)
  {
    hide Truthful;
    hide Satisfied;
    hide Mismatched;
    hide CanonicalMembers;
    hide TablesDisjoint;
    var to := PromiseOf(a, b, trail, m);
    if a in b.members {
      forall v ensures At(a, b, v, m) { APlacementHolds(a, b, v, m); }
      IncludedHolds(a, b, trail, m);
      AnswersAreValid(to, m);
    } else {
      PastTheBranchesIsValid(a, b, true, q, trail, m);
      PastTheBranchesIsValid(a, b, false, q, trail, m);
      forall t | t in b.members && HoldsUnder(a, t, trail, m) ensures to.holds { ABranchHolds(a, t, b, trail, m); }
      EachBranchIsValid(a, b.members, false, b, q, to, m);
    }
  }
}
