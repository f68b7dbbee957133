/** Every rule keeps its promise: the proof it reaches follows from the answers it
    was given, under the goals assumed, and so does the refutation. */
module RulesSound {
  import opened Schemas
  import opened Constructors
  import opened Values
  import opened Oracles
  import opened KindWalk
  import opened Disjointness
  import opened Shapes
  import opened Bounds
  import opened Narrowing
  import opened Rules
  import opened Decision
  import opened Claims

  /** What the goal's own rules promise. */
  ghost function PromiseOf(a: Schema, b: Schema, trail: seq<Goal>, m: Meaning): Promise
  {
    Promise(trail, HoldsUnder(a, b, trail, m), Mismatched(a, b, trail, m))
  }

  // ---- The steps every rule is built of.

  lemma JustIsValid(sub: Schema, sup: Schema, to: Promise, m: Meaning)
    requires HoldsUnder(sub, sup, to.trail, m) ==> to.holds
    requires FailsUnder(sub, sup, to.trail, m) ==> to.fails
    ensures Valid(Just(sub, sup), to, m)
  {
    var p := Just(sub, sup);
    AnswersAreValid(to, m);
    assert ValidNext(p, to, m);
  }

  lemma AskIsValid(p: Plan, to: Promise, m: Meaning)
    requires p.Ask?
    requires HoldsUnder(p.sub, p.sup, to.trail, m) ==> Valid(p.holds, to, m)
    requires FailsUnder(p.sub, p.sup, to.trail, m) ==> Valid(p.fails, to, m)
    requires Valid(p.unknown, to, m)
    ensures Valid(p, to, m)
  {
    assert ValidNext(p, to, m);
  }

  lemma BesideIsValid(a: Schema, b: Schema, empty: Plan, inhabited: Plan, undecided: Plan, q: Setting, to: Promise, m: Meaning)
    requires Reads(q, m)
    requires Apart(a, b, m) ==> Valid(empty, to, m)
    requires !Apart(a, b, m) ==> Valid(inhabited, to, m)
    requires Valid(undecided, to, m)
    ensures Valid(Beside(a, b, empty, inhabited, undecided, q), to, m)
  {
    hide Member;
    hide Truthful;
    hide DisjointWith;
    if DisjointWith(a, b, q.oracle) {
      DisjointIsApart(a, b, q.oracle, m);
    } else {
      var meet := MeetWithin([a, b], q.gate, true);
      forall v ensures Member(v, meet, m) <==> Member(v, a, m) && Member(v, b, m) {
        MeetDenotes([a, b], q.gate, true, v, m);
        InSplit(v, [a, b], m);
        assert [a, b][1..] == [b] && b in [b];
      }
      assert HasValue(meet, m) <==> !Apart(a, b, m);
    }
  }

  // ---- Unions below, and meets above.

  ghost predicate AllBelow(ms: seq<Schema>, b: Schema, trail: seq<Goal>, m: Meaning)
  {
    forall t <- ms :: HoldsUnder(t, b, trail, m)
  }

  ghost predicate AllAbove(a: Schema, ms: seq<Schema>, trail: seq<Goal>, m: Meaning)
  {
    forall t <- ms :: HoldsUnder(a, t, trail, m)
  }

  lemma {:induction false} EachBelowIsValid(ms: seq<Schema>, b: Schema, declined: bool, to: Promise, m: Meaning)
    requires !declined && AllBelow(ms, b, to.trail, m) ==> to.holds
    requires forall t <- ms :: FailsUnder(t, b, to.trail, m) ==> to.fails
    ensures Valid(EachBelow(ms, b, declined), to, m)
  {
    hide Member;
    if ms != [] {
      var p := EachBelow(ms, b, declined);
      assert forall t :: t in ms <==> t == ms[0] || t in ms[1..];
      if HoldsUnder(ms[0], b, to.trail, m) { EachBelowIsValid(ms[1..], b, declined, to, m); }
      EachBelowIsValid(ms[1..], b, true, to, m);
      AskIsValid(p, to, m);
    }
  }

  lemma {:induction false} BelowEachIsValid(a: Schema, ms: seq<Schema>, declined: bool, to: Promise, m: Meaning)
    requires !declined && AllAbove(a, ms, to.trail, m) ==> to.holds
    requires forall t <- ms :: FailsUnder(a, t, to.trail, m) ==> to.fails
    ensures Valid(BelowEach(a, ms, declined), to, m)
  {
    hide Member;
    if ms != [] {
      assert forall t :: t in ms <==> t == ms[0] || t in ms[1..];
      if HoldsUnder(a, ms[0], to.trail, m) { BelowEachIsValid(a, ms[1..], declined, to, m); }
      BelowEachIsValid(a, ms[1..], true, to, m);
      AskIsValid(BelowEach(a, ms, declined), to, m);
    }
  }

  lemma AUnionIsBelow(ms: seq<Schema>, b: Schema, trail: seq<Goal>, m: Meaning)
    requires AllBelow(ms, b, trail, m)
    ensures HoldsUnder(Union(ms), b, trail, m)
  {
    forall v | TrailLends(trail, v, Exposure(Union(ms), b, m), m) ensures At(Union(ms), b, v, m) {
      forall t | t in ms ensures At(t, b, v, m) { LendsLess(trail, v, Exposure(Union(ms), b, m), Exposure(t, b, m), m); }
    }
  }

  lemma ABelowAMeet(a: Schema, ms: seq<Schema>, trail: seq<Goal>, m: Meaning)
    requires AllAbove(a, ms, trail, m)
    ensures HoldsUnder(a, Intersection(ms), trail, m)
  {
    forall v | TrailLends(trail, v, Exposure(a, Intersection(ms), m), m) ensures At(a, Intersection(ms), v, m) {
      forall t | t in ms ensures At(a, t, v, m) { LendsLess(trail, v, Exposure(a, Intersection(ms), m), Exposure(a, t, m), m); }
    }
  }

  lemma UnionBelowIsValid(a: Schema, b: Schema, q: Setting, trail: seq<Goal>, m: Meaning)
    requires Reads(q, m) && a.Union?
    ensures Valid(UnionBelow(a, b, q), PromiseOf(a, b, trail, m), m)
  {
    hide Exposed;
    hide Truthful;
    hide Satisfied;
    hide TablesDisjoint;
    if b.Complement? { TablesAreRead(a, b.inner, q.oracle, m); }
    if AllBelow(a.members, b, trail, m) { AUnionIsBelow(a.members, b, trail, m); }
    forall t | t in a.members && FailsUnder(t, b, trail, m) ensures FailsUnder(a, b, trail, m) {
      if TrailTrue(trail, m) {
        var v :| Member(v, t, m) && !Member(v, b, m);
        assert Member(v, a, m);
      }
    }
    EachBelowIsValid(a.members, b, false, PromiseOf(a, b, trail, m), m);
  }

  lemma BelowAMeetIsValid(a: Schema, b: Schema, trail: seq<Goal>, m: Meaning)
    requires b.Intersection?
    ensures Valid(BelowEach(a, b.members, false), PromiseOf(a, b, trail, m), m)
  {
    hide Exposed;
    hide Satisfied;
    hide HoldsUnder;
    if AllAbove(a, b.members, trail, m) { ABelowAMeet(a, b.members, trail, m); }
    forall t | t in b.members && FailsUnder(a, t, trail, m) ensures FailsUnder(a, b, trail, m) {
      if TrailTrue(trail, m) {
        var v :| Member(v, a, m) && !Member(v, t, m);
        assert !Member(v, b, m);
      }
    }
    BelowEachIsValid(a, b.members, false, PromiseOf(a, b, trail, m), m);
  }

  // ---- A meet below.

  lemma {:induction false} AnyMemberBelowIsValid(ms: seq<Schema>, b: Schema, otherwise: Plan, to: Promise, m: Meaning)
    requires Valid(otherwise, to, m)
    requires forall t <- ms :: HoldsUnder(t, b, to.trail, m) ==> to.holds
    ensures Valid(AnyMemberBelow(ms, b, otherwise), to, m)
  {
    hide Member;
    hide Exposed;
    hide HoldsUnder;
    hide Valid;
    if ms != [] {
      AnyMemberBelowIsValid(ms[1..], b, otherwise, to, m);
      AskIsValid(AnyMemberBelow(ms, b, otherwise), to, m);
    }
  }

  lemma {:induction false} BelowAnyBranchIsValid(a: Schema, ms: seq<Schema>, otherwise: Plan, to: Promise, m: Meaning)
    requires Valid(otherwise, to, m)
    requires forall t <- ms :: HoldsUnder(a, t, to.trail, m) ==> to.holds
    ensures Valid(BelowAnyBranch(a, ms, otherwise), to, m)
  {
    hide Member;
    hide HoldsUnder;
    hide Valid;
    if ms != [] {
      BelowAnyBranchIsValid(a, ms[1..], otherwise, to, m);
      AskIsValid(BelowAnyBranch(a, ms, otherwise), to, m);
    }
  }

  /** The merged union is the union, so its answer is the union's both ways. */
  lemma BelowAMergedSplitIsValid(a: Schema, b: Schema, otherwise: Plan, q: Setting, trail: seq<Goal>, m: Meaning)
    requires b.Union? && Valid(otherwise, PromiseOf(a, b, trail, m), m)
    ensures Valid(BelowAMergedSplit(a, b.members, otherwise, q), PromiseOf(a, b, trail, m), m)
  {
    hide Truthful;
    hide Satisfied;
    hide HoldsUnder;
    hide FailsUnder;
    if TwoMeets(b.members) && MergedSplit(b.members, q.gate).Some? {
      var merged := MergedSplit(b.members, q.gate).value;
      forall v ensures Member(v, merged, m) <==> Member(v, b, m) { MergedSplitDenotes(b.members, q.gate, v, m); }
      MergedFromExposes(b.members, 0, q.gate, m.rank, Exposed(b, m.rank));
      SameSupertype(a, merged, b, trail, m);
      AskIsValid(BelowAMergedSplit(a, b.members, otherwise, q), PromiseOf(a, b, trail, m), m);
    }
  }

  lemma SameSupertype(a: Schema, sup: Schema, b: Schema, trail: seq<Goal>, m: Meaning)
    requires Exposed(sup, m.rank) <= Exposed(b, m.rank) && SameSet(sup, b, m)
    ensures HoldsUnder(a, sup, trail, m) ==> HoldsUnder(a, b, trail, m)
    ensures FailsUnder(a, sup, trail, m) ==> FailsUnder(a, b, trail, m)
  {
    if HoldsUnder(a, sup, trail, m) { SameSupertypeHolds(a, sup, b, trail, m); }
    if FailsUnder(a, sup, trail, m) { SameSetsSpill(a, sup, a, b, trail, m); }
  }

  lemma SameSubject(sub: Schema, a: Schema, b: Schema, trail: seq<Goal>, m: Meaning)
    requires Exposed(sub, m.rank) <= Exposed(a, m.rank) && SameSet(sub, a, m)
    ensures HoldsUnder(sub, b, trail, m) ==> HoldsUnder(a, b, trail, m)
    ensures FailsUnder(sub, b, trail, m) ==> FailsUnder(a, b, trail, m)
  {
    if HoldsUnder(sub, b, trail, m) { SameSubjectHolds(sub, a, b, trail, m); }
    if FailsUnder(sub, b, trail, m) { SameSetsSpill(sub, b, a, b, trail, m); }
  }

  lemma TheLeastMemberIsTheMeet(ms: seq<Schema>, at: nat, m: Meaning)
    requires at < |ms|
    requires forall i :: 0 <= i < |ms| && i != at ==> Included(ms[at], ms[i], m)
    ensures SameSet(ms[at], Intersection(ms), m)
    ensures Exposed(ms[at], m.rank) <= Exposed(Intersection(ms), m.rank)
  {
    forall v ensures Member(v, ms[at], m) <==> Member(v, Intersection(ms), m) { InAllByIndex(v, ms, m); }
    assert ms[at] in ms;
  }

  /** A member proved below all the others, with nothing assumed, is the meet. */
  lemma {:induction false} BelowTheOthersIsValid(ms: seq<Schema>, at: nat, other: nat, b: Schema, otherwise: Plan, to: Promise, m: Meaning)
    requires at < |ms| && other <= |ms| && to.trail == []
    requires Valid(otherwise, to, m)
    requires TheMeetAt(ms, at, m) ==> Valid(Just(ms[at], b), to, m)
    requires BelowFirst(ms, at, other, m)
    ensures Valid(BelowTheOthers(ms, at, other, b, otherwise), to, m)
    decreases |ms| - other
  {
    hide Member;
    hide Exposed;
    if other < |ms| {
      if other == at {
        BelowTheOthersIsValid(ms, at, other + 1, b, otherwise, to, m);
      } else {
        if HoldsUnder(ms[at], ms[other], [], m) {
          HoldsOutright(ms[at], ms[other], [], m);
          BelowTheOthersIsValid(ms, at, other + 1, b, otherwise, to, m);
        }
        AMemberIsAsked(ms[at], ms[other], BelowTheOthers(ms, at, other + 1, b, otherwise), otherwise, to, m);
      }
    }
  }

  ghost predicate BelowFirst(ms: seq<Schema>, at: nat, other: nat, m: Meaning)
    requires at < |ms| && other <= |ms|
  {
    forall i :: 0 <= i < other && i != at ==> Included(ms[at], ms[i], m)
  }

  ghost predicate TheMeetAt(ms: seq<Schema>, at: nat, m: Meaning)
    requires at < |ms|
  {
    BelowFirst(ms, at, |ms|, m)
  }

  lemma TheLeastMemberIsAsked(ms: seq<Schema>, at: nat, b: Schema, m: Meaning)
    requires at < |ms| && TheMeetAt(ms, at, m)
    ensures Valid(Just(ms[at], b), PromiseOf(Intersection(ms), b, [], m), m)
  {
    TheLeastMemberIsTheMeet(ms, at, m);
    SameSubject(ms[at], Intersection(ms), b, [], m);
    JustIsValid(ms[at], b, PromiseOf(Intersection(ms), b, [], m), m);
  }

  lemma AMemberIsAsked(sub: Schema, sup: Schema, holds: Plan, otherwise: Plan, to: Promise, m: Meaning)
    requires Valid(otherwise, to, m)
    requires HoldsUnder(sub, sup, to.trail, m) ==> Valid(holds, to, m)
    ensures Valid(Ask(sub, sup, holds, otherwise, otherwise), to, m)
  {
    AskIsValid(Ask(sub, sup, holds, otherwise, otherwise), to, m);
  }

  lemma {:induction false} TheMemberThatIsTheMeetIsValid(ms: seq<Schema>, at: nat, b: Schema, m: Meaning)
    requires at <= |ms|
    ensures Valid(TheMemberThatIsTheMeet(ms, at, b), PromiseOf(Intersection(ms), b, [], m), m)
    decreases |ms| - at
  {
    hide Member;
    hide Exposed;
    if at < |ms| {
      TheMemberThatIsTheMeetIsValid(ms, at + 1, b, m);
      if IsATable(ms[at]) {
        if TheMeetAt(ms, at, m) { TheLeastMemberIsAsked(ms, at, b, m); }
        BelowTheOthersIsValid(ms, at, 0, b, TheMemberThatIsTheMeet(ms, at + 1, b), PromiseOf(Intersection(ms), b, [], m), m);
      }
    }
  }

  lemma MeetBelowIsValid(a: Schema, b: Schema, q: Setting, trail: seq<Goal>, m: Meaning)
    requires Reads(q, m) && a.Intersection?
    ensures Valid(MeetBelow(a, b, q, trail == []), PromiseOf(a, b, trail, m), m)
  {
    hide Truthful;
    hide Satisfied;
    hide FailsUnder;
    hide CanonicalMembers;
    hide KindsPossiblyHeld;
    var to := PromiseOf(a, b, trail, m);
    if PlacedByMembership(a, b) {
      forall v ensures At(a, b, v, m) { APlacementHolds(a, b, v, m); }
    } else if (b.Ref? || exists t <- a.members :: t.Complement?) && KindsPossiblyHeld(a, q) == {} {
      NoKindIsNoValue(a, q, m);
      assert Included(a, b, m);
    } else {
      var last := if trail == [] then TheMemberThatIsTheMeet(a.members, 0, b) else DECLINES;
      if trail == [] { TheMemberThatIsTheMeetIsValid(a.members, 0, b, m); }
      var merged := if b.Union? then BelowAMergedSplit(a, b.members, last, q) else last;
      if b.Union? { BelowAMergedSplitIsValid(a, b, last, q, trail, m); }
      var branches := if b.Union? then BelowAnyBranch(a, b.members, merged) else merged;
      if b.Union? {
        forall t | t in b.members && HoldsUnder(a, t, trail, m) ensures to.holds { HoldsVia(a, t, a, b, trail, m); }
        BelowAnyBranchIsValid(a, b.members, merged, to, m);
      }
      forall t | t in a.members && HoldsUnder(t, b, trail, m) ensures to.holds { HoldsVia(t, b, a, b, trail, m); }
      AnyMemberBelowIsValid(a.members, b, branches, to, m);
    }
  }

  lemma NarrowedMeetBelowIsValid(a: Schema, b: Schema, q: Setting, trail: seq<Goal>, m: Meaning)
    requires Reads(q, m) && a.Intersection?
    ensures Valid(NarrowedMeetBelow(a, b, q), PromiseOf(a, b, trail, m), m)
  {
    hide Truthful;
    hide Member;
    hide NarrowedMeet;
    hide HoldsUnder;
    hide FailsUnder;
    if NarrowedMeet(a.members, q.gate).Some? {
      var narrowed := NarrowedMeet(a.members, q.gate).value;
      TheNarrowedMeetIsTheMeet(a, q, m);
      SameSubject(narrowed, a, b, trail, m);
      AnswersAreValid(PromiseOf(a, b, trail, m), m);
      assert ValidNext(NarrowedMeetBelow(a, b, q), PromiseOf(a, b, trail, m), m);
    }
  }

  lemma TheNarrowedMeetIsTheMeet(a: Schema, q: Setting, m: Meaning)
    requires a.Intersection? && NarrowedMeet(a.members, q.gate).Some?
    ensures SameSet(NarrowedMeet(a.members, q.gate).value, a, m)
    ensures Exposed(NarrowedMeet(a.members, q.gate).value, m.rank) <= Exposed(a, m.rank)
  {
    hide Member;
    hide NarrowedMeet;
    var narrowed := NarrowedMeet(a.members, q.gate).value;
    forall v ensures Member(v, narrowed, m) <==> Member(v, a, m) {
      InConnectives(v, a.members, a, m);
      NarrowedMeetDenotes(a.members, q.gate, v, m);
    }
    NarrowedMeetExposes(a.members, q.gate, m.rank, Exposed(a, m.rank));
  }

  lemma MeetReadWholeIsValid(a: Schema, b: Schema, q: Setting, trail: seq<Goal>, m: Meaning)
    requires Reads(q, m) && !a.Union?
    ensures Valid(MeetReadWhole(a, b, q), PromiseOf(a, b, trail, m), m)
  {
    hide Member;
    hide Exposed;
    hide Truthful;
    var to := PromiseOf(a, b, trail, m);
    var first := if b.Complement? then Beside(a, b.inner, HOLDS, FAILS, DECLINES, q) else DECLINES;
    if b.Complement? {
      ApartIsBelowTheComplement(a, b, trail, m);
      BesideIsValid(a, b.inner, HOLDS, FAILS, DECLINES, q, to, m);
    }
    UnstructuredIsValid(a, b, q, trail, m);
    BelowAReferenceIsValid(a, b, q, trail, m);
    ThreeReadings(first, Unstructured(a, b, q), BelowAReference(a, b, q), to, m);
  }

  lemma ThreeReadings(first: Plan, second: Plan, third: Plan, to: Promise, m: Meaning)
    requires Valid(first, to, m) && Valid(second, to, m) && Valid(third, to, m)
    ensures Valid(OrElse(OrElse(first, second), third), to, m)
  {
    OrElseIsValid(first, second, to, m);
    OrElseIsValid(OrElse(first, second), third, to, m);
  }

  lemma ApartIsBelowTheComplement(a: Schema, b: Schema, trail: seq<Goal>, m: Meaning)
    requires b.Complement?
    ensures Apart(a, b.inner, m) ==> HoldsUnder(a, b, trail, m)
    ensures !Apart(a, b.inner, m) ==> Mismatched(a, b, trail, m)
  {
    hide Exposed;
    if !Apart(a, b.inner, m) {
      var v :| Member(v, a, m) && Member(v, b.inner, m);
      assert !Member(v, b, m);
    }
  }

  // ---- References and refinements.

  /** Unfolding lowers what the goal exposes, so popping it is sound. */
  lemma UnfoldIsValid(p: Plan, trail: seq<Goal>, m: Meaning)
    requires p.Unfold?
    requires p.holds == HOLDS && p.fails == FAILS && p.unknown == DECLINES
    requires Exposure(p.defSub, p.defSup, m) < Exposure(p.sub, p.sup, m)
    requires forall u :: At(p.defSub, p.defSup, u, m) <==> At(p.sub, p.sup, u, m)
    ensures Valid(p, PromiseOf(p.sub, p.sup, trail, m), m)
  {
    hide Member;
    hide Exposed;
    var to, g := PromiseOf(p.sub, p.sup, trail, m), Goal(p.sub, p.sup);
    if HoldsUnder(p.defSub, p.defSup, trail + [g], m) { PoppingHolds(g, p.defSub, p.defSup, trail, m); }
    if FailsUnder(p.defSub, p.defSup, trail + [g], m) { PoppingFails(g, p.defSub, p.defSup, trail, m); }
    AnswersAreValid(to, m);
    assert ValidNext(p, to, m);
  }

  lemma BelowAReferenceIsValid(a: Schema, b: Schema, q: Setting, trail: seq<Goal>, m: Meaning)
    requires Reads(q, m)
    ensures Valid(BelowAReference(a, b, q), PromiseOf(a, b, trail, m), m)
  {
    hide Truthful;
    if b.Ref? && b.definition < |q.defs| {
      assert forall u :: Member(u, b, m) <==> Member(u, q.defs[b.definition], m);
      UnfoldIsValid(BelowAReference(a, b, q), trail, m);
    }
  }

  lemma LeftReducesIsValid(a: Schema, b: Schema, q: Setting, trail: seq<Goal>, m: Meaning)
    requires Reads(q, m)
    ensures Valid(LeftReduces(a, b, q), PromiseOf(a, b, trail, m), m)
  {
    hide Truthful;
    hide HoldsUnder;
    hide Mismatched;
    if a.Ref? && a.definition < |q.defs| {
      assert forall u :: Member(u, a, m) <==> Member(u, q.defs[a.definition], m);
      UnfoldIsValid(LeftReduces(a, b, q), trail, m);
    } else if a.Refine? {
      if HoldsUnder(a.base, b, trail, m) { HoldsVia(a.base, b, a, b, trail, m); }
      AskIsValid(LeftReduces(a, b, q), PromiseOf(a, b, trail, m), m);
    }
  }

  lemma RefinementBelowIsValid(a: Schema, b: Schema, q: Setting, trail: seq<Goal>, m: Meaning)
    requires Reads(q, m) && a.Refine? && b.Refine?
    ensures Valid(RefinementBelow(a, b, q), PromiseOf(a, b, trail, m), m)
  {
    hide HoldsUnder;
    hide Mismatched;
    var entailed := forall c <- b.constraints :: Entailed(c, a.constraints, q.oracle);
    if entailed && HoldsUnder(a.base, b.base, trail, m) {
      forall v | At(a.base, b.base, v, m) ensures At(a, b, v, m) {
        if Member(v, a, m) {
          forall c | c in b.constraints ensures Satisfied(c, v, m) { EntailedIsSatisfied(c, a.constraints, q.oracle, v, m); }
        }
      }
      HoldsVia(a.base, b.base, a, b, trail, m);
    }
    AskIsValid(RefinementBelow(a, b, q), PromiseOf(a, b, trail, m), m);
  }

  // ---- What is left to the shapes, the oracle and the lengths.

  lemma RefutedByShapeIsMismatched(a: Schema, b: Schema, q: Setting, trail: seq<Goal>, m: Meaning)
    requires Reads(q, m) && RefutedByShape(a, b, q) && !a.Union?
    ensures Mismatched(a, b, trail, m)
  {
    hide Member;
    hide Truthful;
    hide ShorterThan;
    hide SpillsPast;
    hide OutsideTheClass;
    hide SpillsAKindInto;
    hide DisjointWith;
    hide TrailTrue;
    hide Spills;
    hide HasValue;
    hide Satisfied;
    if HasValue(a, m) {
      if ShorterThan(a, b) { TheEmptyIsTooShort(a, b, m); }
      else if SpillsPast(a, b, q.oracle) { ARegionPastIsOutside(a, b, q.oracle, m); }
      else if OutsideTheClass(a, b, q.oracle) { AKindIsOutsideTheClass(a, b, q.oracle, m); }
      else if SpillsAKindInto(a, b, q) { ASpilledKindRefutes(a, b, q, m); }
      else { ApartSpills(a, b, q.oracle, m); }
    }
  }

  lemma ApartSpills(a: Schema, b: Schema, o: Oracle, m: Meaning)
    requires Truthful(o, m) && DisjointWith(a, b, o) && HasValue(a, m)
    ensures Spills(a, b, m)
  {
    hide Member;
    hide Truthful;
    DisjointIsApart(a, b, o, m);
    var v :| Member(v, a, m);
    assert !Member(v, b, m);
  }

  /** What a base lacks its refinement lacks. */
  lemma OutsideTheBase(a: Schema, b: Schema, trail: seq<Goal>, m: Meaning)
    requires b.Refine? && FailsUnder(a, b.base, trail, m)
    ensures FailsUnder(a, b, trail, m)
  {
    if TrailTrue(trail, m) {
      var v :| Member(v, a, m) && !Member(v, b.base, m);
      assert !Member(v, b, m);
    }
  }

  lemma UnstructuredIsValid(a: Schema, b: Schema, q: Setting, trail: seq<Goal>, m: Meaning)
    requires Reads(q, m) && !a.Union?
    ensures Valid(Unstructured(a, b, q), PromiseOf(a, b, trail, m), m)
  {
    hide Exposed;
    var to := PromiseOf(a, b, trail, m);
    if RefutedByShape(a, b, q) {
      RefutedByShapeIsMismatched(a, b, q, trail, m);
    } else if q.oracle.leafSubtype(a, b).None? {
      if EmptyBelow(a, b) {
        forall v ensures At(a, b, v, m) { TheEmptyAloneIsBelow(a, b, v, m); }
      } else if TheEmptyRefused(a, b) {
        TheEmptyIsOutside(a, b, m);
      }
      if b.Refine? {
        if FailsUnder(a, b.base, trail, m) { OutsideTheBase(a, b, trail, m); }
        AskIsValid(Unstructured(a, b, q), to, m);
      }
    }
  }
}
