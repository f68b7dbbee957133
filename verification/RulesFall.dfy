/** What the rules ask falls: every goal of a plan is written in the terms of the
    pair's space and is smaller than the pair, but for the pair a definition unfolds
    to, which is asked with the pair itself assumed. */
module RulesFall {
  import opened Verdicts
  import opened Schemas
  import opened SortedLists
  import opened Constructors
  import opened Oracles
  import opened Readings
  import opened KindWalk
  import opened Disjointness
  import opened Tables
  import opened Shapes
  import opened Bounds
  import opened Narrowing
  import opened Rules
  import opened Decision
  import opened Closure

  /** A subject: a small term, or a sorted meet of small terms. */
  predicate Subject(s: Schema, p: Space) {
    Small(s, p) || (s.Intersection? && Sorted(s.members, Precedes) && forall t <- s.members :: Small(t, p))
  }

  predicate Pair(a: Schema, b: Schema, p: Space) { Subject(a, p) && Small(b, p) }

  /** What each term's emptiness reads as, whatever reads it. */
  type Reader = Schema -> Verdict

  /** What a plan's goals are to fall below: the pair's size, the branches of the
      product being split, the pair itself, and what the readings answer. */
  datatype Frame = Frame(space: Space, size: nat, branches: nat, goal: Goal, read: Reader)

  function FrameOf(a: Schema, b: Schema, p: Space, read: Reader): Frame { Frame(p, Size(a) + Size(b), Size(b) + 1, Goal(a, b), read) }

  predicate Below(a: Schema, b: Schema, f: Frame) { Pair(a, b, f.space) && Size(a) + Size(b) < f.size }

  /** The sizes the branches have at one position, each with its complement. */
  function SizesAt(bs: seq<seq<Schema>>, at: nat): nat
    requires forall branch <- bs :: at < |branch|
  {
    if bs == [] then 0 else Size(bs[0][at]) + 2 + SizesAt(bs[1..], at)
  }

  /** Whatever the branches take from a component, it stays below the bound. */
  predicate PositionFits(split: Split, at: nat, p: Space, size: nat)
    requires at < |split.components|
  {
    && Subject(split.components[at], p)
    && Size(split.components[at]) + SizesAt(split.branches, at) < size
    && forall branch <- split.branches :: Small(branch[at], p) && Size(branch[at]) < p.most
  }

  predicate SplitFits(split: Split, p: Space, size: nat) {
    forall at | 0 <= at < |split.components| :: PositionFits(split, at, p, size)
  }

  /** Every goal the plan asks falls, its readings answered as they are read. */
  predicate Falls(plan: Plan, f: Frame)
    decreases plan
  {
    match plan
    case Answer(_) => true
    case Ask(a, b, h, n, u) => Below(a, b, f) && Falls(h, f) && Falls(n, f) && Falls(u, f)
    case Unfold(a, b, c, d, h, n, u) => Goal(a, b) == f.goal && Pair(c, d, f.space) && Falls(h, f) && Falls(n, f) && Falls(u, f)
    case Narrowed(a, b, h, n, u) => Below(a, b, f) && Falls(h, f) && Falls(n, f) && Falls(u, f)
    case Product(split, _, h, n, u) =>
      |split.branches| < f.branches && SplitFits(split, f.space, f.size) && Falls(h, f) && Falls(n, f) && Falls(u, f)
    case Empties(t, _, _, _) => Falls(NextRead(plan, f.read(t)), f)
    case Spent(_, no) => Falls(no, f)
  }

  lemma {:induction false} OrElseFalls(plan: Plan, second: Plan, q: Setting, f: Frame)
    requires Falls(plan, f) && Falls(second, f)
    ensures Falls(OrElse(plan, second), f)
  {
    hide Below, Pair, SplitFits;
    match plan
    case Answer(_) =>
    case Empties(t, _, _, _) =>
      OrElseFalls(NextRead(plan, f.read(t)), second, q, f);
      assert NextRead(OrElse(plan, second), f.read(t)) == OrElse(NextRead(plan, f.read(t)), second);
    case Spent(_, no) => OrElseFalls(no, second, q, f);
    case _ =>
      OrElseFalls(plan.holds, second, q, f);
      OrElseFalls(plan.fails, second, q, f);
      OrElseFalls(plan.unknown, second, q, f);
  }

  /** The two are told apart, or their meet reads as empty. */
  predicate ReadApart(a: Schema, b: Schema, q: Setting, read: Reader) {
    DisjointWith(a, b, q.oracle) || read(MeetWithin([a, b], q.gate, true)).Empty?
  }

  lemma BesideFalls(a: Schema, b: Schema, empty: Plan, inhabited: Plan, undecided: Plan, q: Setting, f: Frame)
    requires ReadApart(a, b, q, f.read) ==> Falls(empty, f)
    requires !ReadApart(a, b, q, f.read) ==> Falls(inhabited, f) && Falls(undecided, f)
    ensures Falls(Beside(a, b, empty, inhabited, undecided, q), f)
  {
    hide DisjointWith, MeetWithin;
  }

  // ---- Members and their sizes.

  lemma AMemberIsASubject(s: Schema, t: Schema, p: Space)
    requires Subject(s, p) && (s.Union? || s.Intersection?) && t in s.members
    ensures Small(t, p) && Size(t) < Size(s)
  {
    hide Within;
    AMembersSize(s.members, t);
    if Small(s, p) { SmallMembers(s, t, p); }
  }

  lemma PartsAreSmall(s: Schema, p: Space)
    requires Small(s, p)
    ensures s.Complement? ==> Small(s.inner, p)
    ensures s.Refine? ==> Small(s.base, p)
    ensures s.Coll? ==> Small(s.element, p)
  {
  }

  // ---- A union, a meet, and their members.

  lemma {:induction false} EachBelowFalls(ms: seq<Schema>, b: Schema, declined: bool, q: Setting, f: Frame)
    requires forall t <- ms :: Below(t, b, f)
    ensures Falls(EachBelow(ms, b, declined), f)
  {
    hide Below;
    if ms != [] {
      assert ms[0] in ms;
      EachBelowFalls(ms[1..], b, declined, q, f);
      EachBelowFalls(ms[1..], b, true, q, f);
    }
  }

  lemma {:induction false} BelowEachFalls(a: Schema, ms: seq<Schema>, declined: bool, q: Setting, f: Frame)
    requires forall t <- ms :: Below(a, t, f)
    ensures Falls(BelowEach(a, ms, declined), f)
  {
    hide Below;
    if ms != [] {
      assert ms[0] in ms;
      BelowEachFalls(a, ms[1..], declined, q, f);
      BelowEachFalls(a, ms[1..], true, q, f);
    }
  }

  lemma {:induction false} AnyMemberBelowFalls(ms: seq<Schema>, b: Schema, otherwise: Plan, q: Setting, f: Frame)
    requires Falls(otherwise, f) && forall t <- ms :: Below(t, b, f)
    ensures Falls(AnyMemberBelow(ms, b, otherwise), f)
  {
    hide Below;
    if ms != [] {
      assert ms[0] in ms;
      AnyMemberBelowFalls(ms[1..], b, otherwise, q, f);
    }
  }

  lemma {:induction false} BelowAnyBranchFalls(a: Schema, ms: seq<Schema>, otherwise: Plan, q: Setting, f: Frame)
    requires Falls(otherwise, f) && forall t <- ms :: Below(a, t, f)
    ensures Falls(BelowAnyBranch(a, ms, otherwise), f)
  {
    hide Below;
    if ms != [] {
      assert ms[0] in ms;
      BelowAnyBranchFalls(a, ms[1..], otherwise, q, f);
    }
  }

  lemma BelowAMergedSplitFalls(a: Schema, b: Schema, otherwise: Plan, q: Setting, p: Space, read: Reader)
    requires Pair(a, b, p) && b.Union? && Falls(otherwise, FrameOf(a, b, p, read))
    ensures Falls(BelowAMergedSplit(a, b.members, otherwise, q), FrameOf(a, b, p, read))
  {
    hide MergedFrom, TwoMeets, Subject, Size, Within;
    AListIsWithin(b.members, p.alphabet);
    AMergedSplitIsSmaller(b.members, 0, q.gate, p.alphabet);
  }

  lemma {:induction false} TheMemberThatIsTheMeetFalls(ms: seq<Schema>, at: nat, b: Schema, q: Setting, f: Frame)
    requires at <= |ms| && (forall t <- ms :: Below(t, b, f)) && SizeOfAll(ms) < f.size && forall t <- ms :: Small(t, f.space)
    ensures Falls(TheMemberThatIsTheMeet(ms, at, b), f)
    decreases |ms| - at
  {
    hide Below, IsATable;
    if at < |ms| {
      TheMemberThatIsTheMeetFalls(ms, at + 1, b, q, f);
      BelowTheOthersFalls(ms, at, 0, b, TheMemberThatIsTheMeet(ms, at + 1, b), q, f);
    }
  }

  lemma {:induction false} BelowTheOthersFalls(ms: seq<Schema>, at: nat, other: nat, b: Schema, otherwise: Plan, q: Setting, f: Frame)
    requires at < |ms| && other <= |ms| && Falls(otherwise, f)
    requires (forall t <- ms :: Below(t, b, f)) && SizeOfAll(ms) < f.size && forall t <- ms :: Small(t, f.space)
    ensures Falls(BelowTheOthers(ms, at, other, b, otherwise), f)
    decreases |ms| - other
  {
    hide Size;
    hide Small, SplitFits, NextRead;
    assert ms[at] in ms;
    if other < |ms| {
      BelowTheOthersFalls(ms, at, other + 1, b, otherwise, q, f);
      assert ms[other] in ms;
      if other != at { TwoMembersSize(ms, at, other); }
    }
  }

  lemma TwoMembersSize(ms: seq<Schema>, at: nat, other: nat)
    requires at < |ms| && other < |ms| && at != other
    ensures Size(ms[at]) + Size(ms[other]) <= SizeOfAll(ms)
  {
    hide OtherThan;
    OtherThanTwo(ms, at, other);
  }

  lemma MeetBelowFalls(a: Schema, b: Schema, q: Setting, alone: bool, p: Space, read: Reader)
    requires Pair(a, b, p) && a.Intersection?
    ensures Falls(MeetBelow(a, b, q, alone), FrameOf(a, b, p, read))
  {
    hide Small, AnyMemberBelow, BelowAnyBranch, TheMemberThatIsTheMeet, BelowAMergedSplit, PlacedByMembership, KindsPossiblyHeld, Sorted;
    var f := FrameOf(a, b, p, read);
    forall t | t in a.members ensures Below(t, b, f) && Small(t, p) { AMemberIsASubject(a, t, p); }
    TheMemberThatIsTheMeetFalls(a.members, 0, b, q, f);
    var last := if alone then TheMemberThatIsTheMeet(a.members, 0, b) else DECLINES;
    if b.Union? {
      BelowAMergedSplitFalls(a, b, last, q, p, read);
      forall t | t in b.members ensures Below(a, t, f) { AMemberIsASubject(b, t, p); }
      BelowAnyBranchFalls(a, b.members, BelowAMergedSplit(a, b.members, last, q), q, f);
      AnyMemberBelowFalls(a.members, b, BelowAnyBranch(a, b.members, BelowAMergedSplit(a, b.members, last, q)), q, f);
    } else {
      AnyMemberBelowFalls(a.members, b, last, q, f);
    }
  }

  lemma NarrowedMeetBelowFalls(a: Schema, b: Schema, q: Setting, p: Space, read: Reader)
    requires Pair(a, b, p) && a.Intersection? && p.most > 0
    ensures Falls(NarrowedMeetBelow(a, b, q), FrameOf(a, b, p, read))
  {
    hide Small, NarrowedMeet, Size, Sorted;
    if NarrowedMeet(a.members, q.gate).Some? {
      forall t | t in a.members ensures Small(t, p) { AMemberIsASubject(a, t, p); }
      ANarrowedMeetIsSmaller(a.members, q.gate, p);
      ANarrowedMeetIsReached(a.members, q.gate, p);
      assert a == Intersection(a.members);
    }
  }

  // ---- References, refinements and pairs with no rule of their own.

  lemma BelowAReferenceFalls(a: Schema, b: Schema, q: Setting, p: Space, read: Reader)
    requires Pair(a, b, p) && SmallDefinitions(q, p)
    ensures Falls(BelowAReference(a, b, q), FrameOf(a, b, p, read))
  {
    hide Small;
  }

  lemma LeftReducesFalls(a: Schema, b: Schema, q: Setting, p: Space, read: Reader)
    requires Pair(a, b, p) && SmallDefinitions(q, p)
    ensures Falls(LeftReduces(a, b, q), FrameOf(a, b, p, read))
  {
    if a.Refine? { PartsAreSmall(a, p); }
  }

  lemma RefinementBelowFalls(a: Schema, b: Schema, q: Setting, p: Space, read: Reader)
    requires Pair(a, b, p) && a.Refine? && b.Refine?
    ensures Falls(RefinementBelow(a, b, q), FrameOf(a, b, p, read))
  {
    hide Entailed;
    PartsAreSmall(a, p);
    PartsAreSmall(b, p);
  }

  lemma UnstructuredFalls(a: Schema, b: Schema, q: Setting, p: Space, read: Reader)
    requires Pair(a, b, p)
    ensures Falls(Unstructured(a, b, q), FrameOf(a, b, p, read))
  {
    hide RefutedByShape, EmptyBelow, TheEmptyRefused, Subject;
    PartsAreSmall(b, p);
  }

  // ---- A union narrowed to the branches the subject can meet.

  lemma BelowKeptFalls(a: Schema, b: Schema, kept: seq<Schema>, q: Setting, p: Space, read: Reader)
    requires Pair(a, b, p) && b.Union? && (forall t <- kept :: t in b.members) && SizeOfAll(kept) < SizeOfAll(b.members)
    ensures Falls(BelowKept(a, kept), FrameOf(a, b, p, read))
  {
    hide Subject, Within, SizeOfAll;
    AListIsWithin(b.members, p.alphabet);
    AListIsWithin(kept, p.alphabet);
    if kept != [] {
      assert kept[0] in kept;
      AMembersSize(kept, kept[0]);
      assert Small(kept[0], p) && Small(Union(kept), p);
    }
  }

  lemma {:induction false} KeptCheaplyAreFewer(a: Schema, ms: seq<Schema>, o: Oracle)
    ensures SizeOfAll(KeptCheaply(a, ms, o)) <= SizeOfAll(ms)
    ensures (exists t <- ms :: DisjointWith(a, t, o)) ==> SizeOfAll(KeptCheaply(a, ms, o)) < SizeOfAll(ms)
  {
    hide DisjointWith, Size;
    if ms != [] {
      KeptCheaplyAreFewer(a, ms[1..], o);
      var first := if DisjointWith(a, ms[0], o) then [] else [ms[0]];
      SizesAdd(first, KeptCheaply(a, ms[1..], o));
      assert [ms[0]][1..] == [];
      if t :| t in ms && DisjointWith(a, t, o) { assert t == ms[0] || t in ms[1..]; }
    }
  }

  lemma MetCheaplyFalls(a: Schema, b: Schema, q: Setting, p: Space, read: Reader)
    requires Pair(a, b, p) && b.Union?
    ensures Falls(MetCheaply(a, b.members, q), FrameOf(a, b, p, read))
  {
    hide DisjointWith, KeptCheaply, BelowKept, Pair, Size;
    KeptCheaplyAreFewer(a, b.members, q.oracle);
    if exists t <- b.members :: DisjointWith(a, t, q.oracle) { BelowKeptFalls(a, b, KeptCheaply(a, b.members, q.oracle), q, p, read); }
  }

  /** A branch that reads apart is dropped again when the branches are read again. */
  lemma {:induction false} KeptFullyFalls(a: Schema, b: Schema, ms: seq<Schema>, kept: seq<Schema>, q: Setting, p: Space, read: Reader)
    requires Pair(a, b, p) && b.Union? && (forall t <- ms :: t in b.members) && (forall t <- kept :: t in b.members)
    requires SizeOfAll(kept) + SizeOfAll(ms) <= SizeOfAll(b.members)
    requires SizeOfAll(kept) + SizeOfAll(ms) < SizeOfAll(b.members) || exists t <- ms :: ReadApart(a, t, q, read)
    ensures Falls(KeptFully(a, ms, kept, q), FrameOf(a, b, p, read))
    decreases |ms|
  {
    hide ReadApart, BelowKept, Pair, Size, Beside;
    if ms == [] {
      BelowKeptFalls(a, b, kept, q, p, read);
    } else {
      SizesAdd(kept, [ms[0]]);
      assert [ms[0]][1..] == [];
      var gone := KeptFully(a, ms[1..], kept, q);
      var stays := KeptFully(a, ms[1..], kept + [ms[0]], q);
      if ReadApart(a, ms[0], q, read) {
        KeptFullyFalls(a, b, ms[1..], kept, q, p, read);
      } else {
        if t :| t in ms && ReadApart(a, t, q, read) { assert t in ms[1..]; }
        KeptFullyFalls(a, b, ms[1..], kept + [ms[0]], q, p, read);
      }
      BesideFalls(a, ms[0], gone, stays, stays, q, FrameOf(a, b, p, read));
    }
  }

  lemma {:induction false} SomeApartFalls(a: Schema, b: Schema, ms: seq<Schema>, q: Setting, p: Space, read: Reader)
    requires Pair(a, b, p) && b.Union? && forall t <- ms :: t in b.members
    ensures Falls(SomeApart(a, ms, b.members, q), FrameOf(a, b, p, read))
  {
    hide ReadApart, KeptFully, Pair, Size, Beside;
    if ms != [] {
      assert ms[0] in ms;
      SomeApartFalls(a, b, ms[1..], q, p, read);
      if ReadApart(a, ms[0], q, read) { KeptFullyFalls(a, b, b.members, [], q, p, read); }
      var next := SomeApart(a, ms[1..], b.members, q);
      BesideFalls(a, ms[0], KeptFully(a, b.members, [], q), next, next, q, FrameOf(a, b, p, read));
    }
  }

  // ---- A product.

  lemma {:induction false} ArityBranchesFit(k: SeqKind, arity: nat, ms: seq<Schema>, at: nat, p: Space)
    requires at < arity && forall t <- ms :: Small(t, p)
    ensures SizesAt(ArityBranches(k, arity, ms), at) <= SizeOfAll(ms)
    ensures forall branch <- ArityBranches(k, arity, ms) :: Small(branch[at], p) && Size(branch[at]) < p.most
  {
    hide Within;
    if ms != [] {
      assert ms[0] in ms;
      ArityBranchesFit(k, arity, ms[1..], at, p);
      var rest := ArityBranches(k, arity, ms[1..]);
      if ms[0].Seq? && ms[0].container == k && ms[0].tail.None? && |ms[0].prefix| == arity {
        assert ArityBranches(k, arity, ms) == [ms[0].prefix] + rest && ([ms[0].prefix] + rest)[1..] == rest;
        AnElementIsSmaller(ms[0], at, p);
      } else {
        assert ArityBranches(k, arity, ms) == rest;
      }
    }
  }

  lemma AnElementIsSmaller(s: Schema, at: nat, p: Space)
    requires Small(s, p) && s.Seq? && at < |s.prefix|
    ensures Small(s.prefix[at], p) && Size(s.prefix[at]) + 2 <= Size(s)
  {
    assert s.prefix[at] in s.prefix;
    ElementsAreSmall(s, p);
    AMembersSize(s.prefix, s.prefix[at]);
  }

  lemma AComponentFits(a: Schema, b: Schema, at: nat, p: Space)
    requires Pair(a, b, p) && a.Seq? && b.Union? && at < |a.prefix|
    ensures PositionFits(Products(a.prefix, ArityBranches(a.container, |a.prefix|, b.members)), at, p, Size(a) + Size(b))
  {
    hide ArityBranches, Within;
    forall t | t in b.members ensures Small(t, p) { AMemberIsASubject(b, t, p); }
    ArityBranchesFit(a.container, |a.prefix|, b.members, at, p);
    AnElementIsSmaller(a, at, p);
  }

  lemma SplitsAcrossFalls(a: Schema, b: Schema, q: Setting, p: Space, read: Reader)
    requires Pair(a, b, p) && a.Seq? && b.Union?
    ensures Falls(SplitsAcross(a, b.members, q), FrameOf(a, b, p, read))
  {
    hide ArityBranches, SetAsideHoldNone, PositionFits, Pair;
    if a.tail.None? {
      var split := Products(a.prefix, ArityBranches(a.container, |a.prefix|, b.members));
      var size := Size(a) + Size(b);
      forall at | 0 <= at < |split.components| ensures PositionFits(split, at, p, size) { AComponentFits(a, b, at, p); }
      NoMoreBranches(a.container, |a.prefix|, b.members);
    }
  }

  lemma {:induction false} NoMoreBranches(k: SeqKind, arity: nat, ms: seq<Schema>)
    ensures |ArityBranches(k, arity, ms)| <= SizeOfAll(ms)
  {
    if ms != [] { NoMoreBranches(k, arity, ms[1..]); }
  }

  /** One branch taken from a component leaves it within the bound the rest keep. */
  lemma NarrowedFits(cs: seq<Schema>, branch: seq<Schema>, at: nat, rest: seq<seq<Schema>>, gate: Gate, p: Space, size: nat)
    requires at < |cs| == |branch| && p.most > 0 && forall other <- [branch] + rest :: |other| == |cs|
    requires SplitFits(Products(cs, [branch] + rest), p, size)
    ensures SplitFits(Products(NarrowedAt(cs, branch, at, gate), rest), p, size)
  {
    hide MeetWithin, Subject, Small, Complemented, Size;
    var before, after := Products(cs, [branch] + rest), Products(NarrowedAt(cs, branch, at, gate), rest);
    forall i | 0 <= i < |cs| ensures PositionFits(after, i, p, size) {
      assert PositionFits(before, i, p, size);
      assert ([branch] + rest)[0] == branch && ([branch] + rest)[1..] == rest;
      assert forall other <- rest :: other in [branch] + rest;
      if i == at {
        assert branch in [branch] + rest;
        ANarrowedComponentFits(cs[at], branch[at], gate, p);
      }
    }
  }

  lemma ANarrowedComponentFits(c: Schema, b: Schema, gate: Gate, p: Space)
    requires Subject(c, p) && Small(b, p) && Size(b) < p.most
    ensures Subject(MeetWithin([c, Complemented(b)], gate, false), p)
    ensures Size(MeetWithin([c, Complemented(b)], gate, false)) <= Size(c) + Size(b) + 2
  {
    hide MeetWithin, Complemented, Size, Within;
    var ms := [c, Complemented(b)];
    AComplementIsNoLarger(b, p.alphabet);
    MeetStays(ms, gate, false, p.alphabet);
    SizesAdd([c], [Complemented(b)]);
    assert [c] + [Complemented(b)] == ms;
    OneOnTheList(c);
    OneOnTheList(Complemented(b));
    AMeetIsReached(ms, gate, false, p);
  }

  lemma {:induction false} ApartPlanFalls(cs: seq<Schema>, branch: seq<Schema>, at: nat, dropped: Plan, kept: Plan, q: Setting, f: Frame)
    requires at <= |cs| == |branch| && Falls(dropped, f) && Falls(kept, f)
    ensures Falls(ApartPlan(cs, branch, at, dropped, kept, q), f)
    decreases |cs| - at
  {
    hide Beside, ReadApart;
    if at < |cs| {
      ApartPlanFalls(cs, branch, at + 1, dropped, kept, q, f);
      var next := ApartPlan(cs, branch, at + 1, dropped, kept, q);
      BesideFalls(cs[at], branch[at], dropped, next, next, q, f);
    }
  }

  lemma {:induction false} PositionsPlanFalls(cs: seq<Schema>, branch: seq<Schema>, at: nat, rest: seq<seq<Schema>>, q: Setting, f: Frame)
    requires at <= |cs| == |branch| && f.space.most > 0 && forall other <- [branch] + rest :: |other| == |cs|
    requires (forall other <- rest :: |other| == |cs|) && SplitFits(Products(cs, [branch] + rest), f.space, f.size) && |rest| < f.branches
    ensures Falls(PositionsPlan(cs, branch, at, rest, q), f)
    decreases |cs| - at
  {
    hide NextRead, Complemented;
    hide MeetWithin, Subject, Small, Size;
    if at < |cs| {
      PositionsPlanFalls(cs, branch, at + 1, rest, q, f);
      NarrowedFits(cs, branch, at, rest, q.gate, f.space, f.size);
      assert PositionFits(Products(cs, [branch] + rest), at, f.space, f.size);
      assert ([branch] + rest)[0] == branch && ([branch] + rest)[1..] == rest && branch in [branch] + rest;
      var next, narrowed := PositionsPlan(cs, branch, at + 1, rest, q), Products(NarrowedAt(cs, branch, at, q.gate), rest);
      assert Falls(FAILS, f) && Falls(DECLINES, f);
      assert Falls(Product(narrowed, true, next, FAILS, DECLINES), f) && Falls(Product(narrowed, true, next, DECLINES, DECLINES), f);
      assert Below(cs[at], branch[at], f);
    }
  }

  lemma {:induction false} BranchPlanFalls(cs: seq<Schema>, bs: seq<seq<Schema>>, held: bool, q: Setting, f: Frame)
    requires (forall branch <- bs :: |branch| == |cs|) && f.space.most > 0
    requires SplitFits(Products(cs, bs), f.space, f.size) && |bs| <= f.branches
    ensures Falls(BranchPlan(cs, bs, held, q), f)
  {
    hide ApartPlan, PositionsPlan, PositionFits;
    if bs != [] {
      assert [bs[0]] + bs[1..] == bs;
      FewerBranchesFit(cs, bs, f.space, f.size);
      BranchPlanFalls(cs, bs[1..], held, q, f);
      PositionsPlanFalls(cs, bs[0], 0, bs[1..], q, f);
      ApartPlanFalls(cs, bs[0], 0, BranchPlan(cs, bs[1..], held, q), PositionsPlan(cs, bs[0], 0, bs[1..], q), q, f);
    }
  }

  lemma FewerBranchesFit(cs: seq<Schema>, bs: seq<seq<Schema>>, p: Space, size: nat)
    requires bs != [] && (forall branch <- bs :: |branch| == |cs|) && SplitFits(Products(cs, bs), p, size)
    ensures SplitFits(Products(cs, bs[1..]), p, size)
  {
    hide Subject, Small, Size;
    forall at | 0 <= at < |cs| ensures PositionFits(Products(cs, bs[1..]), at, p, size) { assert PositionFits(Products(cs, bs), at, p, size); }
  }

  lemma {:induction false} ComponentsPlanFalls(cs: seq<Schema>, at: nat, empty: bool, held: bool, bs: seq<seq<Schema>>, q: Setting, f: Frame)
    requires at <= |cs| && (forall branch <- bs :: |branch| == |cs|) && f.space.most > 0
    requires SplitFits(Products(cs, bs), f.space, f.size) && |bs| <= f.branches
    ensures Falls(ComponentsPlan(cs, at, empty, held, bs, q), f)
    decreases |cs| - at
  {
    hide BranchPlan, SplitFits;
    if at == |cs| {
      BranchPlanFalls(cs, bs, held, q, f);
    } else {
      ComponentsPlanFalls(cs, at + 1, true, held, bs, q, f);
      ComponentsPlanFalls(cs, at + 1, empty, held, bs, q, f);
      ComponentsPlanFalls(cs, at + 1, empty, false, bs, q, f);
    }
  }

  /** A product's own products split fewer branches. */
  lemma AProductFalls(split: Split, q: Setting, f: Frame)
    requires f.space.most > 0 && SplitFits(split, f.space, f.size) && |split.branches| <= f.branches
    ensures Falls(ProductPlan(split, q), f)
  {
    hide SplitFits;
    ComponentsPlanFalls(split.components, 0, false, true, split.branches, q, f);
  }

  // ---- Sequences, position by position.

  lemma {:induction false} AlignsFalls(pa: seq<Schema>, b: Schema, at: nat, declined: bool, last: Option<Last>, all: Plan, some: Plan, q: Setting, f: Frame)
    requires at <= |pa| && b.Seq? && Falls(all, f) && Falls(some, f)
    requires forall t, u | t in pa && (u in b.prefix || b.tail == Some(u)) :: Below(t, u, f)
    ensures Falls(Aligns(pa, b, at, declined, last, all, some), f)
    decreases |pa| - at
  {
    hide SplitFits, Pair, NextRead;
    hide Below;
    assert Falls(FAILS, f);
    if at < |pa| && !(at >= |b.prefix| && b.tail.None?) {
      var expected := if at < |b.prefix| then b.prefix[at] else b.tail.value;
      assert pa[at] in pa && (expected in b.prefix || b.tail == Some(expected));
      AlignsFalls(pa, b, at + 1, declined, last, all, some, q, f);
      AlignsFalls(pa, b, at + 1, true, last, all, some, q, f);
      AlignsFalls(pa, b, at + 1, declined, Some(Last(pa[at], expected, Relation.Holds)), all, some, q, f);
      AlignsFalls(pa, b, at + 1, true, Some(Last(pa[at], expected, Relation.Unknown)), all, some, q, f);
    }
  }

  lemma PartsOfASequence(s: Schema, t: Schema, p: Space)
    requires Small(s, p) && s.Seq? && (t in s.prefix || s.tail == Some(t))
    ensures Small(t, p) && Size(t) < Size(s)
  {
    ElementsAreSmall(s, p);
    if t in s.prefix { AMembersSize(s.prefix, t); }
  }

  lemma LinearReadFalls(a: Schema, b: Schema, repeats: Verdict, q: Setting, p: Space, read: Reader)
    requires Pair(a, b, p) && a.Seq? && b.Seq? && (a.tail.None? ==> repeats.Empty?)
    ensures Falls(LinearRead(a, b, repeats), FrameOf(a, b, p, read))
  {
    hide Small, Size, Aligns;
    var f := FrameOf(a, b, p, read);
    forall t, u | (t in a.prefix || a.tail == Some(t)) && (u in b.prefix || b.tail == Some(u)) ensures Below(t, u, f) {
      PartsOfASequence(a, t, p);
      PartsOfASequence(b, u, p);
    }
    assert Falls(HOLDS, f) && Falls(FAILS, f) && Falls(DECLINES, f);
    AlignsFalls(a.prefix, b, 0, false, None, HOLDS, DECLINES, q, f);
    if a.tail.Some? && b.tail.Some? {
      assert Falls(Just(a.tail.value, b.tail.value), f);
      assert Falls(Ask(a.tail.value, b.tail.value, DECLINES, FAILS, DECLINES), f);
      AlignsFalls(a.prefix, b, 0, false, None, Just(a.tail.value, b.tail.value), Ask(a.tail.value, b.tail.value, DECLINES, FAILS, DECLINES), q, f);
    }
  }

  lemma LinearBelowFalls(a: Schema, b: Schema, q: Setting, p: Space, read: Reader)
    requires Pair(a, b, p) && a.Seq? && b.Seq?
    ensures Falls(LinearBelow(a, b), FrameOf(a, b, p, read))
  {
    hide LinearRead, Pair, Size;
    LinearReadFalls(a, b, Verdict.Empty, q, p, read);
    if a.tail.Some? {
      LinearReadFalls(a, b, Verdict.Inhabited, q, p, read);
      LinearReadFalls(a, b, Verdict.Unknown, q, p, read);
    }
  }

  // ---- A complement, a union, and the match on the two shapes.

  lemma BelowAComplementFalls(a: Schema, b: Schema, q: Setting, p: Space, read: Reader)
    requires Pair(a, b, p) && b.Complement?
    ensures Falls(BelowAComplement(a, b, q), FrameOf(a, b, p, read))
  {
    hide Beside, ReadApart, Subject;
    var f, declined := FrameOf(a, b, p, read), BelowAComplementDeclined(a, b, q);
    PartsAreSmall(b, p);
    assert Falls(HOLDS, f) && Falls(FAILS, f) && Falls(DECLINES, f) && Falls(declined, f);
    assert Falls(Empties(a, HOLDS, FAILS, DECLINES), f);
    BesideFalls(a, b.inner, HOLDS, FAILS, Ask(a, b.inner, Empties(a, HOLDS, FAILS, DECLINES), declined, declined), q, f);
  }

  lemma PastTheBranchesFalls(a: Schema, b: Schema, refuted: bool, q: Setting, p: Space, read: Reader)
    requires Pair(a, b, p) && b.Union? && SmallDefinitions(q, p)
    ensures Falls(PastTheBranches(a, b, refuted, q), FrameOf(a, b, p, read))
  {
    hide Pair, SomeApart, MetCheaply, LeftReduces, SplitsAcross, BelowAMergedSplit, OrElse, FrameOf;
    var f := FrameOf(a, b, p, read);
    LeftReducesFalls(a, b, q, p, read);
    MetCheaplyFalls(a, b, q, p, read);
    SomeApartFalls(a, b, b.members, q, p, read);
    assert Falls(HOLDS, f) && Falls(DECLINES, f);
    var reduced, cheap, full := Reduced(a, b, q), MetCheaply(a, b.members, q), MetFully(a, b.members, q);
    assert Falls(reduced, f);
    OrElseFalls(cheap, full, q, f);
    OrElseFalls(OrElse(cheap, full), reduced, q, f);
    var narrowed := if refuted then OrElse(OrElse(cheap, full), reduced) else reduced;
    if a.Seq? { SplitsAcrossFalls(a, b, q, p, read); }
    var split := if a.Seq? then SplitsAcross(a, b.members, q) else DECLINES;
    OrElseFalls(split, narrowed, q, f);
    BelowAMergedSplitFalls(a, b, OrElse(split, narrowed), q, p, read);
  }

  lemma {:induction false} EachBranchFalls(a: Schema, ms: seq<Schema>, refuted: bool, b: Schema, q: Setting, p: Space, read: Reader)
    requires Pair(a, b, p) && b.Union? && SmallDefinitions(q, p) && forall t <- ms :: t in b.members
    ensures Falls(EachBranch(a, ms, refuted, b, q), FrameOf(a, b, p, read))
  {
    hide PastTheBranches, Small, Subject;
    if ms == [] {
      PastTheBranchesFalls(a, b, refuted, q, p, read);
    } else {
      assert ms[0] in ms && Subject(b, p) by { ASmallTermIsASubject(b, p); }
      AMemberIsASubject(b, ms[0], p);
      EachBranchFalls(a, ms[1..], true, b, q, p, read);
      EachBranchFalls(a, ms[1..], refuted, b, q, p, read);
    }
  }

  lemma ASmallTermIsASubject(s: Schema, p: Space)
    requires Small(s, p)
    ensures Subject(s, p)
  {
  }

  lemma MeetReadWholeFalls(a: Schema, b: Schema, q: Setting, p: Space, read: Reader)
    requires Pair(a, b, p) && SmallDefinitions(q, p)
    ensures Falls(MeetReadWhole(a, b, q), FrameOf(a, b, p, read))
  {
    hide Pair, Beside, ReadApart, Unstructured, BelowAReference, OrElse, FrameOf;
    var f := FrameOf(a, b, p, read);
    assert Falls(HOLDS, f) && Falls(FAILS, f) && Falls(DECLINES, f);
    if b.Complement? { BesideFalls(a, b.inner, HOLDS, FAILS, DECLINES, q, f); }
    UnstructuredFalls(a, b, q, p, read);
    BelowAReferenceFalls(a, b, q, p, read);
    var beside := if b.Complement? then Beside(a, b.inner, HOLDS, FAILS, DECLINES, q) else DECLINES;
    OrElseFalls(beside, Unstructured(a, b, q), q, f);
    OrElseFalls(OrElse(beside, Unstructured(a, b, q)), BelowAReference(a, b, q), q, f);
  }

  lemma ByShapeOfAMeetFalls(a: Schema, b: Schema, q: Setting, alone: bool, p: Space, read: Reader)
    requires Pair(a, b, p) && SmallDefinitions(q, p) && a.Intersection?
    ensures Falls(ByShapeOfAMeet(a, b, q, alone), FrameOf(a, b, p, read))
  {
    hide Pair, MeetBelow, MeetReadWhole, NarrowedMeetBelow, OrElse, FrameOf, TheTablesBelow;
    var f, tables := FrameOf(a, b, p, read), Answer(TheTablesBelow(a.members, b, q.oracle));
    MeetBelowFalls(a, b, q, alone, p, read);
    MeetReadWholeFalls(a, b, q, p, read);
    NarrowedMeetBelowFalls(a, b, q, p, read);
    OrElseFalls(MeetBelow(a, b, q, alone), tables, q, f);
    OrElseFalls(OrElse(MeetBelow(a, b, q, alone), tables), MeetReadWhole(a, b, q), q, f);
    OrElseFalls(OrElse(OrElse(MeetBelow(a, b, q, alone), tables), MeetReadWhole(a, b, q)), NarrowedMeetBelow(a, b, q), q, f);
  }

  /** The rules that read a member list whole. */
  lemma ByMembersFalls(a: Schema, b: Schema, q: Setting, p: Space, read: Reader)
    requires Pair(a, b, p) && SmallDefinitions(q, p)
    ensures a.Union? ==> Falls(UnionBelow(a, b, q), FrameOf(a, b, p, read))
    ensures b.Intersection? ==> Falls(BelowEach(a, b.members, false), FrameOf(a, b, p, read))
    ensures b.Union? ==> Falls(BelowAUnion(a, b, q), FrameOf(a, b, p, read))
  {
    hide Small, Size, EachBelow, BelowEach, EachBranch, TablesDisjoint, Sorted;
    var f := FrameOf(a, b, p, read);
    if a.Union? {
      forall t | t in a.members ensures Below(t, b, f) { AMemberIsASubject(a, t, p); }
      EachBelowFalls(a.members, b, false, q, f);
    }
    if b.Intersection? {
      forall t | t in b.members ensures Below(a, t, f) { AMemberIsASubject(b, t, p); }
      BelowEachFalls(a, b.members, false, q, f);
    }
    if b.Union? { EachBranchFalls(a, b.members, false, b, q, p, read); }
  }

  lemma ByShapeFalls(a: Schema, b: Schema, q: Setting, alone: bool, p: Space, read: Reader)
    requires Pair(a, b, p) && SmallDefinitions(q, p)
    ensures Falls(ByShape(a, b, q, alone), FrameOf(a, b, p, read))
  {
    hide SplitFits, NextRead;
    hide UnionBelow, BelowEach, ByShapeOfAMeet, BelowAUnion, SpillsPastATable, Unstructured, BelowAReference, LeftReduces, LinearBelow, BelowAComplement,
         RefinementBelow, OrElse, Within;
    var f := FrameOf(a, b, p, read);
    assert Falls(FAILS, f) && Falls(DECLINES, f);
    ByMembersFalls(a, b, q, p, read);
    UnstructuredFalls(a, b, q, p, read);
    BelowAReferenceFalls(a, b, q, p, read);
    LeftReducesFalls(a, b, q, p, read);
    if Small(a, p) { PartsAreSmall(a, p); }
    PartsAreSmall(b, p);
    if a.Intersection? { ByShapeOfAMeetFalls(a, b, q, alone, p, read); }
    if a.Seq? && b.Seq? { LinearBelowFalls(a, b, q, p, read); }
    if b.Complement? { BelowAComplementFalls(a, b, q, p, read); }
    OrElseFalls(LeftReduces(a, b, q), Unstructured(a, b, q), q, f);
    if a.Refine? && b.Refine? {
      RefinementBelowFalls(a, b, q, p, read);
      OrElseFalls(RefinementBelow(a, b, q), Unstructured(a, b, q), q, f);
    }
    if b.Union? {
      var spilled := if SpillsPastATable(a, b, q) then FAILS else DECLINES;
      OrElseFalls(BelowAUnion(a, b, q), spilled, q, f);
      OrElseFalls(OrElse(BelowAUnion(a, b, q), spilled), Unstructured(a, b, q), q, f);
    }
  }

  lemma BoundedFalls(a: Schema, b: Schema, q: Setting, f: Frame)
    ensures Falls(Bounded(a, b, q), f)
  {
    hide MeetWithin, FlatMembers, CoversTheUniverse, RegionSet;
    assert Falls(HOLDS, f) && Falls(DECLINES, f);
    assert forall t :: Falls(Empties(t, HOLDS, DECLINES, DECLINES), f);
  }

  /** Every goal the rules ask of a pair falls below it. */
  lemma TheRulesFall(a: Schema, b: Schema, q: Setting, alone: bool, p: Space, read: Reader)
    requires Pair(a, b, p) && SmallDefinitions(q, p)
    ensures Falls(Decide(a, b, q, alone), FrameOf(a, b, p, read))
  {
    hide Pair, ByShape, Bounded, OrElse, FrameOf, RegionSet, PushedComplementIsPlaced, FiniteSet, FiniteSetBelow;
    var f := FrameOf(a, b, p, read);
    ByShapeFalls(a, b, q, alone, p, read);
    BoundedFalls(a, b, q, f);
    OrElseFalls(ByShape(a, b, q, alone), Bounded(a, b, q), q, f);
  }
}
