/** What a reading asks does not turn on its bounds: settings that differ in the
    depth and the allowance alone read every term and plan every goal alike. */
module Unbounded {
  import opened Kinds
  import opened Schemas
  import opened Oracles
  import opened Disjointness
  import opened Tables
  import opened Constructors
  import opened Shapes
  import opened Bounds
  import opened Narrowing
  import opened KindWalk
  import opened Emptiness
  import opened Rules

  /** The same setting under other bounds. */
  ghost predicate Alike(q: Setting, w: Setting) {
    w == q.(maxDepth := w.maxDepth, respelling := w.respelling)
  }

  // ---- The walk that reads kinds.

  lemma {:induction false} WalksAlike(s: Schema, q: Setting, w: Setting, left: nat)
    requires Alike(q, w)
    ensures Whole(s, w, left) == Whole(s, q, left) && Possibly(s, w, left) == Possibly(s, q, left)
    decreases left, 0
  {
    if left > 0 {
      match s
      case Union(ms) => MembersWalkAlike(ms, {}, q, w, left - 1);
      case Intersection(ms) => MembersWalkAlike(ms, EVERY_KIND, q, w, left - 1);
      case Complement(t) => WalksAlike(t, q, w, left - 1);
      case Refine(t, _) => WalksAlike(t, q, w, left - 1);
      case Ref(i) => if i < |q.defs| { WalksAlike(q.defs[i], q, w, left - 1); }
      case _ =>
    }
  }

  lemma {:induction false} MembersWalkAlike(ms: seq<Schema>, held: set<Kind>, q: Setting, w: Setting, left: nat)
    requires Alike(q, w)
    ensures WholeOfUnion(ms, held, w, left) == WholeOfUnion(ms, held, q, left)
    ensures WholeOfMeet(ms, held, w, left) == WholeOfMeet(ms, held, q, left)
    ensures PossiblyOfUnion(ms, held, w, left) == PossiblyOfUnion(ms, held, q, left)
    ensures PossiblyOfMeet(ms, held, w, left) == PossiblyOfMeet(ms, held, q, left)
    decreases left, 1, |ms|
  {
    hide Whole, Possibly;
    if ms != [] {
      WalksAlike(ms[0], q, w, left);
      var whole, possibly := Whole(ms[0], q, left), Possibly(ms[0], q, left);
      MembersWalkAlike(ms[1..], held + whole.kinds, q, w, whole.left);
      MembersWalkAlike(ms[1..], held * whole.kinds, q, w, whole.left);
      MembersWalkAlike(ms[1..], held + possibly.kinds, q, w, possibly.left);
      MembersWalkAlike(ms[1..], held * possibly.kinds, q, w, possibly.left);
    }
  }

  lemma KindsAreReadAlike(s: Schema, q: Setting, w: Setting)
    requires Alike(q, w)
    ensures KindsHeldWhole(s, w) == KindsHeldWhole(s, q) && KindsPossiblyHeld(s, w) == KindsPossiblyHeld(s, q)
  {
    WalksAlike(s, q, w, KIND_WALK);
  }

  // ---- The readings that ask no goal.

  lemma SettledAlike(ms: seq<Schema>, empty: bool, regions: Regions, q: Setting, w: Setting)
    requires Alike(q, w)
    ensures MeetSettled(ms, empty, regions, w) == MeetSettled(ms, empty, regions, q)
  {
    hide KindsPossiblyHeld;
    KindsAreReadAlike(Intersection(ms), q, w);
  }

  lemma AClassIsReadAlike(ms: seq<Schema>, q: Setting, w: Setting)
    requires Alike(q, w)
    ensures AClassBelowTheComplementBesideIt(ms, w) <==> AClassBelowTheComplementBesideIt(ms, q)
  {
    hide MeetWithin;
  }

  // ---- The plans.

  lemma {:induction false} KeptAlike(a: Schema, ms: seq<Schema>, kept: seq<Schema>, q: Setting, w: Setting)
    requires Alike(q, w)
    ensures KeptFully(a, ms, kept, w) == KeptFully(a, ms, kept, q)
  {
    hide DisjointWith;
    if ms != [] {
      KeptAlike(a, ms[1..], kept, q, w);
      KeptAlike(a, ms[1..], kept + [ms[0]], q, w);
    }
  }

  lemma {:induction false} ApartAlike(a: Schema, ms: seq<Schema>, all: seq<Schema>, q: Setting, w: Setting)
    requires Alike(q, w)
    ensures SomeApart(a, ms, all, w) == SomeApart(a, ms, all, q)
  {
    hide DisjointWith;
    KeptAlike(a, all, [], q, w);
    if ms != [] { ApartAlike(a, ms[1..], all, q, w); }
  }

  lemma {:induction false} BranchesAlike(a: Schema, ms: seq<Schema>, refuted: bool, b: Schema, q: Setting, w: Setting)
    requires Alike(q, w) && b.Union?
    ensures EachBranch(a, ms, refuted, b, w) == EachBranch(a, ms, refuted, b, q)
  {
    hide PastTheBranches;
    if ms == [] {
      PastTheBranchesAlike(a, b, refuted, q, w);
    } else {
      BranchesAlike(a, ms[1..], true, b, q, w);
      BranchesAlike(a, ms[1..], refuted, b, q, w);
    }
  }

  lemma PastTheBranchesAlike(a: Schema, b: Schema, refuted: bool, q: Setting, w: Setting)
    requires Alike(q, w) && b.Union?
    ensures PastTheBranches(a, b, refuted, w) == PastTheBranches(a, b, refuted, q)
  {
    hide SomeApart, DisjointWith, MergedSplit, OrElse, ArityBranches, KeptCheaply;
    ApartAlike(a, b.members, b.members, q, w);
  }

  lemma MeetBelowAlike(a: Schema, b: Schema, q: Setting, w: Setting, alone: bool)
    requires Alike(q, w) && a.Intersection?
    ensures MeetBelow(a, b, w, alone) == MeetBelow(a, b, q, alone)
  {
    hide KindsPossiblyHeld, AnyMemberBelow, BelowAnyBranch, MergedSplit, TheMemberThatIsTheMeet, PlacedByMembership;
    KindsAreReadAlike(a, q, w);
  }

  lemma UnstructuredAlike(a: Schema, b: Schema, q: Setting, w: Setting)
    requires Alike(q, w)
    ensures Unstructured(a, b, w) == Unstructured(a, b, q)
    ensures BelowAComplementDeclined(a, b, w) == BelowAComplementDeclined(a, b, q)
    ensures SpillsPastATable(a, b, w) == SpillsPastATable(a, b, q)
  {
    hide KindsPossiblyHeld, KindsHeldWhole, DisjointWith, ShorterThan, SpillsPast, OutsideTheClass, EmptyBelow, TheEmptyRefused, FiniteSet;
    KindsAreReadAlike(a, q, w);
    KindsAreReadAlike(b, q, w);
  }

  lemma ByShapeAlike(a: Schema, b: Schema, q: Setting, w: Setting, alone: bool)
    requires Alike(q, w)
    ensures ByShape(a, b, w, alone) == ByShape(a, b, q, alone)
  {
    hide Just;
    hide MeetBelow, Unstructured, BelowAComplementDeclined, SpillsPastATable, EachBranch, OrElse, NarrowedMeet, LinearBelow, EachBelow, BelowEach,
         TheTablesBelow, TablesDisjoint, DisjointWith, Entailed, MeetWithin;
    UnstructuredAlike(a, b, q, w);
    if a.Intersection? { MeetBelowAlike(a, b, q, w, alone); }
    if b.Union? { BranchesAlike(a, b.members, false, b, q, w); }
  }

  lemma DecideAlike(a: Schema, b: Schema, q: Setting, w: Setting, alone: bool)
    requires Alike(q, w)
    ensures Decide(a, b, w, alone) == Decide(a, b, q, alone)
  {
    hide ByShape, OrElse, PushedComplementIsPlaced, MeetWithin, FlatMembers, FiniteSetBelow, FiniteSet;
    ByShapeAlike(a, b, q, w, alone);
  }

  lemma WitnessAlike(a: Schema, q: Setting, w: Setting)
    requires Alike(q, w)
    ensures Witness(a, w) == Witness(a, q)
  {
    hide KindsPossiblyHeld, HoldsAValueShallowly;
    if a.Complement? { KindsAreReadAlike(a.inner, q, w); }
  }

  // ---- The plan of a product.

  lemma {:induction false} ApartPlansAlike(cs: seq<Schema>, branch: seq<Schema>, at: nat, dropped: Plan, kept: Plan, q: Setting, w: Setting)
    requires Alike(q, w) && at <= |cs| == |branch|
    ensures ApartPlan(cs, branch, at, dropped, kept, w) == ApartPlan(cs, branch, at, dropped, kept, q)
    decreases |cs| - at
  {
    hide DisjointWith, MeetWithin;
    if at < |cs| { ApartPlansAlike(cs, branch, at + 1, dropped, kept, q, w); }
  }

  lemma {:induction false} PositionsAlike(cs: seq<Schema>, branch: seq<Schema>, at: nat, rest: seq<seq<Schema>>, q: Setting, w: Setting)
    requires Alike(q, w) && at <= |cs| == |branch| && forall other <- rest :: |other| == |cs|
    ensures PositionsPlan(cs, branch, at, rest, w) == PositionsPlan(cs, branch, at, rest, q)
    decreases |cs| - at
  {
    hide MeetWithin;
    if at < |cs| { PositionsAlike(cs, branch, at + 1, rest, q, w); }
  }

  lemma {:induction false} BranchPlansAlike(cs: seq<Schema>, bs: seq<seq<Schema>>, held: bool, q: Setting, w: Setting)
    requires Alike(q, w) && forall branch <- bs :: |branch| == |cs|
    ensures BranchPlan(cs, bs, held, w) == BranchPlan(cs, bs, held, q)
  {
    hide ApartPlan, PositionsPlan;
    if bs != [] {
      BranchPlansAlike(cs, bs[1..], held, q, w);
      PositionsAlike(cs, bs[0], 0, bs[1..], q, w);
      ApartPlansAlike(cs, bs[0], 0, BranchPlan(cs, bs[1..], held, q), PositionsPlan(cs, bs[0], 0, bs[1..], q), q, w);
    }
  }

  lemma {:induction false} ComponentsAlike(cs: seq<Schema>, at: nat, empty: bool, held: bool, bs: seq<seq<Schema>>, q: Setting, w: Setting)
    requires Alike(q, w) && at <= |cs| && forall branch <- bs :: |branch| == |cs|
    ensures ComponentsPlan(cs, at, empty, held, bs, w) == ComponentsPlan(cs, at, empty, held, bs, q)
    decreases |cs| - at
  {
    hide BranchPlan;
    if at == |cs| {
      BranchPlansAlike(cs, bs, held, q, w);
    } else {
      ComponentsAlike(cs, at + 1, true, held, bs, q, w);
      ComponentsAlike(cs, at + 1, empty, held, bs, q, w);
      ComponentsAlike(cs, at + 1, empty, false, bs, q, w);
    }
  }

  lemma ProductsAlike(split: Split, q: Setting, w: Setting)
    requires Alike(q, w)
    ensures ProductPlan(split, w) == ProductPlan(split, q)
  {
    ComponentsAlike(split.components, 0, false, true, split.branches, q, w);
  }
}
