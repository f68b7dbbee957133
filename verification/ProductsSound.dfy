/** Splitting a product across a union of products is exact both ways. */
module ProductsSound {
  import opened Verdicts
  import opened Schemas
  import opened Constructors
  import opened Values
  import opened Oracles
  import opened Disjointness
  import opened EmptinessSound
  import opened Rules
  import opened Decision
  import opened Claims
  import opened RulesSound

  // ---- A product split across a union of products.

  lemma {:induction false} ArityBranchesAreMembers(k: SeqKind, arity: nat, ms: seq<Schema>)
    ensures forall branch <- ArityBranches(k, arity, ms) :: Seq(k, branch, None) in ms
    ensures forall t <- ms :: t.Seq? && t.container == k && t.tail.None? && |t.prefix| == arity ==>
      t.prefix in ArityBranches(k, arity, ms)
  {
    if ms != [] { ArityBranchesAreMembers(k, arity, ms[1..]); }
  }

  lemma ATupleIsASequence(ws: seq<Value>, k: SeqKind, cs: seq<Schema>, m: Meaning)
    requires |ws| == |cs|
    ensures Member(SequenceOf(k, ws), Seq(k, cs, None), m) <==> InProduct(ws, cs, m)
  {
    var v := SequenceOf(k, ws);
    assert v.items == ws;
    assert forall j :: 0 <= j < |ws| ==> ElementAt(cs, None, j) == cs[j];
  }

  lemma SplitsAcrossIsValid(a: Schema, b: Schema, q: Setting, trail: seq<Goal>, m: Meaning)
    requires Reads(q, m) && a.Seq? && b.Union?
    ensures Valid(SplitsAcross(a, b.members, q), PromiseOf(a, b, trail, m), m)
  {
    hide Member;
    hide Truthful;
    var to := PromiseOf(a, b, trail, m);
    AnswersAreValid(to, m);
    if a.tail.None? {
      var branches := ArityBranches(a.container, |a.prefix|, b.members);
      var none := SetAsideHoldNone(a.container, b.members);
      if !(branches == [] && !none) {
        if ProductHoldsUnder(a.prefix, branches, trail, m) { ASplitHolds(a, b, branches, trail, m); }
        if none && ProductFailsUnder(a.prefix, branches, trail, m) { ASplitFails(a, b, branches, trail, m); }
        assert ValidNext(SplitsAcross(a, b.members, q), to, m);
      }
    }
  }

  lemma ASplitHolds(a: Schema, b: Schema, branches: seq<seq<Schema>>, trail: seq<Goal>, m: Meaning)
    requires a.Seq? && a.tail.None? && b.Union?
    requires branches == ArityBranches(a.container, |a.prefix|, b.members)
    requires ProductHoldsUnder(a.prefix, branches, trail, m)
    ensures HoldsUnder(a, b, trail, m)
  {
    ArityBranchesAreMembers(a.container, |a.prefix|, b.members);
    forall v | TrailLends(trail, v, Exposure(a, b, m), m) ensures At(a, b, v, m) {
      if Member(v, a, m) {
        var ws := v.items;
        assert v == SequenceOf(a.container, ws);
        ATupleIsASequence(ws, a.container, a.prefix, m);
        forall w | w in ws ensures TrailTrueAt(trail, w, m) { ItemsLend(trail, v, Exposure(a, b, m), w, m); }
        var branch :| branch in branches && |branch| == |ws| && InProduct(ws, branch, m);
        ATupleIsASequence(ws, a.container, branch, m);
        assert Seq(a.container, branch, None) in b.members;
      }
    }
  }

  lemma ItemsLend(trail: seq<Goal>, v: Value, exposure: nat, w: Value, m: Meaning)
    requires TrailLends(trail, v, exposure, m) && (v.VList? || v.VTuple?) && w in v.items
    ensures TrailTrueAt(trail, w, m)
  {
    assert Smaller(w, v);
    forall any: nat ensures TrailLends(trail, w, any, m) { LendsInside(trail, v, exposure, w, any, m); }
  }

  lemma ASplitFails(a: Schema, b: Schema, branches: seq<seq<Schema>>, trail: seq<Goal>, m: Meaning)
    requires a.Seq? && a.tail.None? && b.Union? && SetAsideHoldNone(a.container, b.members)
    requires branches == ArityBranches(a.container, |a.prefix|, b.members)
    requires ProductFailsUnder(a.prefix, branches, trail, m)
    ensures FailsUnder(a, b, trail, m)
  {
    hide ArityBranches, InProduct, SequenceOf;
    hide Exposed;
    ArityBranchesAreMembers(a.container, |a.prefix|, b.members);
    if TrailTrue(trail, m) {
      var ws: seq<Value> :| |ws| == |a.prefix| && InProduct(ws, a.prefix, m) && !InSomeProduct(ws, branches, m);
      var v := SequenceOf(a.container, ws);
      ATupleIsASequence(ws, a.container, a.prefix, m);
      forall t | t in b.members ensures !Member(v, t, m) {
        if t.container == a.container && |t.prefix| == |ws| {
          ATupleIsASequence(ws, a.container, t.prefix, m);
          assert t == Seq(a.container, t.prefix, None);
        }
      }
    }
  }

  ghost function ProductPromise(cs: seq<Schema>, bs: seq<seq<Schema>>, trail: seq<Goal>, m: Meaning): Promise
  {
    Promise(trail, ProductHoldsUnder(cs, bs, trail, m), ProductFailsUnder(cs, bs, trail, m))
  }

  /** The backtrack-free decomposition is exact: it proves and refutes. */
  lemma ProductPlanIsValid(split: Split, q: Setting, trail: seq<Goal>, m: Meaning)
    requires Reads(q, m)
    ensures Valid(ProductPlan(split, q), ProductPromise(split.components, split.branches, trail, m), m)
  {
    hide Member;
    hide Exposed;
    hide Truthful;
    ComponentsAreValid(split.components, 0, false, true, split.branches, q, trail, m);
  }

  lemma NoTupleHolds(cs: seq<Schema>, i: nat, m: Meaning)
    requires i < |cs| && !HasValue(cs[i], m)
    ensures forall ws: seq<Value> :: |ws| == |cs| ==> !InProduct(ws, cs, m)
  {
    assert forall w :: !Member(w, cs[i], m);
  }

  lemma {:induction false} ComponentsAreValid(cs: seq<Schema>, at: nat, empty: bool, held: bool, bs: seq<seq<Schema>>, q: Setting, trail: seq<Goal>, m: Meaning)
    requires Reads(q, m) && at <= |cs| && forall branch <- bs :: |branch| == |cs|
    requires empty ==> exists i :: 0 <= i < |cs| && !HasValue(cs[i], m)
    requires held && !empty ==> forall i :: 0 <= i < at ==> HasValue(cs[i], m)
    ensures Valid(ComponentsPlan(cs, at, empty, held, bs, q), ProductPromise(cs, bs, trail, m), m)
    decreases |cs| - at
  {
    var to := ProductPromise(cs, bs, trail, m);
    AnswersAreValid(to, m);
    if at == |cs| {
      if empty {
        var i :| 0 <= i < |cs| && !HasValue(cs[i], m);
        NoTupleHolds(cs, i, m);
      } else {
        BranchPlanIsValid(cs, bs, held, q, trail, m);
      }
    } else {
      if !HasValue(cs[at], m) { ComponentsAreValid(cs, at + 1, true, held, bs, q, trail, m); }
      if HasValue(cs[at], m) { ComponentsAreValid(cs, at + 1, empty, held, bs, q, trail, m); }
      ComponentsAreValid(cs, at + 1, empty, false, bs, q, trail, m);
    }
  }

  lemma {:induction false} BranchPlanIsValid(cs: seq<Schema>, bs: seq<seq<Schema>>, held: bool, q: Setting, trail: seq<Goal>, m: Meaning)
    requires Reads(q, m) && forall branch <- bs :: |branch| == |cs|
    requires held ==> forall i :: 0 <= i < |cs| ==> HasValue(cs[i], m)
    ensures Valid(BranchPlan(cs, bs, held, q), ProductPromise(cs, bs, trail, m), m)
  {
    hide Member;
    hide Exposed;
    hide Truthful;
    var to := ProductPromise(cs, bs, trail, m);
    if bs == [] {
      if held {
        forall t | t in cs ensures HasValue(t, m) { var i :| 0 <= i < |cs| && cs[i] == t; }
        var ws := Witnesses(cs, m);
        assert InProduct(ws, cs, m) && !InSomeProduct(ws, [], m);
      }
      AnswersAreValid(to, m);
    } else {
      assert forall branch :: branch in bs <==> branch == bs[0] || branch in bs[1..];
      if exists i :: 0 <= i < |cs| && Apart(cs[i], bs[0][i], m) {
        BranchPlanIsValid(cs, bs[1..], held, q, trail, m);
        ADroppedBranchCoversNothing(cs, bs, trail, m);
        SamePromise(BranchPlan(cs, bs[1..], held, q), ProductPromise(cs, bs[1..], trail, m), to, m);
      }
      PositionsAreValid(cs, bs[0], 0, bs[1..], q, trail, to, m);
      ApartPlanIsValid(cs, bs[0], 0, BranchPlan(cs, bs[1..], held, q), PositionsPlan(cs, bs[0], 0, bs[1..], q), q, to, m);
    }
  }

  lemma SamePromise(p: Plan, from: Promise, to: Promise, m: Meaning)
    requires Valid(p, from, m) && from == to
    ensures Valid(p, to, m)
  {
  }

  lemma ADroppedBranchCoversNothing(cs: seq<Schema>, bs: seq<seq<Schema>>, trail: seq<Goal>, m: Meaning)
    requires bs != [] && (forall branch <- bs :: |branch| == |cs|)
    requires exists i :: 0 <= i < |cs| && Apart(cs[i], bs[0][i], m)
    ensures ProductPromise(cs, bs[1..], trail, m) == ProductPromise(cs, bs, trail, m)
  {
    var i :| 0 <= i < |cs| && Apart(cs[i], bs[0][i], m);
    assert bs[0] in bs && forall branch :: branch in bs <==> branch == bs[0] || branch in bs[1..];
    forall ws: seq<Value> | |ws| == |cs| && InProduct(ws, cs, m) ensures InSomeProduct(ws, bs, m) <==> InSomeProduct(ws, bs[1..], m) {
      assert Member(ws[i], cs[i], m);
      assert !InProduct(ws, bs[0], m);
    }
  }

  lemma {:induction false} ApartPlanIsValid(cs: seq<Schema>, branch: seq<Schema>, at: nat, dropped: Plan, kept: Plan, q: Setting, to: Promise, m: Meaning)
    requires Reads(q, m) && at <= |cs| == |branch|
    requires (exists i :: 0 <= i < |cs| && Apart(cs[i], branch[i], m)) ==> Valid(dropped, to, m)
    requires Valid(kept, to, m)
    ensures Valid(ApartPlan(cs, branch, at, dropped, kept, q), to, m)
    decreases |cs| - at
  {
    hide Member;
    hide Exposed;
    hide Truthful;
    if at < |cs| {
      ApartPlanIsValid(cs, branch, at + 1, dropped, kept, q, to, m);
      var next := ApartPlan(cs, branch, at + 1, dropped, kept, q);
      BesideIsValid(cs[at], branch[at], dropped, next, next, q, to, m);
    }
  }

  /** Position `i` is below the branch's, or the product narrowed there is below
      the branches left. */
  ghost predicate PositionHolds(cs: seq<Schema>, branch: seq<Schema>, i: nat, rest: seq<seq<Schema>>, q: Setting, trail: seq<Goal>, m: Meaning)
    requires i < |cs| == |branch|
  {
    HoldsUnder(cs[i], branch[i], trail, m) || ProductHoldsUnder(NarrowedAt(cs, branch, i, q.gate), rest, trail, m)
  }

  lemma {:induction false} PositionsAreValid(cs: seq<Schema>, branch: seq<Schema>, at: nat, rest: seq<seq<Schema>>, q: Setting, trail: seq<Goal>, to: Promise, m: Meaning)
    requires Reads(q, m) && at <= |cs| == |branch| && (forall other <- rest :: |other| == |cs|)
    requires to == ProductPromise(cs, [branch] + rest, trail, m) || (exists bs :: bs != [] && bs[0] == branch && bs[1..] == rest && to == ProductPromise(cs, bs, trail, m))
    requires forall i :: 0 <= i < at ==> PositionHolds(cs, branch, i, rest, q, trail, m)
    ensures Valid(PositionsPlan(cs, branch, at, rest, q), to, m)
    decreases |cs| - at
  {
    hide Member;
    hide Truthful;
    hide MeetWithin;
    assert to == ProductPromise(cs, [branch] + rest, trail, m) by {
      if bs :| bs != [] && bs[0] == branch && bs[1..] == rest && to == ProductPromise(cs, bs, trail, m) {
        assert bs == [branch] + rest;
      }
    }
    AnswersAreValid(to, m);
    if at == |cs| {
      EveryPositionHolds(cs, branch, rest, q, trail, m);
    } else {
      var narrowed := Products(NarrowedAt(cs, branch, at, q.gate), rest);
      var next := PositionsPlan(cs, branch, at + 1, rest, q);
      if PositionHolds(cs, branch, at, rest, q, trail, m) { PositionsAreValid(cs, branch, at + 1, rest, q, trail, to, m); }
      if ProductFailsUnder(narrowed.components, rest, trail, m) { ANarrowedProductFails(cs, branch, at, rest, q, trail, m); }
      assert ValidNext(Product(narrowed, true, next, FAILS, DECLINES), to, m);
      assert ValidNext(Product(narrowed, true, next, DECLINES, DECLINES), to, m);
      AskIsValid(PositionsPlan(cs, branch, at, rest, q), to, m);
    }
  }

  lemma NarrowedDenotes(cs: seq<Schema>, branch: seq<Schema>, at: nat, q: Setting, ws: seq<Value>, m: Meaning)
    requires at < |cs| == |branch| && |ws| == |cs|
    ensures InProduct(ws, NarrowedAt(cs, branch, at, q.gate), m) <==> InProduct(ws, cs, m) && !Member(ws[at], branch[at], m)
  {
    hide Member;
    var narrowed := NarrowedAt(cs, branch, at, q.gate);
    var pair := [cs[at], Complemented(branch[at])];
    MeetDenotes(pair, q.gate, false, ws[at], m);
    InSplit(ws[at], pair, m);
    InSplit(ws[at], pair[1..], m);
    ComplementedDenotes(branch[at], ws[at], m);
    assert Member(ws[at], narrowed[at], m) <==> Member(ws[at], cs[at], m) && !Member(ws[at], branch[at], m);
    assert forall i :: 0 <= i < |cs| && i != at ==> narrowed[i] == cs[i];
  }

  lemma EveryPositionHolds(cs: seq<Schema>, branch: seq<Schema>, rest: seq<seq<Schema>>, q: Setting, trail: seq<Goal>, m: Meaning)
    requires |cs| == |branch|
    requires forall i :: 0 <= i < |cs| ==> PositionHolds(cs, branch, i, rest, q, trail, m)
    ensures ProductHoldsUnder(cs, [branch] + rest, trail, m)
  {
    hide Member;
    var bs := [branch] + rest;
    forall ws: seq<Value> | |ws| == |cs| && (forall w <- ws :: TrailTrueAt(trail, w, m)) && InProduct(ws, cs, m)
      ensures InSomeProduct(ws, bs, m)
    {
      if InProduct(ws, branch, m) {
        assert branch in bs;
      } else {
        var i :| 0 <= i < |cs| && !Member(ws[i], branch[i], m);
        assert Member(ws[i], cs[i], m) && TrailTrueAt(trail, ws[i], m);
        assert TrailLends(trail, ws[i], Exposure(cs[i], branch[i], m), m);
        assert !At(cs[i], branch[i], ws[i], m);
        assert PositionHolds(cs, branch, i, rest, q, trail, m);
        NarrowedDenotes(cs, branch, i, q, ws, m);
        var other :| other in rest && |other| == |ws| && InProduct(ws, other, m);
        assert other in bs;
      }
    }
  }

  lemma ANarrowedProductFails(cs: seq<Schema>, branch: seq<Schema>, at: nat, rest: seq<seq<Schema>>, q: Setting, trail: seq<Goal>, m: Meaning)
    requires at < |cs| == |branch|
    requires ProductFailsUnder(NarrowedAt(cs, branch, at, q.gate), rest, trail, m)
    ensures ProductFailsUnder(cs, [branch] + rest, trail, m)
  {
    hide Member;
    hide Exposed;
    if TrailTrue(trail, m) {
      var narrowed := NarrowedAt(cs, branch, at, q.gate);
      var ws: seq<Value> :| |ws| == |narrowed| && InProduct(ws, narrowed, m) && !InSomeProduct(ws, rest, m);
      NarrowedDenotes(cs, branch, at, q, ws, m);
      assert !InProduct(ws, branch, m);
      assert !InSomeProduct(ws, [branch] + rest, m);
    }
  }
}
