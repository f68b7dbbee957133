/** Sequences compared position by position. */
module SequencesSound {
  import opened Verdicts
  import opened Schemas
  import opened Values
  import opened EmptinessSound
  import opened Rules
  import opened Decision
  import opened Claims
  import opened RulesSound

  // ---- Values of a sequence rebuilt: cut to the prefix, one item replaced, or
  // ---- the repeated element once past the prefix.

  ghost predicate OfShape(items: seq<Value>, s: Schema, m: Meaning)
    requires s.Seq?
  {
    Member(SequenceOf(s.container, items), s, m)
  }

  lemma ShapeOf(items: seq<Value>, s: Schema, m: Meaning)
    requires s.Seq?
    ensures OfShape(items, s, m) <==>
      && |s.prefix| <= |items|
      && (s.tail.None? ==> |items| == |s.prefix|)
      && forall j :: 0 <= j < |items| ==> Member(items[j], ElementAt(s.prefix, s.tail, j), m)
  {
    assert SequenceOf(s.container, items).items == items;
  }

  lemma AValueIsItsItems(v: Value, s: Schema, m: Meaning)
    requires s.Seq? && Member(v, s, m)
    ensures (v.VList? || v.VTuple?) && v == SequenceOf(s.container, v.items) && OfShape(v.items, s, m)
  {
  }

  lemma CutToThePrefix(items: seq<Value>, s: Schema, m: Meaning)
    requires s.Seq? && OfShape(items, s, m)
    ensures |s.prefix| <= |items| && OfShape(items[..|s.prefix|], s, m)
  {
    ShapeOf(items, s, m);
    ShapeOf(items[..|s.prefix|], s, m);
  }

  lemma OneReplaced(items: seq<Value>, s: Schema, j: nat, x: Value, m: Meaning)
    requires s.Seq? && OfShape(items, s, m) && j < |items| && Member(x, ElementAt(s.prefix, s.tail, j), m)
    ensures OfShape(items[j := x], s, m)
  {
    ShapeOf(items, s, m);
    ShapeOf(items[j := x], s, m);
  }

  lemma OneRepeated(items: seq<Value>, s: Schema, x: Value, m: Meaning)
    requires s.Seq? && s.tail.Some? && OfShape(items, s, m) && Member(x, s.tail.value, m)
    ensures OfShape(items + [x], s, m)
  {
    ShapeOf(items, s, m);
    ShapeOf(items + [x], s, m);
    assert ElementAt(s.prefix, s.tail, |items|) == s.tail.value;
  }

  // ---- The refutations.

  /** An item the supertype refuses at its position refuses the sequence. */
  lemma AnItemOutside(items: seq<Value>, b: Schema, j: nat, m: Meaning)
    requires b.Seq? && j < |items| && !Member(items[j], ElementAt(b.prefix, b.tail, j), m)
    ensures !OfShape(items, b, m)
  {
    ShapeOf(items, b, m);
  }

  lemma SpillsByItems(items: seq<Value>, a: Schema, b: Schema, m: Meaning)
    requires a.Seq? && b.Seq? && a.container == b.container && OfShape(items, a, m) && !OfShape(items, b, m)
    ensures Spills(a, b, m)
  {
    assert Member(SequenceOf(a.container, items), a, m);
  }

  /** A prefix position refuted, or a tail, refutes a subject that has a value. */
  lemma APositionSpills(a: Schema, b: Schema, j: nat, m: Meaning)
    requires a.Seq? && b.Seq? && a.container == b.container && j < |a.prefix| && HasValue(a, m)
    requires Spills(a.prefix[j], ElementAt(b.prefix, b.tail, j), m)
    ensures Spills(a, b, m)
  {
    hide Member;
    var v :| Member(v, a, m);
    AValueIsItsItems(v, a, m);
    ShapeOf(v.items, a, m);
    var x :| Member(x, a.prefix[j], m) && !Member(x, ElementAt(b.prefix, b.tail, j), m);
    OneReplaced(v.items, a, j, x, m);
    AnItemOutside(v.items[j := x], b, j, m);
    SpillsByItems(v.items[j := x], a, b, m);
  }

  lemma ATailSpills(a: Schema, b: Schema, m: Meaning)
    requires a.Seq? && b.Seq? && a.container == b.container && HasValue(a, m) && |b.prefix| <= |a.prefix|
    requires a.tail.Some? && b.tail.Some? && Spills(a.tail.value, b.tail.value, m)
    ensures Spills(a, b, m)
  {
    hide Member;
    var v :| Member(v, a, m);
    AValueIsItsItems(v, a, m);
    CutToThePrefix(v.items, a, m);
    var x :| Member(x, a.tail.value, m) && !Member(x, b.tail.value, m);
    var items := v.items[..|a.prefix|];
    OneRepeated(items, a, x, m);
    AnItemOutside(items + [x], b, |a.prefix|, m);
    SpillsByItems(items + [x], a, b, m);
  }

  /** Lengths one side admits and the other does not. */
  lemma ALengthSpills(a: Schema, b: Schema, m: Meaning)
    requires a.Seq? && b.Seq? && a.container == b.container && HasValue(a, m)
    requires |a.prefix| < |b.prefix| || (b.tail.None? && |a.prefix| != |b.prefix|)
      || (b.tail.None? && a.tail.Some? && |a.prefix| == |b.prefix| && HasValue(a.tail.value, m))
    ensures Spills(a, b, m)
  {
    hide Member;
    var v :| Member(v, a, m);
    AValueIsItsItems(v, a, m);
    CutToThePrefix(v.items, a, m);
    var items := v.items[..|a.prefix|];
    if |a.prefix| < |b.prefix| || |a.prefix| != |b.prefix| {
      ShapeOf(items, b, m);
      SpillsByItems(items, a, b, m);
    } else {
      var x :| Member(x, a.tail.value, m);
      OneRepeated(items, a, x, m);
      ShapeOf(items + [x], b, m);
      SpillsByItems(items + [x], a, b, m);
    }
  }

  // ---- The proof.

  /** The prefix is below the supertype's positions, under the goals assumed. */
  ghost predicate Aligned(a: Schema, b: Schema, upTo: nat, trail: seq<Goal>, m: Meaning)
    requires a.Seq? && b.Seq? && upTo <= |a.prefix|
  {
    forall j :: 0 <= j < upTo ==> HoldsUnder(a.prefix[j], ElementAt(b.prefix, b.tail, j), trail, m)
  }

  lemma AlignedHolds(a: Schema, b: Schema, trail: seq<Goal>, m: Meaning)
    requires a.Seq? && b.Seq? && a.container == b.container && |b.prefix| <= |a.prefix|
    requires Aligned(a, b, |a.prefix|, trail, m)
    requires b.tail.None? ==> |a.prefix| == |b.prefix|
    requires a.tail.None? || !HasValue(a.tail.value, m) || (b.tail.Some? && HoldsUnder(a.tail.value, b.tail.value, trail, m))
    ensures HoldsUnder(a, b, trail, m)
  {
    hide HoldsUnder;
    forall v | TrailLends(trail, v, Exposure(a, b, m), m) ensures At(a, b, v, m) {
      if Member(v, a, m) { AlignedAt(a, b, trail, v, Exposure(a, b, m), m); }
    }
    HoldsAtEvery(a, b, trail, m);
  }

  lemma HoldsAtEvery(a: Schema, b: Schema, trail: seq<Goal>, m: Meaning)
    requires forall v :: TrailLends(trail, v, Exposure(a, b, m), m) ==> At(a, b, v, m)
    ensures HoldsUnder(a, b, trail, m)
  {
  }

  lemma AlignedAt(a: Schema, b: Schema, trail: seq<Goal>, v: Value, exposure: nat, m: Meaning)
    requires a.Seq? && b.Seq? && a.container == b.container && |b.prefix| <= |a.prefix|
    requires Aligned(a, b, |a.prefix|, trail, m)
    requires b.tail.None? ==> |a.prefix| == |b.prefix|
    requires a.tail.None? || !HasValue(a.tail.value, m) || (b.tail.Some? && HoldsUnder(a.tail.value, b.tail.value, trail, m))
    requires TrailLends(trail, v, exposure, m) && Member(v, a, m)
    ensures Member(v, b, m)
  {
    hide Member;
    AValueIsItsItems(v, a, m);
    ShapeOf(v.items, a, m);
    ShapeOf(v.items, b, m);
    forall j | 0 <= j < |v.items| ensures Member(v.items[j], ElementAt(b.prefix, b.tail, j), m) {
      var (sub, sup) := (ElementAt(a.prefix, a.tail, j), ElementAt(b.prefix, b.tail, j));
      assert Member(v.items[j], sub, m);
      if j < |a.prefix| || a.tail.Some? {
        assert HoldsUnder(sub, sup, trail, m);
        AnItemHolds(sub, sup, trail, v, j, exposure, m);
      }
    }
    if a.tail.Some? && |v.items| > |a.prefix| {
      assert Member(v.items[|a.prefix|], ElementAt(a.prefix, a.tail, |a.prefix|), m);
    }
  }

  lemma AnItemHolds(sub: Schema, sup: Schema, trail: seq<Goal>, v: Value, j: nat, exposure: nat, m: Meaning)
    requires (v.VList? || v.VTuple?) && j < |v.items|
    requires HoldsUnder(sub, sup, trail, m) && TrailLends(trail, v, exposure, m) && Member(v.items[j], sub, m)
    ensures Member(v.items[j], sup, m)
  {
    hide Member;
    assert Smaller(v.items[j], v);
    LendsInside(trail, v, exposure, v.items[j], Exposure(sub, sup, m), m);
    assert At(sub, sup, v.items[j], m);
  }

  // ---- The plan.

  /** What the last goal asked left remembered is an answer about that pair. */
  ghost predicate Remembered(last: Option<Last>, trail: seq<Goal>, m: Meaning) {
    last.Some? ==>
      && (last.value.answer.Holds? ==> HoldsUnder(last.value.sub, last.value.sup, trail, m))
      && !last.value.answer.Fails?
  }

  lemma {:induction false} AlignsIsValid(a: Schema, b: Schema, at: nat, declined: bool, last: Option<Last>, all: Plan, some: Plan, to: Promise, m: Meaning)
    requires a.Seq? && b.Seq? && at <= |a.prefix| && (b.tail.None? ==> at <= |b.prefix|)
    requires !declined ==> Aligned(a, b, at, to.trail, m)
    requires Remembered(last, to.trail, m)
    requires Aligned(a, b, |a.prefix|, to.trail, m) && (b.tail.None? ==> |a.prefix| <= |b.prefix|) ==> Valid(all, to, m)
    requires Valid(some, to, m)
    requires forall j :: 0 <= j < |a.prefix| && FailsUnder(a.prefix[j], ElementAt(b.prefix, b.tail, j), to.trail, m) ==> to.fails
    requires b.tail.None? && |a.prefix| > |b.prefix| ==> to.fails
    ensures Valid(Aligns(a.prefix, b, at, declined, last, all, some), to, m)
    decreases |a.prefix| - at
  {
    hide HoldsUnder;
    hide FailsUnder;
    hide Valid;
    AnswersAreValid(to, m);
    if at < |a.prefix| && !(at >= |b.prefix| && b.tail.None?) {
      var expected := ElementAt(b.prefix, b.tail, at);
      if last.Some? && last.value.sub == a.prefix[at] && last.value.sup == expected {
        AlignsIsValid(a, b, at + 1, declined || last.value.answer.Unknown?, last, all, some, to, m);
      } else {
        if HoldsUnder(a.prefix[at], expected, to.trail, m) {
          AlignsIsValid(a, b, at + 1, declined, Some(Last(a.prefix[at], expected, Relation.Holds)), all, some, to, m);
        }
        AlignsIsValid(a, b, at + 1, true, Some(Last(a.prefix[at], expected, Relation.Unknown)), all, some, to, m);
        AskIsValid(Aligns(a.prefix, b, at, declined, last, all, some), to, m);
      }
    }
  }

  lemma LinearReadIsValid(a: Schema, b: Schema, repeats: Verdict, trail: seq<Goal>, m: Meaning)
    requires a.Seq? && b.Seq? && a.container == b.container && (a.tail.None? ==> repeats.Empty?)
    requires repeats.Empty? && a.tail.Some? ==> !HasValue(a.tail.value, m)
    requires repeats.Inhabited? ==> HasValue(a.tail.value, m)
    ensures Valid(LinearRead(a, b, repeats), PromiseOf(a, b, trail, m), m)
  {
    hide Member;
    hide HoldsUnder;
    var to := PromiseOf(a, b, trail, m);
    AnswersAreValid(to, m);
    forall j | 0 <= j < |a.prefix| && FailsUnder(a.prefix[j], ElementAt(b.prefix, b.tail, j), trail, m) ensures to.fails {
      if TrailTrue(trail, m) && HasValue(a, m) { APositionSpills(a, b, j, m); }
    }
    if HasValue(a, m) && (|a.prefix| < |b.prefix| || (b.tail.None? && |a.prefix| != |b.prefix|)) { ALengthSpills(a, b, m); }
    if |a.prefix| >= |b.prefix| {
      if repeats.Empty? {
        if b.tail.Some? || |a.prefix| == |b.prefix| {
          if Aligned(a, b, |a.prefix|, trail, m) { AlignedHolds(a, b, trail, m); }
          AlignsIsValid(a, b, 0, false, None, HOLDS, DECLINES, to, m);
        }
      } else if b.tail.None? {
        if repeats.Inhabited? && HasValue(a, m) && |a.prefix| == |b.prefix| { ALengthSpills(a, b, m); }
      } else {
        ATailIsAsked(a, b, trail, m);
      }
    }
  }

  lemma ATailIsAsked(a: Schema, b: Schema, trail: seq<Goal>, m: Meaning)
    requires a.Seq? && b.Seq? && a.container == b.container && a.tail.Some? && b.tail.Some? && |a.prefix| >= |b.prefix|
    requires forall j :: 0 <= j < |a.prefix| && FailsUnder(a.prefix[j], ElementAt(b.prefix, b.tail, j), trail, m) ==> Mismatched(a, b, trail, m)
    ensures Valid(Aligns(a.prefix, b, 0, false, None, Just(a.tail.value, b.tail.value),
      Ask(a.tail.value, b.tail.value, DECLINES, FAILS, DECLINES)), PromiseOf(a, b, trail, m), m)
  {
    hide Member;
    hide HoldsUnder;
    var to := PromiseOf(a, b, trail, m);
    var (sub, sup) := (a.tail.value, b.tail.value);
    AnswersAreValid(to, m);
    if FailsUnder(sub, sup, trail, m) && TrailTrue(trail, m) && HasValue(a, m) { ATailSpills(a, b, m); }
    assert FailsUnder(sub, sup, trail, m) ==> to.fails;
    var some := Ask(sub, sup, DECLINES, FAILS, DECLINES);
    AskIsValid(some, to, m);
    if Aligned(a, b, |a.prefix|, trail, m) {
      if HoldsUnder(sub, sup, trail, m) { AlignedHolds(a, b, trail, m); }
      JustIsValid(sub, sup, to, m);
    }
    AlignsIsValid(a, b, 0, false, None, Just(sub, sup), some, to, m);
  }

  lemma LinearBelowIsValid(a: Schema, b: Schema, trail: seq<Goal>, m: Meaning)
    requires a.Seq? && b.Seq? && a.container == b.container
    ensures Valid(LinearBelow(a, b), PromiseOf(a, b, trail, m), m)
  {
    hide Member;
    hide HoldsUnder;
    if a.tail.None? {
      LinearReadIsValid(a, b, Verdict.Empty, trail, m);
    } else {
      if !HasValue(a.tail.value, m) { LinearReadIsValid(a, b, Verdict.Empty, trail, m); }
      if HasValue(a.tail.value, m) { LinearReadIsValid(a, b, Verdict.Inhabited, trail, m); }
      LinearReadIsValid(a, b, Verdict.Unknown, trail, m);
    }
  }
}
