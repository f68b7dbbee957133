/** What an answer under open hypotheses claims, and what closing one preserves. */
module Claims {
  import opened Schemas
  import opened Values
  import opened Emptiness
  import opened EmptinessSound
  import opened Rules
  import opened Decision

  /** One value's instance of an inclusion. */
  ghost predicate At(a: Schema, b: Schema, v: Value, m: Meaning)
  {
    Member(v, a, m) ==> Member(v, b, m)
  }

  /** The references a goal exposes above every sequence and set. */
  ghost function Exposure(a: Schema, b: Schema, m: Meaning): nat {
    Exposed(a, m.rank) + Exposed(b, m.rank)
  }

  ghost predicate TrueBelow(g: Goal, v: Value, m: Meaning)
  {
    forall w :: Smaller(w, v) ==> At(g.sub, g.sup, w, m)
  }

  /** A goal assumed is assumed of every smaller value, and of the value in hand
      only where the goal in hand exposes at least as much: unfolding lowers
      what a goal exposes, so a goal is never its own premise at one value. */
  ghost predicate Lends(g: Goal, v: Value, exposure: nat, m: Meaning)
  {
    TrueBelow(g, v, m) && (Exposure(g.sub, g.sup, m) <= exposure ==> At(g.sub, g.sup, v, m))
  }

  ghost predicate TrailLends(trail: seq<Goal>, v: Value, exposure: nat, m: Meaning)
  {
    forall g <- trail :: Lends(g, v, exposure, m)
  }

  /** The inclusion, as far as the goals assumed lend it. */
  ghost predicate HoldsUnder(a: Schema, b: Schema, trail: seq<Goal>, m: Meaning)
  {
    forall v :: TrailLends(trail, v, Exposure(a, b, m), m) ==> At(a, b, v, m)
  }

  ghost predicate TrailTrue(trail: seq<Goal>, m: Meaning)
  {
    forall g <- trail :: Included(g.sub, g.sup, m)
  }

  /** A witness, if every goal assumed is true. */
  ghost predicate FailsUnder(a: Schema, b: Schema, trail: seq<Goal>, m: Meaning)
  {
    TrailTrue(trail, m) ==> Spills(a, b, m)
  }

  /** What a rule's refutation says before the subject is read: a witness, if the
      subject has a value at all. A union's members have been read already. */
  ghost predicate Mismatched(a: Schema, b: Schema, trail: seq<Goal>, m: Meaning)
  {
    TrailTrue(trail, m) && (a.Union? || HasValue(a, m)) ==> Spills(a, b, m)
  }

  lemma TrueTrailLends(trail: seq<Goal>, v: Value, exposure: nat, m: Meaning)
    requires TrailTrue(trail, m)
    ensures TrailLends(trail, v, exposure, m)
  {
  }

  /** Under a true trail a proof is a proof. */
  lemma HoldsOutright(a: Schema, b: Schema, trail: seq<Goal>, m: Meaning)
    requires HoldsUnder(a, b, trail, m) && TrailTrue(trail, m)
    ensures Included(a, b, m)
  {
    forall v ensures Member(v, a, m) ==> Member(v, b, m) {
      TrueTrailLends(trail, v, Exposure(a, b, m), m);
      assert At(a, b, v, m);
    }
  }

  lemma LendsLess(trail: seq<Goal>, v: Value, exposure: nat, less: nat, m: Meaning)
    requires TrailLends(trail, v, exposure, m) && less <= exposure
    ensures TrailLends(trail, v, less, m)
  {
  }

  /** Crossing a constructor makes every goal assumed a fact about the part. */
  lemma LendsInside(trail: seq<Goal>, v: Value, exposure: nat, w: Value, any: nat, m: Meaning)
    requires TrailLends(trail, v, exposure, m) && Smaller(w, v)
    ensures TrailLends(trail, w, any, m)
  {
    forall g | g in trail ensures Lends(g, w, any, m) {
      assert Lends(g, v, exposure, m);
      forall x | Smaller(x, w) ensures At(g.sub, g.sup, x, m) { SmallerIsTransitive(x, w, v); }
    }
  }

  /** A pair that exposes no more and implies another carries its proof. */
  lemma HoldsVia(sub: Schema, sup: Schema, a: Schema, b: Schema, trail: seq<Goal>, m: Meaning)
    requires HoldsUnder(sub, sup, trail, m) && Exposure(sub, sup, m) <= Exposure(a, b, m)
    requires forall v :: At(sub, sup, v, m) ==> At(a, b, v, m)
    ensures HoldsUnder(a, b, trail, m)
  {
    forall v | TrailLends(trail, v, Exposure(a, b, m), m) ensures At(a, b, v, m) {
      LendsLess(trail, v, Exposure(a, b, m), Exposure(sub, sup, m), m);
    }
  }

  /** Two terms that denote one set. */
  ghost predicate SameSet(a: Schema, b: Schema, m: Meaning)
  {
    forall v :: Member(v, a, m) <==> Member(v, b, m)
  }

  /** The same set on either side, exposing no more, carries the answer over. */
  lemma SameSupertypeHolds(a: Schema, sup: Schema, b: Schema, trail: seq<Goal>, m: Meaning)
    requires Exposed(sup, m.rank) <= Exposed(b, m.rank) && SameSet(sup, b, m)
    requires HoldsUnder(a, sup, trail, m)
    ensures HoldsUnder(a, b, trail, m)
  {
    hide Member;
    hide Exposed;
    hide HoldsUnder;
    forall v | At(a, sup, v, m) ensures At(a, b, v, m) { assert Member(v, sup, m) <==> Member(v, b, m); }
    HoldsVia(a, sup, a, b, trail, m);
  }

  lemma SameSubjectHolds(sub: Schema, a: Schema, b: Schema, trail: seq<Goal>, m: Meaning)
    requires Exposed(sub, m.rank) <= Exposed(a, m.rank) && SameSet(sub, a, m)
    requires HoldsUnder(sub, b, trail, m)
    ensures HoldsUnder(a, b, trail, m)
  {
    hide Member;
    hide Exposed;
    hide HoldsUnder;
    forall v | At(sub, b, v, m) ensures At(a, b, v, m) { assert Member(v, sub, m) <==> Member(v, a, m); }
    HoldsVia(sub, b, a, b, trail, m);
  }

  lemma SameSetsSpill(sub: Schema, sup: Schema, a: Schema, b: Schema, trail: seq<Goal>, m: Meaning)
    requires SameSet(sub, a, m) && SameSet(sup, b, m) && FailsUnder(sub, sup, trail, m)
    ensures FailsUnder(a, b, trail, m)
  {
    hide Member;
    if TrailTrue(trail, m) {
      var v :| Member(v, sub, m) && !Member(v, sup, m);
      assert Member(v, a, m) && !Member(v, b, m);
    }
  }

  lemma IncludedHolds(a: Schema, b: Schema, trail: seq<Goal>, m: Meaning)
    requires Included(a, b, m)
    ensures HoldsUnder(a, b, trail, m)
  {
  }

  // ---- Closing a goal.

  /** The goal proved while assumed holds of every value, by its size. */
  lemma {:induction false} TheGoalHoldsAt(g: Goal, sub: Schema, sup: Schema, trail: seq<Goal>, v: Value, m: Meaning)
    requires Exposure(sub, sup, m) < Exposure(g.sub, g.sup, m)
    requires forall u :: At(sub, sup, u, m) <==> At(g.sub, g.sup, u, m)
    requires HoldsUnder(sub, sup, trail + [g], m)
    ensures TrailLends(trail, v, Exposure(g.sub, g.sup, m), m) ==> At(g.sub, g.sup, v, m)
    decreases v
  {
    var exposure := Exposure(g.sub, g.sup, m);
    if TrailLends(trail, v, exposure, m) {
      forall w | Smaller(w, v) ensures At(g.sub, g.sup, w, m) {
        LendsInside(trail, v, exposure, w, exposure, m);
        TheGoalHoldsAt(g, sub, sup, trail, w, m);
      }
      LendsLess(trail, v, exposure, Exposure(sub, sup, m), m);
      assert TrailLends(trail + [g], v, Exposure(sub, sup, m), m);
    }
  }

  /** Popping preserves a proof: greatest fixpoint, by induction on the value. */
  lemma PoppingHolds(g: Goal, sub: Schema, sup: Schema, trail: seq<Goal>, m: Meaning)
    requires Exposure(sub, sup, m) < Exposure(g.sub, g.sup, m)
    requires forall u :: At(sub, sup, u, m) <==> At(g.sub, g.sup, u, m)
    requires HoldsUnder(sub, sup, trail + [g], m)
    ensures HoldsUnder(g.sub, g.sup, trail, m)
  {
    forall v | TrailLends(trail, v, Exposure(g.sub, g.sup, m), m) ensures At(g.sub, g.sup, v, m) {
      TheGoalHoldsAt(g, sub, sup, trail, v, m);
    }
  }

  /** Popping preserves a refutation: a goal refuted under its own assumption is
      false whichever way the assumption falls. */
  lemma PoppingFails(g: Goal, sub: Schema, sup: Schema, trail: seq<Goal>, m: Meaning)
    requires forall u :: At(sub, sup, u, m) <==> At(g.sub, g.sup, u, m)
    requires FailsUnder(sub, sup, trail + [g], m)
    ensures FailsUnder(g.sub, g.sup, trail, m)
  {
    hide Member;
    if TrailTrue(trail, m) {
      if Included(g.sub, g.sup, m) {
        assert TrailTrue(trail + [g], m);
        var v :| Member(v, sub, m) && !Member(v, sup, m);
        assert At(sub, sup, v, m) <==> At(g.sub, g.sup, v, m);
      } else {
        assert Spills(g.sub, g.sup, m);
      }
    }
  }

  // ---- Products: a tuple of values, one a component.

  ghost predicate InProduct(ws: seq<Value>, cs: seq<Schema>, m: Meaning)
    requires |ws| == |cs|
  {
    forall i :: 0 <= i < |cs| ==> Member(ws[i], cs[i], m)
  }

  ghost predicate InSomeProduct(ws: seq<Value>, bs: seq<seq<Schema>>, m: Meaning)
  {
    exists branch <- bs :: |branch| == |ws| && InProduct(ws, branch, m)
  }

  /** Every goal assumed is a fact about `w` and what is smaller. */
  ghost predicate TrailTrueAt(trail: seq<Goal>, w: Value, m: Meaning)
  {
    forall exposure: nat :: TrailLends(trail, w, exposure, m)
  }

  ghost predicate ProductHoldsUnder(cs: seq<Schema>, bs: seq<seq<Schema>>, trail: seq<Goal>, m: Meaning)
  {
    forall ws: seq<Value> :: |ws| == |cs| && (forall w <- ws :: TrailTrueAt(trail, w, m)) && InProduct(ws, cs, m) ==> InSomeProduct(ws, bs, m)
  }

  ghost predicate ProductFailsUnder(cs: seq<Schema>, bs: seq<seq<Schema>>, trail: seq<Goal>, m: Meaning)
  {
    TrailTrue(trail, m) ==> exists ws: seq<Value> :: |ws| == |cs| && InProduct(ws, cs, m) && !InSomeProduct(ws, bs, m)
  }

  // ---- A plan's promise: whatever its questions answer, its proof establishes
  // ---- `holds` and its refutation `fails`.

  datatype Promise = Promise(trail: seq<Goal>, holds: bool, fails: bool)

  /** What the answer `Holds` to the plan's question lets its next step assume. */
  ghost predicate Proved(p: Plan, trail: seq<Goal>, m: Meaning)
  {
    match p
    case Ask(a, b, _, _, _) => HoldsUnder(a, b, trail, m)
    case Unfold(a, b, c, d, _, _, _) => HoldsUnder(c, d, trail + [Goal(a, b)], m)
    case Narrowed(a, b, _, _, _) => HoldsUnder(a, b, trail, m)
    case Product(s, _, _, _, _) => ProductHoldsUnder(s.components, s.branches, trail, m)
    case _ => true
  }

  ghost predicate Refuted(p: Plan, trail: seq<Goal>, m: Meaning)
  {
    match p
    case Ask(a, b, _, _, _) => FailsUnder(a, b, trail, m)
    case Unfold(a, b, c, d, _, _, _) => FailsUnder(c, d, trail + [Goal(a, b)], m)
    case Narrowed(a, b, _, _, _) => FailsUnder(a, b, trail, m)
    case Product(s, _, _, _, _) => ProductFailsUnder(s.components, s.branches, trail, m)
    case _ => true
  }

  ghost predicate Valid(p: Plan, to: Promise, m: Meaning)
    decreases p, 1
  {
    match p
    case Answer(r) => (r.Holds? ==> to.holds) && (r.Fails? ==> to.fails)
    case Empties(t, e, i, u) =>
      && (!HasValue(t, m) ==> Valid(e, to, m))
      && (HasValue(t, m) ==> Valid(i, to, m))
      && Valid(u, to, m)
    case Spent(y, n) => Valid(y, to, m) && Valid(n, to, m)
    case _ => ValidNext(p, to, m)
  }

  ghost predicate ValidNext(p: Plan, to: Promise, m: Meaning)
    requires (p.Ask? || p.Unfold? || p.Narrowed? || p.Product?)
    decreases p, 0
  {
    && (Proved(p, to.trail, m) ==> Valid(p.holds, to, m))
    && (Refuted(p, to.trail, m) ==> Valid(p.fails, to, m))
    && Valid(p.unknown, to, m)
  }

  /** A second reading after a declined first keeps both promises. */
  lemma {:induction false} OrElseIsValid(p: Plan, second: Plan, to: Promise, m: Meaning)
    requires Valid(p, to, m) && Valid(second, to, m)
    ensures Valid(OrElse(p, second), to, m)
    decreases p, 1
  {
    if p.Answer? {
    } else if p.Empties? {
      if HasValue(p.of, m) { OrElseIsValid(p.inhabited, second, to, m); } else { OrElseIsValid(p.empty, second, to, m); }
      OrElseIsValid(p.undecided, second, to, m);
    } else if p.Spent? {
      OrElseIsValid(p.yes, second, to, m);
      OrElseIsValid(p.no, second, to, m);
    } else {
      OrElseNext(p, second, to, m);
    }
  }

  lemma {:induction false} OrElseNext(p: Plan, second: Plan, to: Promise, m: Meaning)
    requires (p.Ask? || p.Unfold? || p.Narrowed? || p.Product?)
    requires ValidNext(p, to, m) && Valid(second, to, m)
    ensures OrElse(p, second).Ask? || OrElse(p, second).Unfold? || OrElse(p, second).Narrowed? || OrElse(p, second).Product?
    ensures ValidNext(OrElse(p, second), to, m)
    decreases p, 0
  {
    hide MeetSettled;
    hide Exposed;
    hide Member;
    hide Valid;
    if Proved(p, to.trail, m) { OrElseIsValid(p.holds, second, to, m); }
    if Refuted(p, to.trail, m) { OrElseIsValid(p.fails, second, to, m); }
    OrElseIsValid(p.unknown, second, to, m);
  }

  lemma AnswersAreValid(to: Promise, m: Meaning)
    ensures Valid(HOLDS, to, m) <==> to.holds
    ensures Valid(FAILS, to, m) <==> to.fails
    ensures Valid(DECLINES, to, m)
  {
  }
}
