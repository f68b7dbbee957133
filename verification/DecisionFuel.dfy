/** The bounds never change an answer none of them stopped: under any others as
    wide the same run gives it. */
module DecisionFuel {
  import opened Schemas
  import opened Oracles
  import opened Readings
  import opened KindWalk
  import opened Shapes
  import opened Emptiness
  import opened Unbounded
  import opened EmptinessFuel
  import opened Rules
  import opened Decision

  /** The same run with the extra steps left over, where no bound was met. */
  ghost predicate Carries(more: Ran, less: Ran, extra: nat) {
    !less.met ==> more == less.(left := More(less.left, extra))
  }

  lemma {:induction false} MoreForARun(p: Plan, q: Setting, path: Path, depth: nat, steps: nat, w: Setting, higher: nat, extra: nat)
    requires Wider(q, depth, w, higher)
    ensures Carries(Run(p, w, path, higher, More(steps, extra)), Run(p, q, path, depth, steps), extra)
    decreases steps, 1, p
  {
    hide Decide;
    hide Witness;
    hide ProductPlan;
    hide IsSubtypeRec;
    hide NarrowedRun;
    hide ProductRun;
    hide EmptyAndRegion;
    match p
    case Answer(_) =>
    case Ask(a, b, _, _, _) =>
      var first := IsSubtypeRec(a, b, q, path, depth, steps);
      MoreForAGoal(a, b, q, path, depth, steps, w, higher, extra);
      MoreForARun(Next(p, first.answer), q, path, depth, first.left, w, higher, extra);
    case Unfold(a, b, c, d, _, _, _) =>
      var within := path.(trail := path.trail + [Goal(a, b)]);
      var first := IsSubtypeRec(c, d, q, within, depth, steps);
      MoreForAGoal(c, d, q, within, depth, steps, w, higher, extra);
      MoreForARun(Next(p, first.answer), q, path, depth, first.left, w, higher, extra);
    case Narrowed(a, b, _, _, _) =>
      var first := NarrowedRun(a, b, q, path, depth, steps);
      MoreForANarrowedMeet(a, b, q, path, depth, steps, w, higher, extra);
      MoreForARun(Next(p, first.answer), q, path, depth, first.left, w, higher, extra);
    case Product(split, deeper, _, _, _) =>
      var first := ProductRun(split, deeper, q, path, depth, steps);
      MoreForAProduct(split, deeper, q, path, depth, steps, w, higher, extra);
      MoreForARun(Next(p, first.answer), q, path, depth, first.left, w, higher, extra);
    case Empties(t, _, _, _) =>
      var first := EmptyAndRegion(t, q, NOTHING_HELD, depth, steps);
      MoreSteps(t, q, NOTHING_HELD, depth, steps, w, higher, extra);
      MoreForARun(NextRead(p, first.verdict), q, path, depth, first.left, w, higher, extra);
    case Spent(_, no) =>
      if steps > 0 { MoreForARun(no, q, path, depth, steps, w, higher, extra); }
  }

  lemma {:induction false} MoreForANarrowedMeet(a: Schema, b: Schema, q: Setting, path: Path, depth: nat, steps: nat, w: Setting, higher: nat, extra: nat)
    requires Wider(q, depth, w, higher)
    ensures Carries(NarrowedRun(a, b, w, path, higher, More(steps, extra)), NarrowedRun(a, b, q, path, depth, steps), extra)
    decreases steps, 0, 3
  {
    hide Alike;
    hide IsSubtypeRec;
    hide ByRules;
    hide WitnessRun;
    hide Run;
    hide Decide;
    hide EmptyAndRegion;
    if path.narrowing {
      MoreForAGoal(a, b, q, path, depth, steps, w, higher, extra);
    } else {
      var given, more := Least(steps, q.respelling), Least(More(steps, extra), w.respelling);
      var own, least := IsSubtypeRec(a, b, w, Path([], true), 0, more), IsSubtypeRec(a, b, q, Path([], true), 0, given);
      assert NarrowedRun(a, b, q, path, depth, steps) == least.(left := steps);
      assert NarrowedRun(a, b, w, path, higher, More(steps, extra)) == own.(left := More(steps, extra));
      assert given + (more - given) == more;
      MoreForAGoal(a, b, q, Path([], true), 0, given, w, 0, more - given);
    }
  }

  lemma {:induction false} MoreForAProduct(split: Split, deeper: bool, q: Setting, path: Path, depth: nat, steps: nat, w: Setting, higher: nat, extra: nat)
    requires Wider(q, depth, w, higher)
    ensures Carries(ProductRun(split, deeper, w, path, higher, More(steps, extra)), ProductRun(split, deeper, q, path, depth, steps), extra)
    decreases steps, 0, 1
  {
    hide ProductPlan;
    hide Run;
    ProductsAlike(split, q, w);
    if !((deeper && depth >= q.maxDepth) || steps == 0) {
      MoreForARun(ProductPlan(split, q), q, path, if deeper then depth + 1 else depth, steps - 1, w, if deeper then higher + 1 else higher, extra);
    }
  }

  lemma {:induction false} MoreForTheRules(a: Schema, b: Schema, q: Setting, path: Path, depth: nat, steps: nat, w: Setting, higher: nat, extra: nat)
    requires Wider(q, depth, w, higher)
    ensures Carries(ByRules(a, b, w, path, higher, More(steps, extra)), ByRules(a, b, q, path, depth, steps), extra)
    decreases steps, 0, 1
  {
    hide Decide;
    hide RegionSet;
    hide PlacedByMembership;
    hide Run;
    var less, more := ByRules(a, b, q, path, depth, steps), ByRules(a, b, w, path, higher, More(steps, extra));
    if a != b && steps > 0 && depth < q.maxDepth {
      var p := Decide(a, b, q, path.trail == []);
      DecideAlike(a, b, q, w, path.trail == []);
      MoreForARun(p, q, path, depth + 1, steps - 1, w, higher + 1, extra);
      if !(RegionSet(b).Known? && RegionSet(a).Known?) && Goal(a, b) !in path.trail {
        assert less == Run(p, q, path, depth + 1, steps - 1).After(false, 1);
        assert more == Run(p, w, path, higher + 1, More(steps, extra) - 1).After(false, 1);
      }
    }
  }

  lemma WhatAWitnessReads(a: Schema, q: Setting)
    ensures Witness(a, q).Empties? ==> Witness(a, q).of == a
  {
    hide HoldsAValueShallowly;
    hide MissesAKind;
  }

  lemma MoreForAWitness(a: Schema, q: Setting, path: Path, depth: nat, steps: nat, w: Setting, higher: nat, extra: nat)
    requires Wider(q, depth, w, higher)
    ensures Carries(WitnessRun(a, w, path, higher, More(steps, extra)), WitnessRun(a, q, path, depth, steps), extra)
  {
    hide Witness;
    hide EmptyAndRegion;
    WitnessAlike(a, q, w);
    WhatAWitnessReads(a, q);
    MoreSteps(a, q, NOTHING_HELD, depth, steps, w, higher, extra);
  }

  /** Where no bound was met, wider bounds and more steps change no answer. */
  lemma {:induction false} MoreForAGoal(a: Schema, b: Schema, q: Setting, path: Path, depth: nat, steps: nat, w: Setting, higher: nat, extra: nat)
    requires Wider(q, depth, w, higher)
    ensures Carries(IsSubtypeRec(a, b, w, path, higher, More(steps, extra)), IsSubtypeRec(a, b, q, path, depth, steps), extra)
    decreases steps, 0, 2
  {
    hide ByRules, WitnessRun, IsSubtypeRec;
    MoreForTheRules(a, b, q, path, depth, steps, w, higher, extra);
    AGoalIs(a, b, q, path, depth, steps);
    AGoalIs(a, b, w, path, higher, More(steps, extra));
    var ruled := ByRules(a, b, q, path, depth, steps);
    if ruled.answer.Fails? { MoreForAWitness(a, q, path, depth, ruled.left, w, higher, extra); }
  }
}
