/** The calls of one run, goal by goal down a path: a goal answered by the trail has
    crossed a sequence or a set since it was assumed. */
module Trails {
  import opened Values
  import opened Oracles
  import opened Readings
  import opened Emptiness
  import opened Rules
  import opened Decision
  import opened Claims
  import opened Productivity

  /** One goal as the recursion reaches it. */
  datatype Call = Call(goal: Goal, path: Path, depth: nat, steps: nat)

  /** The run of a plan asks `next`: its questions in order, each answer leading on
      as the run does. */
  ghost predicate AskedInRun(p: Plan, q: Setting, path: Path, depth: nat, steps: nat, next: Call)
    decreases steps, p
  {
    match p
    case Answer(_) => false
    case Ask(a, b, _, _, _) =>
      var first := IsSubtypeRec(a, b, q, path, depth, steps);
      next == Call(Goal(a, b), path, depth, steps) || AskedInRun(Next(p, first.answer), q, path, depth, first.left, next)
    case Unfold(a, b, c, d, _, _, _) =>
      var within := path.(trail := path.trail + [Goal(a, b)]);
      var first := IsSubtypeRec(c, d, q, within, depth, steps);
      next == Call(Goal(c, d), within, depth, steps) || AskedInRun(Next(p, first.answer), q, path, depth, first.left, next)
    case Narrowed(a, b, _, _, _) =>
      var first := NarrowedRun(a, b, q, path, depth, steps);
      || next == (if path.narrowing then Call(Goal(a, b), path, depth, steps) else Call(Goal(a, b), Path([], true), 0, Least(steps, q.respelling)))
      || AskedInRun(Next(p, first.answer), q, path, depth, first.left, next)
    case Product(split, deeper, _, _, _) =>
      var first := ProductRun(split, deeper, q, path, depth, steps);
      || (!(deeper && depth >= q.maxDepth) && steps > 0
          && AskedInRun(ProductPlan(split, q), q, path, if deeper then depth + 1 else depth, steps - 1, next))
      || AskedInRun(Next(p, first.answer), q, path, depth, first.left, next)
    case Empties(t, _, _, _) =>
      var first := EmptyAndRegion(t, q, NOTHING_HELD, depth, steps);
      AskedInRun(NextRead(p, first.verdict), q, path, depth, first.left, next)
    case Spent(yes, no) => AskedInRun(if steps == 0 then yes else no, q, path, depth, steps, next)
  }

  /** A goal no reading answers before the rules, whose rules ask `next`. */
  ghost predicate Leads(call: Call, next: Call, q: Setting) {
    var Goal(a, b) := call.goal;
    && a != b && call.steps > 0 && call.depth < q.maxDepth && call.goal !in call.path.trail
    && !(RegionSet(a).Known? && RegionSet(b).Known?)
    && AskedInRun(Decide(a, b, q, call.path.trail == []), q, call.path, call.depth + 1, call.steps - 1, next)
  }

  ghost predicate Crosses(g: Goal, h: Goal, m: Meaning) { CrossesInto(g.sub, g.sup, h.sub, h.sup, m) }

  /** From one goal to the next: on the same trail, exposing no more or across a
      constructor; with the goal assumed, exposing less; or with nothing assumed. */
  ghost predicate Steps(g: Goal, path: Path, next: Call, m: Meaning) {
    || (next.path == path && (path.trail == [] || Exposure(next.goal.sub, next.goal.sup, m) <= Exposure(g.sub, g.sup, m) || Crosses(g, next.goal, m)))
    || (next.path.trail == path.trail + [g] && Exposure(next.goal.sub, next.goal.sup, m) < Exposure(g.sub, g.sup, m))
    || next.path.trail == []
  }

  lemma {:induction false} AnAskedGoalSteps(p: Plan, q: Setting, g: Goal, path: Path, depth: nat, steps: nat, next: Call, m: Meaning)
    requires q.defs == m.defs && Productive(p, g.sub, g.sup, path.trail == [], m)
    requires AskedInRun(p, q, path, depth, steps, next)
    ensures Steps(g, path, next, m)
    decreases steps, p, 1
  {
    hide Productive, IsSubtypeRec, EmptyAndRegion, NarrowedRun, ProductRun, ProductPlan, CrossesInto, Exposure, SplitCrosses, Steps;
    var alone := path.trail == [];
    match p
    case Answer(_) =>
    case Empties(t, _, _, _) =>
      WhatFollowsAReading(p, g.sub, g.sup, alone, m);
      var first := EmptyAndRegion(t, q, NOTHING_HELD, depth, steps);
      AnAskedGoalSteps(NextRead(p, first.verdict), q, g, path, depth, first.left, next, m);
    case Spent(yes, no) =>
      WhatFollowsASpentTest(p, g.sub, g.sup, alone, m);
      AnAskedGoalSteps(if steps == 0 then yes else no, q, g, path, depth, steps, next, m);
    case _ =>
      WhatAQuestionAsks(p, g.sub, g.sup, alone, m);
      WhatFollowsEachAnswer(p, g.sub, g.sup, alone, m);
      AQuestionSteps(p, q, g, path, depth, steps, next, m);
  }

  lemma {:induction false} AQuestionSteps(p: Plan, q: Setting, g: Goal, path: Path, depth: nat, steps: nat, next: Call, m: Meaning)
    requires q.defs == m.defs && (p.Ask? || p.Unfold? || p.Narrowed? || p.Product?)
    requires AskedProductively(p, g.sub, g.sup, path.trail == [], m)
    requires forall r :: Productive(Next(p, r), g.sub, g.sup, path.trail == [], m)
    requires AskedInRun(p, q, path, depth, steps, next)
    ensures Steps(g, path, next, m)
    decreases steps, p, 0
  {
    hide Productive, IsSubtypeRec, EmptyAndRegion, NarrowedRun, ProductRun, ProductPlan, CrossesInto, Exposure, SplitCrosses;
    match p
    case Ask(a, b, _, _, _) =>
      var first := IsSubtypeRec(a, b, q, path, depth, steps);
      if next != Call(Goal(a, b), path, depth, steps) { AnAskedGoalSteps(Next(p, first.answer), q, g, path, depth, first.left, next, m); }
    case Unfold(a, b, c, d, _, _, _) =>
      var within := path.(trail := path.trail + [Goal(a, b)]);
      var first := IsSubtypeRec(c, d, q, within, depth, steps);
      if next != Call(Goal(c, d), within, depth, steps) { AnAskedGoalSteps(Next(p, first.answer), q, g, path, depth, first.left, next, m); }
    case Narrowed(a, b, _, _, _) =>
      var first := NarrowedRun(a, b, q, path, depth, steps);
      if AskedInRun(Next(p, first.answer), q, path, depth, first.left, next) {
        AnAskedGoalSteps(Next(p, first.answer), q, g, path, depth, first.left, next, m);
      }
    case Product(split, deeper, _, _, _) =>
      var first := ProductRun(split, deeper, q, path, depth, steps);
      if AskedInRun(Next(p, first.answer), q, path, depth, first.left, next) {
        AnAskedGoalSteps(Next(p, first.answer), q, g, path, depth, first.left, next, m);
      } else {
        AProductIsProductive(split, q, g.sub, g.sup, path.trail == [], m);
        AnAskedGoalSteps(ProductPlan(split, q), q, g, path, if deeper then depth + 1 else depth, steps - 1, next, m);
      }
  }

  // ---- The calls of a path, from a root.

  ghost predicate IsPath(calls: seq<Call>, q: Setting) {
    calls != [] && calls[0].path.trail == [] && forall i :: 0 <= i < |calls| - 1 ==> Leads(calls[i], calls[i + 1], q)
  }

  /** The call at `i` assumes its goal for the next. */
  ghost predicate Assumes(calls: seq<Call>, i: nat, g: Goal) {
    i + 1 < |calls| && calls[i].goal == g && calls[i + 1].path.trail == calls[i].path.trail + [g]
  }

  ghost predicate CrossedAt(calls: seq<Call>, k: nat, m: Meaning) { k + 1 < |calls| && Crosses(calls[k].goal, calls[k + 1].goal, m) }

  ghost predicate CrossedSince(calls: seq<Call>, i: nat, m: Meaning) { exists k: nat :: i < k && CrossedAt(calls, k, m) }

  ghost predicate AssumedAt(calls: seq<Call>, i: nat, g: Goal, now: Goal, m: Meaning) {
    Assumes(calls, i, g) && (CrossedSince(calls, i, m) || Exposure(now.sub, now.sup, m) < Exposure(g.sub, g.sup, m))
  }

  lemma OneMoreCall(calls: seq<Call>, i: nat, g: Goal, m: Meaning)
    requires |calls| > 1
    requires var last := |calls| - 1; AssumedAt(calls[..last], i, g, calls[last - 1].goal, m)
    requires var last := |calls| - 1;
      CrossedAt(calls, last - 1, m)
      || Exposure(calls[last].goal.sub, calls[last].goal.sup, m) <= Exposure(calls[last - 1].goal.sub, calls[last - 1].goal.sup, m)
    ensures AssumedAt(calls, i, g, calls[|calls| - 1].goal, m)
  {
    hide Crosses, Exposure;
    var last := |calls| - 1;
    var before := calls[..last];
    assert Assumes(calls, i, g);
    if CrossedSince(before, i, m) {
      var k: nat :| i < k && CrossedAt(before, k, m);
      assert CrossedAt(calls, k, m);
    } else if CrossedAt(calls, last - 1, m) {
      assert i < last - 1;
    }
  }

  /** Every goal assumed was assumed by a call of the path, and since then the path
      has crossed a constructor or exposes less. */
  lemma {:induction false} EveryGoalAssumed(calls: seq<Call>, q: Setting, g: Goal, m: Meaning) returns (i: nat)
    requires q.defs == m.defs && IsPath(calls, q) && g in calls[|calls| - 1].path.trail
    ensures AssumedAt(calls, i, g, calls[|calls| - 1].goal, m)
    decreases |calls|
  {
    hide Crosses, Exposure, AskedInRun, Decide, RegionSet;
    var last := |calls| - 1;
    var before := calls[..last];
    var call, next := calls[last - 1], calls[last];
    assert Leads(calls[last - 1], calls[last - 1 + 1], q);
    ALedCallSteps(call, next, q, m);
    assert IsPath(before, q) by {
      forall j | 0 <= j < |before| - 1 ensures Leads(before[j], before[j + 1], q) { assert Leads(calls[j], calls[j + 1], q); }
    }
    if g in call.path.trail {
      i := EveryGoalAssumed(before, q, g, m);
      OneMoreCall(calls, i, g, m);
    } else {
      i := last - 1;
    }
  }

  lemma ALedCallSteps(call: Call, next: Call, q: Setting, m: Meaning)
    requires q.defs == m.defs && Leads(call, next, q)
    ensures Steps(call.goal, call.path, next, m)
  {
    hide Steps, AskedInRun, Decide, RegionSet, Productive;
    TheRulesAreProductive(call.goal.sub, call.goal.sup, q, call.path.trail == [], m);
    AnAskedGoalSteps(Decide(call.goal.sub, call.goal.sup, q, call.path.trail == []), q, call.goal, call.path, call.depth + 1, call.steps - 1, next, m);
  }

  /** A goal answered by its own hypothesis has crossed a sequence or a set since it
      was assumed. */
  lemma AGoalMetAgainHasCrossed(calls: seq<Call>, q: Setting, m: Meaning) returns (i: nat)
    requires q.defs == m.defs && IsPath(calls, q)
    requires var last := calls[|calls| - 1]; last.goal in last.path.trail
    ensures Assumes(calls, i, calls[|calls| - 1].goal) && CrossedSince(calls, i, m)
  {
    hide Exposure, Crosses, Leads, Assumes, CrossedSince;
    i := EveryGoalAssumed(calls, q, calls[|calls| - 1].goal, m);
  }
}
