/** The rules end without their bounds: what a goal asks falls within a finite
    space, and an unfolding assumes a pair not assumed before, so some budget, depth
    and allowance is never used up, and past it every answer is the same. */
module DecisionEnds {
  import opened Verdicts
  import opened Schemas
  import opened Oracles
  import opened Readings
  import opened Shapes
  import opened Emptiness
  import opened Unbounded
  import opened EmptinessEnds
  import opened Closure
  import opened Rules
  import opened RulesFall
  import opened Decision
  import opened DecisionFuel

  // ---- Runs that meet no bound.

  ghost predicate RanIn(r: Ran, steps: int, n: int) { !r.met && steps <= r.left + n }

  ghost predicate RunEnds(plan: Plan, q: Setting, path: Path, n: int) {
    forall w: Setting, depth: nat, steps: nat | Alike(q, w) && Room(w, depth, steps, n) :: RanIn(Run(plan, w, path, depth, steps), steps, n)
  }

  ghost predicate GoalEnds(a: Schema, b: Schema, q: Setting, path: Path, n: int) {
    forall w: Setting, depth: nat, steps: nat | Alike(q, w) && Room(w, depth, steps, n) :: RanIn(IsSubtypeRec(a, b, w, path, depth, steps), steps, n)
  }

  lemma RunEndsWithMore(plan: Plan, q: Setting, path: Path, n: nat, more: nat)
    requires RunEnds(plan, q, path, n) && n <= more
    ensures RunEnds(plan, q, path, more)
  {
    hide Run;
  }

  /** Every way a plan may go on. */
  ghost predicate NextEnds(plan: Plan, q: Setting, path: Path, n: int)
    requires plan.Ask? || plan.Unfold? || plan.Narrowed? || plan.Product?
  {
    RunEnds(plan.holds, q, path, n) && RunEnds(plan.fails, q, path, n) && RunEnds(plan.unknown, q, path, n)
  }

  lemma AnAskEnds(plan: Plan, q: Setting, path: Path, first: nat, rest: nat)
    requires plan.Ask? || plan.Unfold?
    requires plan.Ask? ==> GoalEnds(plan.sub, plan.sup, q, path, first)
    requires plan.Unfold? ==> GoalEnds(plan.defSub, plan.defSup, q, path.(trail := path.trail + [Goal(plan.sub, plan.sup)]), first)
    requires NextEnds(plan, q, path, rest)
    ensures RunEnds(plan, q, path, first + rest)
  {
    hide IsSubtypeRec;
    var within := if plan.Ask? then path else path.(trail := path.trail + [Goal(plan.sub, plan.sup)]);
    var (a, b) := if plan.Ask? then (plan.sub, plan.sup) else (plan.defSub, plan.defSup);
    var n := first + rest;
    forall w: Setting, depth: nat, steps: nat | Alike(q, w) && Room(w, depth, steps, n) ensures RanIn(Run(plan, w, path, depth, steps), steps, n) {
      assert Room(w, depth, steps, first);
      var asked := IsSubtypeRec(a, b, w, within, depth, steps);
      assert RanIn(asked, steps, first);
      assert Room(w, depth, asked.left, rest);
      assert RanIn(Run(Next(plan, asked.answer), w, path, depth, asked.left), asked.left, rest);
    }
  }

  /** A narrowed meet, on its own trail where no other is being asked. */
  lemma ANarrowedMeetEnds(plan: Plan, q: Setting, path: Path, first: nat, rest: nat)
    requires plan.Narrowed? && GoalEnds(plan.sub, plan.sup, q, if path.narrowing then path else Path([], true), first)
    requires NextEnds(plan, q, path, rest)
    ensures RunEnds(plan, q, path, first + rest)
  {
    hide IsSubtypeRec;
    var n := first + rest;
    forall w: Setting, depth: nat, steps: nat | Alike(q, w) && Room(w, depth, steps, n) ensures RanIn(Run(plan, w, path, depth, steps), steps, n) {
      assert Room(w, depth, steps, first) && Room(w, 0, Least(steps, w.respelling), first);
      var asked := NarrowedRun(plan.sub, plan.sup, w, path, depth, steps);
      assert RanIn(asked, steps, first);
      assert Room(w, depth, asked.left, rest);
      assert RanIn(Run(Next(plan, asked.answer), w, path, depth, asked.left), asked.left, rest);
    }
  }

  lemma AProductEnds(plan: Plan, q: Setting, path: Path, first: nat, rest: nat)
    requires plan.Product? && RunEnds(ProductPlan(plan.split, q), q, path, first)
    requires NextEnds(plan, q, path, rest)
    ensures RunEnds(plan, q, path, 1 + first + rest)
  {
    hide IsSubtypeRec, ProductPlan;
    var n := 1 + first + rest;
    forall w: Setting, depth: nat, steps: nat | Alike(q, w) && Room(w, depth, steps, n) ensures RanIn(Run(plan, w, path, depth, steps), steps, n) {
      ProductsAlike(plan.split, q, w);
      var level := if plan.deeper then depth + 1 else depth;
      assert Room(w, level, steps - 1, first);
      assert RanIn(Run(ProductPlan(plan.split, w), w, path, level, steps - 1), steps - 1, first);
      var asked := ProductRun(plan.split, plan.deeper, w, path, depth, steps);
      assert Room(w, depth, asked.left, rest);
      assert RanIn(Run(Next(plan, asked.answer), w, path, depth, asked.left), asked.left, rest);
    }
  }

  lemma AReadingEnds(plan: Plan, q: Setting, path: Path, rest: nat)
    requires plan.Empties? && RunEnds(NextRead(plan, Limit(plan.of, q)), q, path, rest)
    ensures RunEnds(plan, q, path, Enough(plan.of, q) + rest)
  {
    hide IsSubtypeRec, EmptyAndRegion, Enough, Limit;
    var n := Enough(plan.of, q) + rest;
    forall w: Setting, depth: nat, steps: nat | Alike(q, w) && Room(w, depth, steps, n) ensures RanIn(Run(plan, w, path, depth, steps), steps, n) {
      WithRoomItReadsTheLimit(plan.of, q, w, depth, steps);
      var read := EmptyAndRegion(plan.of, w, NOTHING_HELD, depth, steps);
      assert Room(w, depth, read.left, rest);
      assert RanIn(Run(NextRead(plan, read.verdict), w, path, depth, read.left), read.left, rest);
    }
  }

  lemma ASpentTestEnds(plan: Plan, q: Setting, path: Path, rest: nat)
    requires plan.Spent? && RunEnds(plan.no, q, path, rest)
    ensures RunEnds(plan, q, path, 1 + rest)
  {
    hide IsSubtypeRec;
    var n := 1 + rest;
    forall w: Setting, depth: nat, steps: nat | Alike(q, w) && Room(w, depth, steps, n) ensures RanIn(Run(plan, w, path, depth, steps), steps, n) {
      assert Room(w, depth, steps, rest);
    }
  }

  /** The rules' plan run, the answer's witness read. */
  lemma AGoalsPlanEnds(a: Schema, b: Schema, q: Setting, path: Path, rest: nat)
    requires Goal(a, b) in path.trail || RunEnds(Decide(a, b, q, path.trail == []), q, path, rest)
    ensures GoalEnds(a, b, q, path, 1 + rest + Enough(a, q))
  {
    hide IsSubtypeRec, Enough, Limit;
    var n := 1 + rest + Enough(a, q);
    forall w: Setting, depth: nat, steps: nat | Alike(q, w) && Room(w, depth, steps, n) ensures RanIn(IsSubtypeRec(a, b, w, path, depth, steps), steps, n) {
      TheRulesEndFirst(a, b, q, path, rest, w, depth, steps);
      var ruled := ByRules(a, b, w, path, depth, steps);
      AWitnessEnds(a, q, w, path, depth, ruled.left);
      AGoalIs(a, b, w, path, depth, steps);
    }
  }

  lemma TheRulesEndFirst(a: Schema, b: Schema, q: Setting, path: Path, rest: nat, w: Setting, depth: nat, steps: nat)
    requires Goal(a, b) in path.trail || RunEnds(Decide(a, b, q, path.trail == []), q, path, rest)
    requires Alike(q, w) && Room(w, depth, steps, 1 + rest)
    ensures RanIn(ByRules(a, b, w, path, depth, steps), steps, 1 + rest)
  {
    hide Decide, RegionSet, PlacedByMembership, Run;
    if a != b && !(RegionSet(b).Known? && RegionSet(a).Known?) && Goal(a, b) !in path.trail {
      var plan := Decide(a, b, q, path.trail == []);
      DecideAlike(a, b, q, w, path.trail == []);
      assert Room(w, depth + 1, steps - 1, rest);
      assert RanIn(Run(plan, w, path, depth + 1, steps - 1), steps - 1, rest);
      assert ByRules(a, b, w, path, depth, steps) == Run(plan, w, path, depth + 1, steps - 1).After(false, 1);
    }
  }

  lemma AWitnessEnds(a: Schema, q: Setting, w: Setting, path: Path, depth: nat, steps: nat)
    requires Alike(q, w) && Room(w, depth, steps, Enough(a, q))
    ensures RanIn(WitnessRun(a, w, path, depth, steps), steps, Enough(a, q))
  {
    hide Witness, EmptyAndRegion, Enough, Limit;
    WitnessAlike(a, q, w);
    WhatAWitnessReads(a, q);
    WithRoomItReadsTheLimit(a, q, w, depth, steps);
  }

  // ---- The pairs that are left to assume.

  ghost function Subjects(p: Space): set<Schema> { Terms(p.alphabet, p.most) + set ms | ms in Meets(p) :: Intersection(ms) }

  ghost function Pairs(p: Space): set<Goal> { set a, b | a in Subjects(p) && b in Terms(p.alphabet, p.most) :: Goal(a, b) }

  ghost function Unassumed(path: Path, p: Space): set<Goal> { Pairs(p) - set g | g in path.trail }

  lemma APairIsListed(a: Schema, b: Schema, p: Space)
    requires Pair(a, b, p)
    ensures Goal(a, b) in Pairs(p)
  {
    hide Terms, Meets, Within;
    ATermIsListed(b, p.alphabet, p.most);
    if Small(a, p) {
      ATermIsListed(a, p.alphabet, p.most);
    } else {
      AMeetIsListed(a.members, p);
      assert a == Intersection(a.members);
    }
  }

  lemma AssumingLeavesFewer(g: Goal, path: Path, p: Space)
    requires Pair(g.sub, g.sup, p) && g !in path.trail
    ensures |Unassumed(path.(trail := path.trail + [g]), p)| < |Unassumed(path, p)|
  {
    hide Pairs, Pair;
    APairIsListed(g.sub, g.sup, p);
    assert g in Unassumed(path, p);
    assert Unassumed(path.(trail := path.trail + [g]), p) == Unassumed(path, p) - {g};
  }

  // ---- Every goal ends.

  /** What each reading answers with no bound in its way. */
  ghost function LimitsOf(q: Setting): Reader { s => Limit(s, q) }

  lemma {:induction false} AGoalEnds(a: Schema, b: Schema, q: Setting, path: Path, p: Space) returns (n: nat)
    requires Pair(a, b, p) && SmallDefinitions(q, p)
    ensures GoalEnds(a, b, q, path, n)
    decreases if path.narrowing then 0 else 1, |Unassumed(path, p)|, Size(a) + Size(b), Size(b) + 2
  {
    hide Decide, Unassumed, Pair, SmallDefinitions, Falls, GoalEnds, RunEnds, Enough, Limit;
    var rest := 0;
    if Goal(a, b) !in path.trail {
      var alone := path.trail == [];
      TheRulesFall(a, b, q, alone, p, LimitsOf(q));
      rest := APlanEnds(Decide(a, b, q, alone), q, path, FrameOf(a, b, p, LimitsOf(q)));
    }
    AGoalsPlanEnds(a, b, q, path, rest);
    n := 1 + rest + Enough(a, q);
  }

  lemma {:induction false} APlanEnds(plan: Plan, q: Setting, path: Path, f: Frame) returns (n: nat)
    requires Falls(plan, f) && f.read == LimitsOf(q) && SmallDefinitions(q, f.space) && Pair(f.goal.sub, f.goal.sup, f.space) && f.goal !in path.trail
    ensures RunEnds(plan, q, path, n)
    decreases if path.narrowing then 0 else 1, |Unassumed(path, f.space)|, f.size, f.branches, plan
  {
    hide Unassumed, Pair, GoalEnds, RunEnds, Enough, Limit, ProductPlan, SplitFits, Run, Size;
    match plan
    case Answer(_) =>
      n := 0;
      AnAnswerEnds(plan, q, path);
    case Empties(t, _, _, _) =>
      var rest := APlanEnds(NextRead(plan, Limit(t, q)), q, path, f);
      AReadingEnds(plan, q, path, rest);
      n := Enough(t, q) + rest;
    case Spent(_, no) =>
      var rest := APlanEnds(no, q, path, f);
      ASpentTestEnds(plan, q, path, rest);
      n := 1 + rest;
    case Ask(a, b, _, _, _) =>
      var first := AGoalEnds(a, b, q, path, f.space);
      var rest := EveryNextEnds(plan, q, path, f);
      AnAskEnds(plan, q, path, first, rest);
      n := first + rest;
    case Unfold(a, b, c, d, _, _, _) =>
      AssumingLeavesFewer(Goal(a, b), path, f.space);
      var first := AGoalEnds(c, d, q, path.(trail := path.trail + [Goal(a, b)]), f.space);
      var rest := EveryNextEnds(plan, q, path, f);
      AnAskEnds(plan, q, path, first, rest);
      n := first + rest;
    case Narrowed(a, b, _, _, _) =>
      var first := AGoalEnds(a, b, q, if path.narrowing then path else Path([], true), f.space);
      var rest := EveryNextEnds(plan, q, path, f);
      ANarrowedMeetEnds(plan, q, path, first, rest);
      n := first + rest;
    case Product(split, _, _, _, _) =>
      var inner := f.(branches := |split.branches|);
      AProductFalls(split, q, inner);
      var first := APlanEnds(ProductPlan(split, q), q, path, inner);
      var rest := EveryNextEnds(plan, q, path, f);
      AProductEnds(plan, q, path, first, rest);
      n := 1 + first + rest;
  }

  lemma AnAnswerEnds(plan: Plan, q: Setting, path: Path)
    requires plan.Answer?
    ensures RunEnds(plan, q, path, 0)
  {
    hide IsSubtypeRec, NarrowedRun, ProductRun, EmptyAndRegion;
  }

  lemma {:induction false} EveryNextEnds(plan: Plan, q: Setting, path: Path, f: Frame) returns (n: nat)
    requires plan.Ask? || plan.Unfold? || plan.Narrowed? || plan.Product?
    requires Falls(plan, f) && f.read == LimitsOf(q) && SmallDefinitions(q, f.space) && Pair(f.goal.sub, f.goal.sup, f.space) && f.goal !in path.trail
    ensures NextEnds(plan, q, path, n)
    decreases if path.narrowing then 0 else 1, |Unassumed(path, f.space)|, f.size, f.branches, plan, 0
  {
    hide Unassumed, Pair, RunEnds, Limit, SplitFits, Below;
    var holds := APlanEnds(plan.holds, q, path, f);
    var fails := APlanEnds(plan.fails, q, path, f);
    var unknown := APlanEnds(plan.unknown, q, path, f);
    n := holds + fails + unknown;
    RunEndsWithMore(plan.holds, q, path, holds, n);
    RunEndsWithMore(plan.fails, q, path, fails, n);
    RunEndsWithMore(plan.unknown, q, path, unknown, n);
  }

  /** Every goal ends on every path, whatever the definitions. */
  lemma EveryGoalEnds(a: Schema, b: Schema, q: Setting, path: Path) returns (n: nat)
    ensures GoalEnds(a, b, q, path, n)
  {
    hide GoalEnds;
    var terms := [a, b] + q.defs;
    var p := SpaceOf(terms);
    assert a in terms && b in terms && forall d <- q.defs :: d in terms;
    ASmallTermIsASubject(a, p);
    n := AGoalEnds(a, b, q, path, p);
  }

  /** Termination rests on no bound: past some depth, allowance and steps, none is
      met. */
  lemma TheRulesEnd(a: Schema, b: Schema, q: Setting) returns (n: nat)
    ensures forall w: Setting, steps: nat | Alike(q, w) && n <= w.maxDepth && n <= w.respelling && n <= steps ::
      !IsSubtypeRec(a, b, w, ROOT, OUTSIDE, steps).met
  {
    hide IsSubtypeRec;
    n := EveryGoalEnds(a, b, q, ROOT);
    forall w: Setting, steps: nat | Alike(q, w) && n <= w.maxDepth && n <= w.respelling && n <= steps ensures !IsSubtypeRec(a, b, w, ROOT, OUTSIDE, steps).met {
      assert Room(w, 0, steps, n);
    }
  }

  // ---- The answer no bound stops.

  lemma SomeRoomEnds(a: Schema, b: Schema, q: Setting)
    ensures exists n: nat :: GoalEnds(a, b, q, ROOT, n)
  {
    hide GoalEnds;
    var n := EveryGoalEnds(a, b, q, ROOT);
  }

  /** The room a question needs. */
  ghost function Needs(a: Schema, b: Schema, q: Setting): (n: nat)
    ensures GoalEnds(a, b, q, ROOT, n)
  {
    SomeRoomEnds(a, b, q);
    var n: nat :| GoalEnds(a, b, q, ROOT, n);
    n
  }

  ghost function TheAnswer(a: Schema, b: Schema, q: Setting): Relation {
    IsSubtypeRec(a, b, Bounding(q, Needs(a, b, q)), ROOT, OUTSIDE, Needs(a, b, q)).answer
  }

  lemma WithRoomItIsTheAnswer(a: Schema, b: Schema, q: Setting, w: Setting, steps: nat)
    requires Alike(q, w) && Room(w, 0, steps, Needs(a, b, q))
    ensures var r := IsSubtypeRec(a, b, w, ROOT, OUTSIDE, steps); RanIn(r, steps, Needs(a, b, q)) && r.answer == TheAnswer(a, b, q)
  {
    hide IsSubtypeRec;
    var n := Needs(a, b, q);
    assert Room(Bounding(q, n), 0, n, n);
    MoreForAGoal(a, b, Bounding(q, n), ROOT, OUTSIDE, n, w, 0, steps - n);
  }

  /** A question no bound stopped was answered as it is with no bounds. */
  lemma AnUnstoppedAnswerIsTheAnswer(a: Schema, b: Schema, q: Setting, depth: nat, steps: nat)
    requires !IsSubtypeRec(a, b, q, ROOT, depth, steps).met
    ensures IsSubtypeRec(a, b, q, ROOT, depth, steps).answer == TheAnswer(a, b, q)
  {
    hide IsSubtypeRec, Needs;
    var n := Needs(a, b, q);
    var w := q.(maxDepth := q.maxDepth + n, respelling := q.respelling + n);
    WithRoomItIsTheAnswer(a, b, q, w, steps + n);
    MoreForAGoal(a, b, q, ROOT, depth, steps, w, 0, n);
  }
}
