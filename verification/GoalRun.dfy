/** The goal recursion on a query's own budget, trail and memos. Each call gives
    every stack back as it stood and answers what the recursion over values does,
    whatever the memos hold. */
module GoalRun {
  import opened Verdicts
  import opened Kinds
  import opened Schemas
  import opened Oracles
  import opened Readings
  import opened KindWalk
  import opened Disjointness
  import opened Tables
  import opened Shapes
  import opened Emptiness
  import opened Rules
  import opened Decision
  import opened Runs
  import opened Contexts
  import opened EmptinessRun

  /** The most members whose answers at a root are kept. */
  const MEMBERS_HELD: nat := 64

  /** A goal is asked with a level for each hypothesis, and no definition being
      resolved. */
  ghost predicate Ready(cx: Cx)
    reads cx, cx.budget, cx.thread
  {
    && cx.Valid() && cx.Open() == NOTHING_HELD
    && |cx.trail| <= cx.budget.depth <= cx.q.maxDepth
  }

  /** A rule runs inside a level of its own: at the first, nothing is assumed. */
  ghost predicate Descended(cx: Cx)
    reads cx, cx.budget, cx.thread
  {
    Ready(cx) && |cx.trail| < cx.budget.depth
  }

  /** The path and the level as the call found them. */
  twostate predicate Same(cx: Cx)
    reads cx, cx.budget, cx.thread
  {
    cx.Path() == old(cx.Path()) && cx.budget.depth == old(cx.budget.depth) && cx.budget.steps <= old(cx.budget.steps)
  }

  /** The call ran `r`. */
  twostate predicate RanAs(cx: Cx, r: Ran, answer: Relation)
    reads cx, cx.budget, cx.thread
  {
    && answer == r.answer && cx.budget.steps == r.left
    && Same(cx) && Leads(old(cx.State()), cx.State(), r.met, r.work)
  }

  /** A step, a bound and a reading keep what the thread holds. */
  twostate lemma CountingKeepsValid(t: Thread)
    requires old(t.Valid()) && old(t.boundsMet) <= t.boundsMet
    requires t.queries == old(t.queries) && t.narrowing <= t.queries && t.asked == old(t.asked) && t.held == old(t.held)
    requires t.settings == old(t.settings) && t.began == old(t.began)
    ensures t.Valid()
  {
    hide IsSubtypeRec;
    hide KeptRightly;
    forall k | k in t.asked ensures t.Recalled(k) { assert old(t.Recalled(k)); }
  }

  method IsSubtypeRun(a: Schema, b: Schema, cx: Cx) returns (answer: Relation)
    requires Ready(cx)
    modifies cx, cx.budget, cx.thread
    ensures Ready(cx)
    ensures RanAs(cx, IsSubtypeRec(a, b, cx.q, old(cx.Path()), old(cx.budget.depth), old(cx.budget.steps)), answer)
    decreases cx.budget.steps, 0, 2
  {
    hide ByRules;
    hide WitnessRun;
    answer := ByRulesRun(a, b, cx);
    if answer.Fails? { answer := WitnessedRun(a, cx); }
  }

  /** A refutation read against the subject. */
  method WitnessedRun(a: Schema, cx: Cx) returns (answer: Relation)
    requires Ready(cx)
    modifies cx, cx.budget, cx.thread
    ensures Ready(cx)
    ensures RanAs(cx, WitnessRun(a, cx.q, old(cx.Path()), old(cx.budget.depth), old(cx.budget.steps)), answer)
  {
    hide IsSubtypeRec;
    hide EmptyAndRegion;
    hide HoldsAValueShallowly;
    hide MissesAKind;
    if HoldsAValueShallowly(a) || a.Union? || (a.Complement? && MissesAKind(a.inner, cx.q)) { return Relation.Fails; }
    var verdict := VerdictRun(a, cx);
    CountingKeepsValid(cx.thread);
    return OfMismatch(verdict);
  }

  /** Reflexivity, a step, the scalar fragment, the hypotheses, and the rules one
      level down. */
  method ByRulesRun(a: Schema, b: Schema, cx: Cx) returns (answer: Relation)
    requires Ready(cx)
    modifies cx, cx.budget, cx.thread
    ensures Ready(cx)
    ensures RanAs(cx, ByRules(a, b, cx.q, old(cx.Path()), old(cx.budget.depth), old(cx.budget.steps)), answer)
    decreases cx.budget.steps, 0, 1
  {
    hide IsSubtypeRec;
    hide Decide;
    hide Run;
    hide RegionSet;
    hide PlacedByMembership;
    hide Leads;
    hide Ready;
    ghost var start := cx.State();
    LeadsNowhere(start);
    if a == b { return Relation.Holds; }
    var spent := TakeAStep(cx);
    if !spent { return Proven(PlacedByMembership(a, b)); }
    if RegionSet(b).Known? && RegionSet(a).Known? {
      return Decided(RegionSet(a).region.SubsetOf(RegionSet(b).region));
    }
    if Goal(a, b) in cx.trail { return Relation.Holds; }
    ghost var mid := cx.State();
    if cx.budget.depth >= cx.q.maxDepth {
      StopAtABound(cx);
      LeadsOn(start, mid, cx.State(), false, 1, true, 0);
      return Relation.Unknown;
    }
    answer := DescendedRun(a, b, cx);
    ghost var ruled := Run(Decide(a, b, cx.q, mid.path.trail == []), cx.q, mid.path, mid.depth + 1, mid.steps);
    LeadsOn(start, mid, cx.State(), false, 1, ruled.met, ruled.work);
  }

  /** A step charged, or a bound met. */
  method TakeAStep(cx: Cx) returns (spent: bool)
    requires Ready(cx)
    modifies cx.budget, cx.thread
    ensures Ready(cx) && Same(cx) && (old(|cx.trail| < cx.budget.depth) ==> Descended(cx))
    ensures spent == (old(cx.budget.steps) > 0) && cx.budget.steps == if spent then old(cx.budget.steps) - 1 else 0
    ensures Leads(old(cx.State()), cx.State(), !spent, if spent then 1 else 0)
  {
    hide IsSubtypeRec;
    spent := cx.Spend();
    CountingKeepsValid(cx.thread);
  }

  /** The rules run one level down, and the level given back. */
  method DescendedRun(a: Schema, b: Schema, cx: Cx) returns (answer: Relation)
    requires Ready(cx) && cx.budget.depth < cx.q.maxDepth
    modifies cx, cx.budget, cx.thread
    ensures Ready(cx)
    ensures RanAs(cx, Run(Decide(a, b, cx.q, old(cx.trail) == []), cx.q, old(cx.Path()), old(cx.budget.depth) + 1, old(cx.budget.steps)), answer)
    decreases cx.budget.steps, 4
  {
    hide IsSubtypeRec;
    hide Decide;
    hide Run;
    var depth := cx.budget.depth;
    cx.budget.depth := depth + 1;
    answer := DecideRun(a, b, cx);
    cx.budget.depth := depth;
  }

  /** The tables, the universe and a pushed complement first, then the shapes, and
      the lattice bounds where they decline. */
  method DecideRun(a: Schema, b: Schema, cx: Cx) returns (answer: Relation)
    requires Descended(cx)
    modifies cx, cx.budget, cx.thread
    ensures Descended(cx)
    ensures RanAs(cx, Run(Decide(a, b, cx.q, old(cx.trail) == []), cx.q, old(cx.Path()), old(cx.budget.depth), old(cx.budget.steps)), answer)
    decreases cx.budget.steps, 3
  {
    hide Leads;
    hide Ready;
    hide Descended;
    hide IsSubtypeRec;
    hide Run;
    hide ByShape;
    hide Bounded;
    hide RegionSet;
    hide FiniteSetBelow;
    hide PushedComplementIsPlaced;
    ghost var start, q, path, depth := cx.State(), cx.q, cx.Path(), cx.budget.depth;
    LeadsNowhere(start);
    ghost var p := Decide(a, b, q, path.trail == []);
    var table := if FiniteSet(a).Some? && FiniteSet(b).Some?
                 then FiniteSetBelow(FiniteSet(a).value, FiniteSet(b).value, cx.q.oracle) else Relation.Unknown;
    if !table.Unknown? || RegionSet(b) == Known(ALL) || (a.Complement? && PushedComplementIsPlaced(a.inner, b, cx.q.gate)) {
      assert p.Answer?;
      AnAnswerIsRun(p, q, path, depth, cx.budget.steps);
      return if table.Unknown? then Relation.Holds else table;
    }
    RunOfTwoReadings(ByShape(a, b, q, path.trail == []), Bounded(a, b, q), q, path, depth, cx.budget.steps);
    answer := ByShapeRun(a, b, cx);
    if answer.Unknown? {
      ghost var first, mid := Run(ByShape(a, b, q, path.trail == []), q, path, depth, start.steps), cx.State();
      ghost var second := Run(Bounded(a, b, q), q, path, depth, mid.steps);
      answer := RunPlan(Bounded(a, b, cx.q), cx);
      LeadsOn(start, mid, cx.State(), first.met, first.work, second.met, second.work);
    }
  }

  method ByShapeRun(a: Schema, b: Schema, cx: Cx) returns (answer: Relation)
    requires Descended(cx)
    modifies cx, cx.budget, cx.thread
    ensures Descended(cx)
    ensures RanAs(cx, Run(ByShape(a, b, cx.q, old(cx.trail) == []), cx.q, old(cx.Path()), old(cx.budget.depth), old(cx.budget.steps)), answer)
    decreases cx.budget.steps, 2
  {
    hide Leads;
    hide Ready;
    hide Descended;
    hide IsSubtypeRec;
    hide Run;
    hide EachBelow;
    hide BelowEach;
    hide UnionBelow;
    hide BelowAUnion;
    hide Unstructured;
    hide SpillsPastATable;
    hide ByShapeOfAMeet;
    if a.Union? {
      answer := UnionBelowRun(a, b, cx);
    } else if b.Intersection? {
      answer := BelowEachMemberRun(a, b.members, cx);
    } else if b.Union? && !a.Intersection? {
      ghost var spills := if SpillsPastATable(a, b, cx.q) then FAILS else DECLINES;
      ghost var start, path, depth, steps := cx.State(), cx.Path(), cx.budget.depth, cx.budget.steps;
      RunOfTwoReadings(OrElse(BelowAUnion(a, b, cx.q), spills), Unstructured(a, b, cx.q), cx.q, path, depth, steps);
      RunOfTwoReadings(BelowAUnion(a, b, cx.q), spills, cx.q, path, depth, steps);
      answer := BelowAUnionRun(a, b, cx);
      AnAnswerIsRun(spills, cx.q, cx.Path(), depth, cx.budget.steps);
      if answer.Unknown? && SpillsPastATable(a, b, cx.q) { answer := Relation.Fails; }
      if answer.Unknown? {
        ghost var first, mid := Run(BelowAUnion(a, b, cx.q), cx.q, path, depth, steps), cx.State();
        ghost var second := Run(Unstructured(a, b, cx.q), cx.q, path, depth, mid.steps);
        answer := RunPlan(Unstructured(a, b, cx.q), cx);
        LeadsOn(start, mid, cx.State(), first.met, first.work, second.met, second.work);
      }
    } else {
      answer := RunPlan(ByShape(a, b, cx.q, cx.trail == []), cx);
    }
  }

  lemma ItIsAfterNothing(r: Ran)
    ensures r == r.After(false, 0)
  {
  }

  // ---- The loops over members and branches, and what a root keeps of them.

  method UnionBelowRun(a: Schema, b: Schema, cx: Cx) returns (answer: Relation)
    requires Descended(cx) && a.Union?
    modifies cx, cx.budget, cx.thread
    ensures Descended(cx)
    ensures RanAs(cx, Run(UnionBelow(a, b, cx.q), cx.q, old(cx.Path()), old(cx.budget.depth), old(cx.budget.steps)), answer)
    decreases cx.budget.steps, 1, 1
  {
    hide Leads;
    hide Ready;
    hide Descended;
    LeadsNowhere(cx.State());
    hide IsSubtypeRec;
    hide Run;
    hide EachBelow;
    hide TablesDisjoint;
    if b.Complement? && a.members != [] && a.members[0].Literal? && (b.inner.Literal? || b.inner.Union?) {
      var apart := TablesDisjoint(a, b.inner, cx.q.oracle);
      if apart.Some? {
        AnAnswerIsRun(Answer(Decided(apart.value)), cx.q, cx.Path(), cx.budget.depth, cx.budget.steps);
        return Decided(apart.value);
      }
    }
    answer := EachBelowRun(a.members, b, cx);
  }

  /** The pair of one position asked, and the answer joined to the record where the
      root keeps it: the pairs placed, or the branches refuted. */
  method AskAt(none: Kept, k: Kept, at: nat, keeps: bool, cx: Cx) returns (answer: Relation, kept: Kept)
    requires Descended(cx) && at < |none.members| && SameRoot(k, none) && KeptRightly(k, cx.q) && (keeps ==> cx.budget.depth == 1)
    modifies cx, cx.budget, cx.thread
    ensures Descended(cx)
    ensures RanAs(cx, IsSubtypeRec(PairAt(none, at).sub, PairAt(none, at).sup, cx.q, old(cx.Path()), old(cx.budget.depth), old(cx.budget.steps)), answer)
    ensures KeptRightly(kept, cx.q) && SameRoot(kept, none)
    ensures kept.placed == k.placed + (if keeps && answer.Holds? && !none.root.AUnionsBranches? then {at} else {})
    ensures kept.refuted == k.refuted + (if keeps && answer.Fails? && none.root.AUnionsBranches? then {at} else {})
    decreases cx.budget.steps, 0, 6
  {
    hide IsSubtypeRec;
    hide KeptRightly;
    ghost var path, depth, steps := cx.Path(), cx.budget.depth, cx.budget.steps;
    kept := k;
    answer := IsSubtypeRun(PairAt(k, at).sub, PairAt(k, at).sup, cx);
    if keeps {
      OneMoreIsKept(k, at, cx.q, path.narrowing, depth, steps);
      if answer.Holds? && !k.root.AUnionsBranches? { kept := k.(placed := k.placed + {at}); }
      if answer.Fails? && k.root.AUnionsBranches? { kept := k.(refuted := k.refuted + {at}); }
    }
  }

  lemma ItIsItsRoot(k: Kept)
    ensures SameRoot(k, k)
  {
  }

  lemma NothingIsKept(root: KeptFrom, other: Schema, members: seq<Schema>, q: Setting)
    ensures KeptRightly(Kept(0, root, other, members, {}, {}), q)
  {
  }

  /** The position asked with nothing assumed joins the record its answer names. */
  lemma OneMoreIsKept(k: Kept, at: nat, q: Setting, narrowing: bool, depth: nat, steps: nat)
    requires KeptRightly(k, q) && at < |k.members|
    ensures var answer := IsSubtypeRec(PairAt(k, at).sub, PairAt(k, at).sup, q, Path([], narrowing), depth, steps).answer;
      && (answer.Holds? ==> KeptRightly(k.(placed := k.placed + {at}), q))
      && (answer.Fails? ==> KeptRightly(k.(refuted := k.refuted + {at}), q))
  {
    hide IsSubtypeRec;
    var g := PairAt(k, at);
    assert AnsweredOutright(g.sub, g.sup, q, IsSubtypeRec(g.sub, g.sup, q, Path([], narrowing), depth, steps).answer);
  }

  /** Each member below the supertype, until one is refuted or one declines with
      the steps spent. At a query's root the members placed are kept where the
      rules decline the union. */
  method EachBelowRun(ms: seq<Schema>, b: Schema, cx: Cx) returns (answer: Relation)
    requires Descended(cx)
    modifies cx, cx.budget, cx.thread
    ensures Descended(cx)
    ensures RanAs(cx, Run(EachBelow(ms, b, false), cx.q, old(cx.Path()), old(cx.budget.depth), old(cx.budget.steps)), answer)
    decreases cx.budget.steps, 1, 0
  {
    hide Thread.Valid;
    hide SameRoot;
    hide Ran.After;
    hide Cx.State;
    hide Cx.Path;
    hide EachBelow;
    hide Leads;
    hide Ready;
    hide IsSubtypeRec;
    hide Run;
    hide KeptRightly;
    var keeps := cx.budget.depth == 1 && |ms| <= MEMBERS_HELD;
    var none := Kept(0, AUnionsMembers, b, ms, {}, {});
    var k := none;
    ItIsItsRoot(none);
    NothingIsKept(AUnionsMembers, b, ms, cx.q);
    var declined := false;
    ghost var start, met := cx.State(), false;
    ghost var work: nat := 0;
    LeadsNowhere(start);
    ghost var whole := Run(EachBelow(ms, b, false), cx.q, cx.Path(), cx.budget.depth, cx.budget.steps);
    ItIsAfterNothing(whole);
    for at := 0 to |ms|
      invariant Descended(cx) && Same(cx) && Leads(start, cx.State(), met, work)
      invariant KeptRightly(k, cx.q) && SameRoot(k, none)
      invariant whole == Run(EachBelow(ms[at..], b, declined), cx.q, cx.Path(), cx.budget.depth, cx.budget.steps).After(met, work)
    {
      ghost var first := IsSubtypeRec(ms[at], b, cx.q, cx.Path(), cx.budget.depth, cx.budget.steps);
      AMemberBelowAfter(whole, ms[at..], b, declined, cx.q, cx.Path(), cx.budget.depth, cx.budget.steps, met, work);
      assert ms[at..][1..] == ms[at + 1..];
      var one;
      ghost var mid := cx.State();
      one, k := AskAt(none, k, at, keeps, cx);
      LeadsOn(start, mid, cx.State(), met, work, first.met, first.work);
      met, work := met || first.met, work + first.work;
      if one.Fails? { return Relation.Fails; }
      declined := declined || one.Unknown?;
      if declined && cx.budget.steps == 0 {
        mid := cx.State();
        StopAtABound(cx);
        LeadsOn(start, mid, cx.State(), met, work, true, 0);
        return Relation.Unknown;
      }
    }
    assert ms[|ms|..] == [];
    NoneIsLeft(b, b, declined, cx.q, cx.Path(), cx.budget.depth, cx.budget.steps);
    if !declined { return Relation.Holds; }
    if keeps {
      ghost var mid := cx.State();
      Keep(k, cx);
      LeadsOn(start, mid, cx.State(), met, work, false, 0);
    }
    return Relation.Unknown;
  }

  /** The subject below each member of a meet, until one refutes. */
  method BelowEachMemberRun(a: Schema, ms: seq<Schema>, cx: Cx) returns (answer: Relation)
    requires Descended(cx)
    modifies cx, cx.budget, cx.thread
    ensures Descended(cx)
    ensures RanAs(cx, Run(BelowEach(a, ms, false), cx.q, old(cx.Path()), old(cx.budget.depth), old(cx.budget.steps)), answer)
    decreases cx.budget.steps, 1, 0
  {
    hide SameRoot;
    hide Ran.After;
    hide Cx.State;
    hide Cx.Path;
    hide BelowEach;
    hide Leads;
    hide Ready;
    hide Descended;
    hide IsSubtypeRec;
    hide Run;
    hide KeptRightly;
    var keeps := cx.budget.depth == 1 && |ms| <= MEMBERS_HELD;
    var none := Kept(0, AMeetsMembers, a, ms, {}, {});
    var k := none;
    ItIsItsRoot(none);
    NothingIsKept(AMeetsMembers, a, ms, cx.q);
    var declined := false;
    ghost var start, met := cx.State(), false;
    ghost var work: nat := 0;
    LeadsNowhere(start);
    ghost var whole := Run(BelowEach(a, ms, false), cx.q, cx.Path(), cx.budget.depth, cx.budget.steps);
    ItIsAfterNothing(whole);
    for at := 0 to |ms|
      invariant Descended(cx) && Same(cx) && Leads(start, cx.State(), met, work)
      invariant KeptRightly(k, cx.q) && SameRoot(k, none)
      invariant whole == Run(BelowEach(a, ms[at..], declined), cx.q, cx.Path(), cx.budget.depth, cx.budget.steps).After(met, work)
    {
      ghost var first := IsSubtypeRec(a, ms[at], cx.q, cx.Path(), cx.budget.depth, cx.budget.steps);
      AMemberAboveAfter(whole, a, ms[at..], declined, cx.q, cx.Path(), cx.budget.depth, cx.budget.steps, met, work);
      assert ms[at..][1..] == ms[at + 1..];
      var one;
      ghost var mid := cx.State();
      one, k := AskAt(none, k, at, keeps, cx);
      LeadsOn(start, mid, cx.State(), met, work, first.met, first.work);
      met, work := met || first.met, work + first.work;
      if one.Fails? { return Relation.Fails; }
      declined := declined || one.Unknown?;
    }
    assert ms[|ms|..] == [];
    NoneIsLeft(a, a, declined, cx.q, cx.Path(), cx.budget.depth, cx.budget.steps);
    if !declined { return Relation.Holds; }
    if keeps {
      ghost var mid := cx.State();
      Keep(k, cx);
      LeadsOn(start, mid, cx.State(), met, work, false, 0);
    }
    return Relation.Unknown;
  }

  /** Each branch asked once, until one holds the subject: `None` where one does,
      and otherwise whether one refuted it. The branches that refuted it are kept
      at a query's root. */
  method EachBranchRun(a: Schema, b: Schema, cx: Cx) returns (refuted: Option<bool>, ghost met: bool, ghost work: nat)
    requires Descended(cx) && b.Union?
    modifies cx, cx.budget, cx.thread
    ensures Descended(cx) && Same(cx) && Leads(old(cx.State()), cx.State(), met, work)
    ensures Run(EachBranch(a, b.members, false, b, cx.q), cx.q, old(cx.Path()), old(cx.budget.depth), old(cx.budget.steps)) ==
      if refuted.None? then Ran(Relation.Holds, cx.budget.steps, met, work)
      else Run(PastTheBranches(a, b, refuted.value, cx.q), cx.q, cx.Path(), cx.budget.depth, cx.budget.steps).After(met, work)
    decreases cx.budget.steps, 1, 0
  {
    hide SameRoot;
    hide Ran.After;
    hide Cx.State;
    hide Cx.Path;
    hide EachBranch;
    hide IsSubtypeRec;
    hide Run;
    hide KeptRightly;
    hide PastTheBranches;
    hide Leads;
    hide Ready;
    hide Descended;
    var ms := b.members;
    var keeps := cx.budget.depth == 1 && |ms| <= MEMBERS_HELD;
    var none := Kept(0, AUnionsBranches, a, ms, {}, {});
    var k := none;
    ItIsItsRoot(none);
    NothingIsKept(AUnionsBranches, a, ms, cx.q);
    var refutes := false;
    ghost var start := cx.State();
    met, work := false, 0;
    LeadsNowhere(start);
    ghost var whole := Run(EachBranch(a, ms, false, b, cx.q), cx.q, cx.Path(), cx.budget.depth, cx.budget.steps);
    ItIsAfterNothing(whole);
    for at := 0 to |ms|
      invariant Descended(cx) && Same(cx) && Leads(start, cx.State(), met, work)
      invariant KeptRightly(k, cx.q) && SameRoot(k, none)
      invariant whole == Run(EachBranch(a, ms[at..], refutes, b, cx.q), cx.q, cx.Path(), cx.budget.depth, cx.budget.steps).After(met, work)
    {
      ghost var first := IsSubtypeRec(a, ms[at], cx.q, cx.Path(), cx.budget.depth, cx.budget.steps);
      ABranchAboveAfter(whole, a, ms[at..], refutes, b, cx.q, cx.Path(), cx.budget.depth, cx.budget.steps, met, work);
      assert ms[at..][1..] == ms[at + 1..];
      var one;
      ghost var mid := cx.State();
      one, k := AskAt(none, k, at, keeps, cx);
      LeadsOn(start, mid, cx.State(), met, work, first.met, first.work);
      met, work := met || first.met, work + first.work;
      if one.Holds? { return None, met, work; }
      refutes := refutes || one.Fails?;
    }
    assert ms[|ms|..] == [];
    NoneIsLeft(a, b, refutes, cx.q, cx.Path(), cx.budget.depth, cx.budget.steps);
    if k.refuted != {} {
      ghost var mid := cx.State();
      Keep(k, cx);
      LeadsOn(start, mid, cx.State(), met, work, false, 0);
    }
    refuted := Some(refutes);
  }

  method BelowAUnionRun(a: Schema, b: Schema, cx: Cx) returns (answer: Relation)
    requires Descended(cx) && b.Union?
    modifies cx, cx.budget, cx.thread
    ensures Descended(cx)
    ensures RanAs(cx, Run(BelowAUnion(a, b, cx.q), cx.q, old(cx.Path()), old(cx.budget.depth), old(cx.budget.steps)), answer)
    decreases cx.budget.steps, 1, 1
  {
    hide IsSubtypeRec;
    hide Run;
    hide PastTheBranches;
    hide EachBranch;
    hide Leads;
    hide Ready;
    hide Descended;
    ghost var start := cx.State();
    if a in b.members {
      AnAnswerIsRun(HOLDS, cx.q, cx.Path(), cx.budget.depth, cx.budget.steps);
      LeadsNowhere(start);
      return Relation.Holds;
    }
    var refuted;
    ghost var met, work;
    refuted, met, work := EachBranchRun(a, b, cx);
    if refuted.None? { return Relation.Holds; }
    ghost var mid := cx.State();
    answer := RunPlan(PastTheBranches(a, b, refuted.value, cx.q), cx);
    ghost var past := Run(PastTheBranches(a, b, refuted.value, cx.q), cx.q, mid.path, mid.depth, mid.steps);
    LeadsOn(start, mid, cx.State(), met, work, past.met, past.work);
  }

  method StopAtABound(cx: Cx)
    requires Ready(cx)
    modifies cx.thread
    ensures Ready(cx) && (old(Descended(cx)) ==> Descended(cx))
    ensures Same(cx) && Leads(old(cx.State()), cx.State(), true, 0) && cx.budget.steps == old(cx.budget.steps)
  {
    hide IsSubtypeRec;
    cx.MeetBound();
  }

  /** A root's record, which the next one kept replaces. */
  method Keep(k: Kept, cx: Cx)
    requires Descended(cx) && KeptRightly(k, cx.q)
    modifies cx, cx.thread
    ensures Descended(cx) && Same(cx) && Leads(old(cx.State()), cx.State(), false, 0) && cx.budget.steps == old(cx.budget.steps)
    ensures cx.thread.held == Some(k.(query := cx.query))
  {
    hide IsSubtypeRec;
    hide AnsweredOutright;
    var query := cx.Number();
    label before:
    cx.thread.held := Some(k.(query := query));
    forall asked | asked in cx.thread.asked ensures cx.thread.Recalled(asked) { assert old@before(cx.thread.Recalled(asked)); }
  }

  /** A plan walked to its answer, a question at a time. */
  method RunPlan(p: Plan, cx: Cx) returns (answer: Relation)
    requires Descended(cx)
    modifies cx, cx.budget, cx.thread
    ensures Descended(cx)
    ensures RanAs(cx, Run(p, cx.q, old(cx.Path()), old(cx.budget.depth), old(cx.budget.steps)), answer)
    decreases cx.budget.steps, 1, 0
  {
    hide Leads;
    hide Ready;
    hide Descended;
    hide FirstRun;
    hide Run;
    var rest := p;
    ghost var start, met := cx.State(), false;
    ghost var work: nat := 0;
    LeadsNowhere(start);
    ghost var whole := Run(p, cx.q, cx.Path(), cx.budget.depth, cx.budget.steps);
    while !rest.Answer?
      invariant Descended(cx) && Same(cx) && Leads(start, cx.State(), met, work)
      invariant whole == Run(rest, cx.q, cx.Path(), cx.budget.depth, cx.budget.steps).After(met, work)
      decreases rest
    {
      ghost var first := FirstRun(rest, cx.q, cx.Path(), cx.budget.depth, cx.budget.steps);
      ARunIsItsFirstQuestion(rest, cx.q, cx.Path(), cx.budget.depth, cx.budget.steps);
      ghost var mid := cx.State();
      rest := AskFirst(rest, cx);
      LeadsOn(start, mid, cx.State(), met, work, first.met, first.work);
      met, work := met || first.met, work + first.work;
    }
    AnAnswerIsRun(rest, cx.q, cx.Path(), cx.budget.depth, cx.budget.steps);
    answer := rest.relation;
  }

  /** The plan's first question asked, and the plan its answer leads to. */
  method AskFirst(p: Plan, cx: Cx) returns (next: Plan)
    requires Descended(cx) && !p.Answer?
    modifies cx, cx.budget, cx.thread
    ensures Descended(cx)
    ensures var first := FirstRun(p, cx.q, old(cx.Path()), old(cx.budget.depth), old(cx.budget.steps));
      cx.budget.steps == first.left && Same(cx) && Leads(old(cx.State()), cx.State(), first.met, first.work)
    ensures next == Following(p, cx.q, old(cx.Path()), old(cx.budget.depth), old(cx.budget.steps)) && next < p
    decreases cx.budget.steps, 0, 6
  {
    hide IsSubtypeRec;
    hide NarrowedRun;
    hide ProductRun;
    hide EmptyAndRegion;
    match p {
      case Ask(sub, sup, _, _, _) =>
        var first := IsSubtypeRun(sub, sup, cx);
        next := Next(p, first);
      case Unfold(sub, sup, defSub, defSup, _, _, _) =>
        var first := Assuming(Goal(sub, sup), defSub, defSup, cx);
        next := Next(p, first);
      case Narrowed(sub, sup, _, _, _) =>
        var first := NarrowedMeetRun(sub, sup, cx);
        next := Next(p, first);
      case Product(split, deeper, _, _, _) =>
        var first := ProductsRun(split, deeper, cx);
        next := Next(p, first);
      case Empties(of, _, _, _) =>
        var verdict := VerdictRun(of, cx);
        CountingKeepsValid(cx.thread);
        next := NextRead(p, verdict);
      case Spent(yes, no) =>
        if cx.budget.steps == 0 {
          cx.MeetBound();
          next := yes;
        } else {
          next := no;
        }
    }
  }

  /** A goal decided with another on the trail, which is taken off after. */
  method Assuming(goal: Goal, sub: Schema, sup: Schema, cx: Cx) returns (answer: Relation)
    requires Descended(cx)
    modifies cx, cx.budget, cx.thread
    ensures Descended(cx)
    ensures var path := old(cx.Path());
      RanAs(cx, IsSubtypeRec(sub, sup, cx.q, path.(trail := path.trail + [goal]), old(cx.budget.depth), old(cx.budget.steps)), answer)
    decreases cx.budget.steps, 0, 3
  {
    hide Thread.Valid;
    hide IsSubtypeRec;
    cx.trail := cx.trail + [goal];
    answer := IsSubtypeRun(sub, sup, cx);
    cx.trail := cx.trail[..|cx.trail| - 1];
  }

  /** The product decomposition: a step, and a level where one branch deeper. */
  method ProductsRun(split: Split, deeper: bool, cx: Cx) returns (answer: Relation)
    requires Descended(cx)
    modifies cx, cx.budget, cx.thread
    ensures Descended(cx)
    ensures RanAs(cx, ProductRun(split, deeper, cx.q, old(cx.Path()), old(cx.budget.depth), old(cx.budget.steps)), answer)
    decreases cx.budget.steps, 0, 2
  {
    hide IsSubtypeRec;
    hide ProductPlan;
    hide Run;
    var depth := cx.budget.depth;
    if !deeper {
      answer := SpentOnASplit(split, cx);
    } else if depth >= cx.q.maxDepth {
      cx.MeetBound();
      answer := Relation.Unknown;
    } else {
      cx.budget.depth := depth + 1;
      answer := SpentOnASplit(split, cx);
      cx.budget.depth := depth;
    }
  }

  /** A step, and the product's questions at the level it stands at. */
  method SpentOnASplit(split: Split, cx: Cx) returns (answer: Relation)
    requires Descended(cx)
    modifies cx, cx.budget, cx.thread
    ensures Descended(cx)
    ensures RanAs(cx, ProductRun(split, false, cx.q, old(cx.Path()), old(cx.budget.depth), old(cx.budget.steps)), answer)
    decreases cx.budget.steps, 0, 1
  {
    hide IsSubtypeRec;
    hide ProductPlan;
    hide Run;
    var spent := cx.Spend();
    CountingKeepsValid(cx.thread);
    if spent { answer := RunPlan(ProductPlan(split, cx.q), cx); } else { answer := Relation.Unknown; }
  }

  /** A narrowed meet: on the question's own steps and trail inside another's; and
      otherwise a question of its own, under an allowance charged to nothing,
      asked once for each allowance and read back after. */
  method NarrowedMeetRun(narrowed: Schema, sup: Schema, cx: Cx) returns (answer: Relation)
    requires Descended(cx)
    modifies cx, cx.budget, cx.thread
    ensures Descended(cx)
    ensures RanAs(cx, NarrowedRun(narrowed, sup, cx.q, old(cx.Path()), old(cx.budget.depth), old(cx.budget.steps)), answer)
    decreases cx.budget.steps, 0, 5
  {
    hide IsSubtypeRec;
    hide Thread.Valid;
    hide Leads;
    ghost var start := cx.State();
    var query := cx.Number();
    ghost var mid := cx.State();
    if cx.thread.narrowing == query {
      ghost var own := IsSubtypeRec(narrowed, sup, cx.q, cx.Path(), cx.budget.depth, cx.budget.steps);
      answer := IsSubtypeRun(narrowed, sup, cx);
      LeadsOn(start, mid, cx.State(), false, 0, own.met, own.work);
      return;
    }
    var given := Least(cx.budget.steps, cx.q.respelling);
    ghost var own := IsSubtypeRec(narrowed, sup, cx.q, Path([], true), 0, given);
    answer := ReadBackOrAsked(narrowed, sup, given, cx);
    LeadsOn(start, mid, cx.State(), false, 0, own.met, own.work);
  }

  /** A question read back where the query has asked it under that allowance, and
      asked and kept where it has not. */
  method ReadBackOrAsked(narrowed: Schema, sup: Schema, given: nat, cx: Cx) returns (answer: Relation)
    requires cx.Valid() && cx.query != 0 && given <= cx.budget.steps
    modifies cx.thread
    ensures cx.Valid()
    ensures var own := IsSubtypeRec(narrowed, sup, cx.q, Path([], true), 0, given);
      answer == own.answer && Leads(old(cx.State()), cx.State(), own.met, own.work)
    decreases given, 0, 4
  {
    hide IsSubtypeRec;
    var question := Question(cx.query, narrowed, sup, given);
    if question in cx.thread.asked {
      assert cx.thread.Recalled(question);
      return cx.thread.asked[question];
    }
    answer := OwnQuestion(narrowed, sup, given, cx);
    cx.thread.Remember(question, answer);
  }

  /** The query's number and the open question's have been given. */
  lemma NumbersAreGiven(cx: Cx)
    requires cx.Valid()
    ensures cx.query <= cx.thread.queries && cx.thread.narrowing <= cx.thread.queries
  {
    hide IsSubtypeRec;
  }

  /** The question asked on a budget and a trail of its own, and marked open while
      it is. */
  method OwnQuestion(narrowed: Schema, sup: Schema, given: nat, cx: Cx) returns (answer: Relation)
    requires cx.Valid() && cx.query != 0 && given <= cx.budget.steps
    modifies cx.thread
    ensures cx.Valid()
    ensures var own := IsSubtypeRec(narrowed, sup, cx.q, Path([], true), 0, given);
      answer == own.answer && Leads(old(cx.State()), cx.State(), own.met, own.work)
    decreases given, 0, 3
  {
    hide Thread.Valid;
    hide IsSubtypeRec;
    NumbersAreGiven(cx);
    var allowance := new Budget(given);
    var part := new Cx.Within(cx, allowance);
    var open := cx.thread.narrowing;
    label before:
    cx.thread.narrowing := cx.query;
    CountingKeepsValid@before(cx.thread);
    assert part.Path() == Path([], true);
    answer := IsSubtypeRun(narrowed, sup, part);
    label asked:
    cx.thread.narrowing := open;
    CountingKeepsValid@asked(cx.thread);
  }
}
