/** What one asking costs in all: the narrowed meets asked as questions of their
    own are charged to nothing, and there is at most one behind each charged
    step. */
module DecisionWork {
  import opened Verdicts
  import opened Schemas
  import opened Oracles
  import opened KindWalk
  import opened Narrowing
  import opened Readings
  import opened Disjointness
  import opened Tables
  import opened Shapes
  import opened Emptiness
  import opened Rules
  import opened Decision

  /** The narrowed meets a plan asks along one path, at most. */
  ghost function Narrowings(p: Plan): nat {
    match p
    case Answer(_) => 0
    case Ask(_, _, h, f, u) => Larger(Narrowings(h), Larger(Narrowings(f), Narrowings(u)))
    case Unfold(_, _, _, _, h, f, u) => Larger(Narrowings(h), Larger(Narrowings(f), Narrowings(u)))
    case Narrowed(_, _, h, f, u) => 1 + Larger(Narrowings(h), Larger(Narrowings(f), Narrowings(u)))
    case Product(_, _, h, f, u) => Larger(Narrowings(h), Larger(Narrowings(f), Narrowings(u)))
    case Empties(_, e, i, u) => Larger(Narrowings(e), Larger(Narrowings(i), Narrowings(u)))
    case Spent(y, n) => Larger(Narrowings(y), Narrowings(n))
  }

  lemma {:induction false} ASecondReadingAdds(p: Plan, second: Plan)
    ensures Narrowings(OrElse(p, second)) <= Narrowings(p) + Narrowings(second)
  {
    if p.Empties? {
      ASecondReadingAdds(p.empty, second);
      ASecondReadingAdds(p.inhabited, second);
      ASecondReadingAdds(p.undecided, second);
    } else if p.Spent? {
      ASecondReadingAdds(p.yes, second);
      ASecondReadingAdds(p.no, second);
    } else if !p.Answer? {
      ASecondReadingAdds(p.holds, second);
      ASecondReadingAdds(p.fails, second);
      ASecondReadingAdds(p.unknown, second);
    }
  }

  lemma {:induction false} EachBelowAsksNone(ms: seq<Schema>, b: Schema, declined: bool)
    ensures Narrowings(EachBelow(ms, b, declined)) == 0
  {
    if ms != [] {
      EachBelowAsksNone(ms[1..], b, declined);
      EachBelowAsksNone(ms[1..], b, true);
    }
  }

  lemma {:induction false} BelowEachAsksNone(a: Schema, ms: seq<Schema>, declined: bool)
    ensures Narrowings(BelowEach(a, ms, declined)) == 0
  {
    if ms != [] {
      BelowEachAsksNone(a, ms[1..], declined);
      BelowEachAsksNone(a, ms[1..], true);
    }
  }

  lemma {:induction false} AnyMemberBelowAsks(ms: seq<Schema>, b: Schema, otherwise: Plan)
    ensures Narrowings(AnyMemberBelow(ms, b, otherwise)) == Narrowings(otherwise)
  {
    if ms != [] { AnyMemberBelowAsks(ms[1..], b, otherwise); }
  }

  lemma {:induction false} BelowAnyBranchAsks(a: Schema, ms: seq<Schema>, otherwise: Plan)
    ensures Narrowings(BelowAnyBranch(a, ms, otherwise)) == Narrowings(otherwise)
  {
    if ms != [] { BelowAnyBranchAsks(a, ms[1..], otherwise); }
  }

  lemma {:induction false} BelowTheOthersAsks(ms: seq<Schema>, at: nat, other: nat, b: Schema, otherwise: Plan)
    requires at < |ms| && other <= |ms|
    ensures Narrowings(BelowTheOthers(ms, at, other, b, otherwise)) <= Narrowings(otherwise)
    decreases |ms| - other
  {
    if other < |ms| { BelowTheOthersAsks(ms, at, other + 1, b, otherwise); }
  }

  lemma {:induction false} TheMemberThatIsTheMeetAsksNone(ms: seq<Schema>, at: nat, b: Schema)
    requires at <= |ms|
    ensures Narrowings(TheMemberThatIsTheMeet(ms, at, b)) == 0
    decreases |ms| - at
  {
    if at < |ms| {
      TheMemberThatIsTheMeetAsksNone(ms, at + 1, b);
      BelowTheOthersAsks(ms, at, 0, b, TheMemberThatIsTheMeet(ms, at + 1, b));
    }
  }

  lemma MeetBelowAsksNone(a: Schema, b: Schema, q: Setting, alone: bool)
    requires a.Intersection?
    ensures Narrowings(MeetBelow(a, b, q, alone)) == 0
  {
    hide KindsPossiblyHeld;
    hide MergedSplit;
    TheMemberThatIsTheMeetAsksNone(a.members, 0, b);
    var last := if alone then TheMemberThatIsTheMeet(a.members, 0, b) else DECLINES;
    var merged := if b.Union? then BelowAMergedSplit(a, b.members, last, q) else last;
    if b.Union? { BelowAnyBranchAsks(a, b.members, merged); }
    AnyMemberBelowAsks(a.members, b, if b.Union? then BelowAnyBranch(a, b.members, merged) else merged);
  }

  lemma UnstructuredAsksNone(a: Schema, b: Schema, q: Setting)
    ensures Narrowings(Unstructured(a, b, q)) == 0
  {
    hide RefutedByShape;
    hide EmptyBelow;
    hide TheEmptyRefused;
  }

  lemma LeftReducesAsksNone(a: Schema, b: Schema, q: Setting)
    ensures Narrowings(LeftReduces(a, b, q)) == 0 && Narrowings(BelowAReference(a, b, q)) == 0
  {
  }

  lemma MeetReadWholeAsksNone(a: Schema, b: Schema, q: Setting)
    ensures Narrowings(MeetReadWhole(a, b, q)) == 0
  {
    hide Unstructured;
    hide DisjointWith;
    UnstructuredAsksNone(a, b, q);
    LeftReducesAsksNone(a, b, q);
    var apart := if b.Complement? then Beside(a, b.inner, HOLDS, FAILS, DECLINES, q) else DECLINES;
    ASecondReadingAdds(apart, Unstructured(a, b, q));
    ASecondReadingAdds(OrElse(apart, Unstructured(a, b, q)), BelowAReference(a, b, q));
  }

  lemma {:induction false} SomeApartAsksNone(a: Schema, ms: seq<Schema>, all: seq<Schema>, q: Setting)
    ensures Narrowings(SomeApart(a, ms, all, q)) == 0
  {
    hide DisjointWith;
    if ms != [] {
      SomeApartAsksNone(a, ms[1..], all, q);
      KeptFullyAsksNone(a, all, [], q);
    }
  }

  lemma {:induction false} KeptFullyAsksNone(a: Schema, ms: seq<Schema>, kept: seq<Schema>, q: Setting)
    ensures Narrowings(KeptFully(a, ms, kept, q)) == 0
  {
    hide DisjointWith;
    if ms != [] {
      KeptFullyAsksNone(a, ms[1..], kept + [ms[0]], q);
      KeptFullyAsksNone(a, ms[1..], kept, q);
    }
  }

  lemma PastTheBranchesAsksNone(a: Schema, b: Schema, refuted: bool, q: Setting)
    requires b.Union?
    ensures Narrowings(PastTheBranches(a, b, refuted, q)) == 0
  {
    hide Narrowings, OrElse, MetCheaply, SomeApart, SplitsAcross, BelowAMergedSplit, LeftReduces;
    AnswersAskNone();
    LeftReducesAsksNone(a, b, q);
    SomeApartAsksNone(a, b.members, b.members, q);
    MetCheaplyAsksNone(a, b.members, q);
    if a.Seq? { SplitsAcrossAsksNone(a, b.members, q); }
    var reduced := Reduced(a, b, q);
    var cheap, full := MetCheaply(a, b.members, q), MetFully(a, b.members, q);
    ASecondReadingAdds(cheap, full);
    ASecondReadingAdds(OrElse(cheap, full), reduced);
    var narrowed := if refuted then OrElse(OrElse(cheap, full), reduced) else reduced;
    var split := if a.Seq? then SplitsAcross(a, b.members, q) else DECLINES;
    ASecondReadingAdds(split, narrowed);
    BelowAMergedSplitAsksNone(a, b.members, OrElse(split, narrowed), q);
  }

  lemma MetCheaplyAsksNone(a: Schema, ms: seq<Schema>, q: Setting)
    ensures Narrowings(MetCheaply(a, ms, q)) == 0
  {
    hide DisjointWith;
  }

  lemma SplitsAcrossAsksNone(a: Schema, ms: seq<Schema>, q: Setting)
    requires a.Seq?
    ensures Narrowings(SplitsAcross(a, ms, q)) == 0
  {
    hide SetAsideHoldNone, ArityBranches;
  }

  lemma BelowAMergedSplitAsksNone(a: Schema, ms: seq<Schema>, otherwise: Plan, q: Setting)
    requires Narrowings(otherwise) == 0
    ensures Narrowings(BelowAMergedSplit(a, ms, otherwise, q)) == 0
  {
    hide MergedSplit, TwoMeets;
  }

  lemma {:induction false} EachBranchAsksNone(a: Schema, ms: seq<Schema>, refuted: bool, b: Schema, q: Setting)
    requires b.Union?
    ensures Narrowings(EachBranch(a, ms, refuted, b, q)) == 0
  {
    hide PastTheBranches;
    PastTheBranchesAsksNone(a, b, refuted, q);
    if ms != [] {
      EachBranchAsksNone(a, ms[1..], true, b, q);
      EachBranchAsksNone(a, ms[1..], refuted, b, q);
    }
  }

  lemma AnswersAskNone()
    ensures Narrowings(HOLDS) == Narrowings(FAILS) == Narrowings(DECLINES) == 0
  {
  }

  lemma AnAskAsksNone(p: Plan)
    requires p.Ask? && Narrowings(p.holds) == Narrowings(p.fails) == Narrowings(p.unknown) == 0
    ensures Narrowings(p) == 0
  {
  }

  lemma {:induction false} AlignsAsksNone(pa: seq<Schema>, b: Schema, at: nat, declined: bool, last: Option<Last>, all: Plan, some: Plan)
    requires at <= |pa| && b.Seq? && Narrowings(all) == 0 && Narrowings(some) == 0
    ensures Narrowings(Aligns(pa, b, at, declined, last, all, some)) == 0
    decreases |pa| - at
  {
    hide Narrowings;
    AnswersAskNone();
    if at < |pa| && !(at >= |b.prefix| && b.tail.None?) {
      var expected := if at < |b.prefix| then b.prefix[at] else b.tail.value;
      AlignsAsksNone(pa, b, at + 1, declined, last, all, some);
      AlignsAsksNone(pa, b, at + 1, true, last, all, some);
      var held, unknown := Some(Last(pa[at], expected, Relation.Holds)), Some(Last(pa[at], expected, Relation.Unknown));
      AlignsAsksNone(pa, b, at + 1, declined, held, all, some);
      AlignsAsksNone(pa, b, at + 1, true, unknown, all, some);
      AnAskAsksNone(Ask(pa[at], expected, Aligns(pa, b, at + 1, declined, held, all, some), FAILS, Aligns(pa, b, at + 1, true, unknown, all, some)));
    }
  }

  lemma LinearReadAsksNone(a: Schema, b: Schema, repeats: Verdict)
    requires a.Seq? && b.Seq? && (a.tail.None? ==> repeats.Empty?)
    ensures Narrowings(LinearRead(a, b, repeats)) == 0
  {
    AlignsAsksNone(a.prefix, b, 0, false, None, HOLDS, DECLINES);
    if a.tail.Some? && b.tail.Some? {
      AlignsAsksNone(a.prefix, b, 0, false, None, Just(a.tail.value, b.tail.value),
                     Ask(a.tail.value, b.tail.value, DECLINES, FAILS, DECLINES));
    }
  }

  lemma LinearBelowAsksNone(a: Schema, b: Schema)
    requires a.Seq? && b.Seq?
    ensures Narrowings(LinearBelow(a, b)) == 0
  {
    hide LinearRead;
    LinearReadAsksNone(a, b, Verdict.Empty);
    if a.tail.Some? {
      LinearReadAsksNone(a, b, Verdict.Inhabited);
      LinearReadAsksNone(a, b, Verdict.Unknown);
    }
  }

  lemma {:induction false} ProductsAskNone(cs: seq<Schema>, at: nat, empty: bool, held: bool, bs: seq<seq<Schema>>, q: Setting)
    requires at <= |cs| && forall branch <- bs :: |branch| == |cs|
    ensures Narrowings(ComponentsPlan(cs, at, empty, held, bs, q)) == 0
    decreases |cs| - at
  {
    if at == |cs| {
      BranchesAskNone(cs, bs, held, q);
    } else {
      ProductsAskNone(cs, at + 1, true, held, bs, q);
      ProductsAskNone(cs, at + 1, empty, held, bs, q);
      ProductsAskNone(cs, at + 1, empty, false, bs, q);
    }
  }

  lemma {:induction false} BranchesAskNone(cs: seq<Schema>, bs: seq<seq<Schema>>, held: bool, q: Setting)
    requires forall branch <- bs :: |branch| == |cs|
    ensures Narrowings(BranchPlan(cs, bs, held, q)) == 0
  {
    if bs != [] {
      BranchesAskNone(cs, bs[1..], held, q);
      PositionsAskNone(cs, bs[0], 0, bs[1..], q);
      ApartAsksNone(cs, bs[0], 0, BranchPlan(cs, bs[1..], held, q), PositionsPlan(cs, bs[0], 0, bs[1..], q), q);
    }
  }

  lemma {:induction false} ApartAsksNone(cs: seq<Schema>, branch: seq<Schema>, at: nat, dropped: Plan, kept: Plan, q: Setting)
    requires at <= |cs| == |branch| && Narrowings(dropped) == 0 && Narrowings(kept) == 0
    ensures Narrowings(ApartPlan(cs, branch, at, dropped, kept, q)) == 0
    decreases |cs| - at
  {
    hide DisjointWith;
    if at < |cs| { ApartAsksNone(cs, branch, at + 1, dropped, kept, q); }
  }

  lemma {:induction false} PositionsAskNone(cs: seq<Schema>, branch: seq<Schema>, at: nat, rest: seq<seq<Schema>>, q: Setting)
    requires at <= |cs| == |branch| && forall other <- rest :: |other| == |cs|
    ensures Narrowings(PositionsPlan(cs, branch, at, rest, q)) == 0
    decreases |cs| - at
  {
    if at < |cs| {
      PositionsAskNone(cs, branch, at + 1, rest, q);
      var next := PositionsPlan(cs, branch, at + 1, rest, q);
      var narrowed := Products(NarrowedAt(cs, branch, at, q.gate), rest);
      assert Narrowings(Product(narrowed, true, next, FAILS, DECLINES)) == 0;
      assert Narrowings(Product(narrowed, true, next, DECLINES, DECLINES)) == 0;
    }
  }

  lemma AMeetAsksOnce(a: Schema, b: Schema, q: Setting, alone: bool)
    requires a.Intersection?
    ensures Narrowings(ByShapeOfAMeet(a, b, q, alone)) <= 1
  {
    hide MeetBelow;
    hide MeetReadWhole;
    hide NarrowedMeet;
    hide TheTablesBelow;
    MeetBelowAsksNone(a, b, q, alone);
    MeetReadWholeAsksNone(a, b, q);
    var tables := Answer(TheTablesBelow(a.members, b, q.oracle));
    ASecondReadingAdds(MeetBelow(a, b, q, alone), tables);
    ASecondReadingAdds(OrElse(MeetBelow(a, b, q, alone), tables), MeetReadWhole(a, b, q));
    ASecondReadingAdds(OrElse(OrElse(MeetBelow(a, b, q, alone), tables), MeetReadWhole(a, b, q)), NarrowedMeetBelow(a, b, q));
  }

  lemma ARefinementAsksNone(a: Schema, b: Schema, q: Setting)
    requires a.Refine?
    ensures Narrowings(OrElse(if b.Refine? then RefinementBelow(a, b, q) else LeftReduces(a, b, q), Unstructured(a, b, q))) == 0
  {
    hide Unstructured;
    UnstructuredAsksNone(a, b, q);
    LeftReducesAsksNone(a, b, q);
    ASecondReadingAdds(if b.Refine? then RefinementBelow(a, b, q) else LeftReduces(a, b, q), Unstructured(a, b, q));
  }

  lemma AUnionSupertypeAsksNone(a: Schema, b: Schema, q: Setting)
    requires b.Union?
    ensures Narrowings(OrElse(OrElse(BelowAUnion(a, b, q), if SpillsPastATable(a, b, q) then FAILS else DECLINES), Unstructured(a, b, q))) == 0
  {
    hide Unstructured;
    hide SpillsPastATable;
    hide EachBranch;
    UnstructuredAsksNone(a, b, q);
    EachBranchAsksNone(a, b.members, false, b, q);
    var spills := if SpillsPastATable(a, b, q) then FAILS else DECLINES;
    ASecondReadingAdds(BelowAUnion(a, b, q), spills);
    ASecondReadingAdds(OrElse(BelowAUnion(a, b, q), spills), Unstructured(a, b, q));
  }

  lemma AComplementAsksNone(a: Schema, b: Schema, q: Setting)
    requires b.Complement?
    ensures Narrowings(BelowAComplement(a, b, q)) == 0
  {
    hide DisjointWith;
    hide SpillsAKindInto;
    var declined := BelowAComplementDeclined(a, b, q);
    var held := Empties(a, HOLDS, FAILS, DECLINES);
    assert Narrowings(declined) == 0 && Narrowings(held) == 0;
    assert Narrowings(Ask(a, b.inner, held, declined, declined)) == 0;
  }

  lemma TheShapesAskOnce(a: Schema, b: Schema, q: Setting, alone: bool)
    ensures Narrowings(ByShape(a, b, q, alone)) <= 1
  {
    hide Unstructured;
    hide SpillsPastATable;
    hide BelowAUnion;
    hide BelowAComplement;
    hide ByShapeOfAMeet;
    hide LinearBelow;
    hide EachBelow;
    hide BelowEach;
    hide TablesDisjoint;
    UnstructuredAsksNone(a, b, q);
    LeftReducesAsksNone(a, b, q);
    if a.Union? { EachBelowAsksNone(a.members, b, false); }
    else if b.Intersection? { BelowEachAsksNone(a, b.members, false); }
    else if a.Intersection? { AMeetAsksOnce(a, b, q, alone); }
    else if b.Union? { AUnionSupertypeAsksNone(a, b, q); }
    else if a.Seq? && b.Seq? && a.container == b.container { LinearBelowAsksNone(a, b); }
    else if b.Complement? { AComplementAsksNone(a, b, q); }
    else if a.Refine? { ARefinementAsksNone(a, b, q); }
  }

  /** One goal asks at most one narrowed meet of its own. */
  lemma AGoalAsksOnce(a: Schema, b: Schema, q: Setting, alone: bool)
    ensures Narrowings(Decide(a, b, q, alone)) <= 1
  {
    hide ByShape;
    hide RegionSet;
    hide PushedComplementIsPlaced;
    hide FiniteSet;
    hide FiniteSetBelow;
    hide CoversTheUniverse;
    TheShapesAskOnce(a, b, q, alone);
    ASecondReadingAdds(ByShape(a, b, q, alone), Bounded(a, b, q));
  }

  /** The steps taken in all, `own` narrowed meets asked beside the charged. */
  ghost predicate WorkBounded(r: Ran, steps: int, narrowing: bool, own: int, q: Setting) {
    && r.left <= steps
    && if narrowing then r.work == steps - r.left
       else r.work <= (1 + q.respelling) * (steps - r.left) + own * q.respelling
  }

  lemma ChargedIsBounded(r: Ran, steps: nat, narrowing: bool, own: nat, q: Setting)
    requires r.left <= steps && r.work == steps - r.left
    ensures WorkBounded(r, steps, narrowing, own, q)
  {
    var spent := steps - r.left;
    assert (1 + q.respelling) * spent == spent + q.respelling * spent;
    assert q.respelling * spent >= 0 && own * q.respelling >= 0;
  }

  lemma MoreOfItsOwn(r: Ran, steps: nat, narrowing: bool, n: nat, k: nat, q: Setting)
    requires n <= k && WorkBounded(r, steps, narrowing, n, q)
    ensures WorkBounded(r, steps, narrowing, k, q)
  {
    assert n * q.respelling <= k * q.respelling;
  }

  lemma WorkAdds(first: Ran, rest: Ran, steps: nat, narrowing: bool, n: nat, k: nat, q: Setting)
    requires WorkBounded(first, steps, narrowing, n, q) && WorkBounded(rest, first.left, narrowing, k, q)
    ensures WorkBounded(rest.After(first.met, first.work), steps, narrowing, n + k, q)
  {
    var R, spent, later := q.respelling, steps - first.left, first.left - rest.left;
    assert (1 + R) * (spent + later) == (1 + R) * spent + (1 + R) * later;
    assert (n + k) * R == n * R + k * R;
  }

  /** A charged step pays for one narrowed meet asked after it. */
  lemma OneStepMore(r: Ran, steps: nat, narrowing: bool, n: nat, q: Setting)
    requires steps > 0 && n <= 1 && WorkBounded(r, steps - 1, narrowing, n, q)
    ensures WorkBounded(r.After(false, 1), steps, narrowing, 0, q)
  {
    var R, spent := q.respelling, steps - 1 - r.left;
    assert (1 + R) * (spent + 1) == (1 + R) * spent + (1 + R);
    assert n * R <= R;
  }

  lemma NextAsksNoMore(p: Plan, answer: Relation)
    requires p.Ask? || p.Unfold? || p.Narrowed? || p.Product?
    ensures Narrowings(Next(p, answer)) + (if p.Narrowed? then 1 else 0) <= Narrowings(p)
  {
  }

  /** The rest of a plan after its first question, within what the plan may take. */
  lemma TheRestAdds(p: Plan, first: Ran, rest: Ran, steps: nat, narrowing: bool, own: nat, q: Setting)
    requires p.Ask? || p.Unfold? || p.Narrowed? || p.Product?
    requires own <= (if p.Narrowed? then 1 else 0) && WorkBounded(first, steps, narrowing, own, q)
    requires WorkBounded(rest, first.left, narrowing, Narrowings(Next(p, first.answer)), q)
    ensures WorkBounded(rest.After(first.met, first.work), steps, narrowing, Narrowings(p), q)
  {
    hide WorkBounded;
    NextAsksNoMore(p, first.answer);
    WorkAdds(first, rest, steps, narrowing, own, Narrowings(Next(p, first.answer)), q);
    MoreOfItsOwn(rest.After(first.met, first.work), steps, narrowing, own + Narrowings(Next(p, first.answer)), Narrowings(p), q);
  }

  lemma {:induction false} WorkOfARun(p: Plan, q: Setting, path: Path, depth: nat, steps: nat)
    ensures WorkBounded(Run(p, q, path, depth, steps), steps, path.narrowing, Narrowings(p), q)
    decreases steps, 1, p, 1
  {
    hide Decide;
    hide Witness;
    hide ProductPlan;
    hide WorkBounded;
    hide IsSubtypeRec;
    hide NarrowedRun;
    hide ProductRun;
    hide EmptyAndRegion;
    hide Narrowings;
    match p
    case Answer(_) => ChargedIsBounded(Run(p, q, path, depth, steps), steps, path.narrowing, Narrowings(p), q);
    case Ask(a, b, _, _, _) =>
      var first := IsSubtypeRec(a, b, q, path, depth, steps);
      WorkOfAGoal(a, b, q, path, depth, steps);
      WorkOfARun(Next(p, first.answer), q, path, depth, first.left);
      TheRestAdds(p, first, Run(Next(p, first.answer), q, path, depth, first.left), steps, path.narrowing, 0, q);
    case Unfold(a, b, c, d, _, _, _) =>
      var within := path.(trail := path.trail + [Goal(a, b)]);
      var first := IsSubtypeRec(c, d, q, within, depth, steps);
      WorkOfAGoal(c, d, q, within, depth, steps);
      WorkOfARun(Next(p, first.answer), q, path, depth, first.left);
      TheRestAdds(p, first, Run(Next(p, first.answer), q, path, depth, first.left), steps, path.narrowing, 0, q);
    case Narrowed(a, b, _, _, _) =>
      var first := NarrowedRun(a, b, q, path, depth, steps);
      WorkOfANarrowedMeet(a, b, q, path, depth, steps);
      WorkOfARun(Next(p, first.answer), q, path, depth, first.left);
      TheRestAdds(p, first, Run(Next(p, first.answer), q, path, depth, first.left), steps, path.narrowing, 1, q);
    case Product(split, deeper, _, _, _) =>
      var first := ProductRun(split, deeper, q, path, depth, steps);
      WorkOfAProduct(split, deeper, q, path, depth, steps);
      WorkOfARun(Next(p, first.answer), q, path, depth, first.left);
      TheRestAdds(p, first, Run(Next(p, first.answer), q, path, depth, first.left), steps, path.narrowing, 0, q);
    case Empties(t, _, _, _) => WorkOfAReading(p, q, path, depth, steps);
    case Spent(_, _) => WorkOfASpentTest(p, q, path, depth, steps);
  }

  lemma {:induction false} WorkOfAReading(p: Plan, q: Setting, path: Path, depth: nat, steps: nat)
    requires p.Empties?
    ensures WorkBounded(Run(p, q, path, depth, steps), steps, path.narrowing, Narrowings(p), q)
    decreases steps, 1, p, 0
  {
    hide WorkBounded;
    hide EmptyAndRegion;
    var first := EmptyAndRegion(p.of, q, NOTHING_HELD, depth, steps);
    var next := NextRead(p, first.verdict);
    var read := Ran(Relation.Unknown, first.left, first.met, steps - first.left);
    WorkOfARun(next, q, path, depth, first.left);
    ChargedIsBounded(read, steps, path.narrowing, 0, q);
    WorkAdds(read, Run(next, q, path, depth, first.left), steps, path.narrowing, 0, Narrowings(next), q);
    MoreOfItsOwn(Run(p, q, path, depth, steps), steps, path.narrowing, Narrowings(next), Narrowings(p), q);
  }

  lemma {:induction false} WorkOfASpentTest(p: Plan, q: Setting, path: Path, depth: nat, steps: nat)
    requires p.Spent?
    ensures WorkBounded(Run(p, q, path, depth, steps), steps, path.narrowing, Narrowings(p), q)
    decreases steps, 1, p, 0
  {
    hide IsSubtypeRec;
    var next := if steps == 0 then p.yes else p.no;
    WorkOfARun(next, q, path, depth, steps);
    MoreOfItsOwn(Run(next, q, path, depth, steps), steps, path.narrowing, Narrowings(next), Narrowings(p), q);
  }

  /** A narrowed meet of its own is charged nothing and takes `respelling` steps
      at most, for nothing it asks is a question of its own again. */
  lemma {:induction false} WorkOfANarrowedMeet(a: Schema, b: Schema, q: Setting, path: Path, depth: nat, steps: nat)
    ensures WorkBounded(NarrowedRun(a, b, q, path, depth, steps), steps, path.narrowing, 1, q)
    decreases steps, 0, 3
  {
    hide ByRules;
    hide WitnessRun;
    hide Run;
    if path.narrowing {
      WorkOfAGoal(a, b, q, path, depth, steps);
    } else {
      WorkOfAGoal(a, b, q, Path([], true), 0, Least(steps, q.respelling));
    }
  }

  lemma {:induction false} WorkOfAProduct(split: Split, deeper: bool, q: Setting, path: Path, depth: nat, steps: nat)
    ensures WorkBounded(ProductRun(split, deeper, q, path, depth, steps), steps, path.narrowing, 0, q)
    decreases steps, 0, 1
  {
    hide WorkBounded;
    hide Run;
    hide ProductPlan;
    if (deeper && depth >= q.maxDepth) || steps == 0 {
      ChargedIsBounded(Ran(Relation.Unknown, steps, true, 0), steps, path.narrowing, 0, q);
    } else {
      var level := if deeper then depth + 1 else depth;
      WorkOfARun(ProductPlan(split, q), q, path, level, steps - 1);
      AProductAsksNone(split, q);
      OneStepMore(Run(ProductPlan(split, q), q, path, level, steps - 1), steps, path.narrowing, 0, q);
    }
  }

  lemma AProductAsksNone(split: Split, q: Setting)
    ensures Narrowings(ProductPlan(split, q)) == 0
  {
    ProductsAskNone(split.components, 0, false, true, split.branches, q);
  }

  lemma {:induction false} WorkOfTheRules(a: Schema, b: Schema, q: Setting, path: Path, depth: nat, steps: nat)
    ensures WorkBounded(ByRules(a, b, q, path, depth, steps), steps, path.narrowing, 0, q)
    decreases steps, 0, 1
  {
    hide WorkBounded;
    hide RegionSet;
    hide Decide;
    hide Run;
    hide PlacedByMembership;
    var ruled := ByRules(a, b, q, path, depth, steps);
    var p := Decide(a, b, q, path.trail == []);
    if ruled.work == steps - ruled.left {
      ChargedIsBounded(ruled, steps, path.narrowing, 0, q);
    } else {
      WorkOfARun(p, q, path, depth + 1, steps - 1);
      AGoalAsksOnce(a, b, q, path.trail == []);
      OneStepMore(Run(p, q, path, depth + 1, steps - 1), steps, path.narrowing, Narrowings(p), q);
    }
  }

  lemma WorkOfAWitness(a: Schema, q: Setting, path: Path, depth: nat, steps: nat)
    ensures WorkBounded(WitnessRun(a, q, path, depth, steps), steps, path.narrowing, 0, q)
  {
    hide WorkBounded;
    hide Witness;
    hide EmptyAndRegion;
    ChargedIsBounded(WitnessRun(a, q, path, depth, steps), steps, path.narrowing, 0, q);
  }

  /** One asking takes at most `1 + respelling` steps for each it is charged, and
      none at all past its charge inside another's narrowed question. */
  lemma {:induction false} WorkOfAGoal(a: Schema, b: Schema, q: Setting, path: Path, depth: nat, steps: nat)
    ensures WorkBounded(IsSubtypeRec(a, b, q, path, depth, steps), steps, path.narrowing, 0, q)
    decreases steps, 0, 2
  {
    hide WorkBounded;
    hide ByRules;
    hide WitnessRun;
    WorkOfTheRules(a, b, q, path, depth, steps);
    var ruled := ByRules(a, b, q, path, depth, steps);
    if ruled.answer.Fails? {
      WorkOfAWitness(a, q, path, depth, ruled.left);
      WorkAdds(ruled, WitnessRun(a, q, path, depth, ruled.left), steps, path.narrowing, 0, 0, q);
    }
  }
}
