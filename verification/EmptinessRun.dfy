/** The emptiness recursion on a query's own stacks: definitions pushed while they
    are resolved, meets while they are unfolded, steps drawn from the budget. Each
    call reads what the recursion over values reads. */
module EmptinessRun {
  import opened Verdicts
  import opened Kinds
  import opened Schemas
  import opened Constructors
  import opened Readings
  import opened Tables
  import opened Shapes
  import opened Bounds
  import opened Narrowing
  import opened Emptiness
  import opened Contexts

  /** The call read `r`: its steps, its bounds, and every stack as it stood. */
  twostate predicate Reads(cx: Cx, r: Read, verdict: Verdict)
    reads cx, cx.budget, cx.thread
  {
    && verdict == r.verdict
    && cx.Spends(r.left, r.met)
    && cx.thread.boundsMet >= old(cx.thread.boundsMet)
    && old(cx.budget.steps) >= r.left
    && cx.thread.taken == old(cx.thread.taken) + (old(cx.budget.steps) - r.left)
  }

  /** Part of a call: what is spent so far, and whether a bound was met. */
  twostate predicate Going(cx: Cx, bound: bool)
    reads cx, cx.budget, cx.thread
  {
    && cx.Spends(cx.budget.steps, bound)
    && cx.since <= old(cx.thread.boundsMet) <= cx.thread.boundsMet
    && cx.budget.depth <= cx.q.maxDepth
    && old(cx.budget.steps) >= cx.budget.steps
    && cx.thread.taken == old(cx.thread.taken) + (old(cx.budget.steps) - cx.budget.steps)
  }

  method EmptyAndRegionRun(s: Schema, cx: Cx) returns (verdict: Verdict, regions: Regions)
    requires cx.since <= cx.thread.boundsMet && cx.budget.depth <= cx.q.maxDepth
    modifies cx`visiting, cx`meets, cx.budget, cx.thread`boundsMet, cx.thread`taken
    ensures var r := EmptyAndRegion(s, cx.q, old(cx.Open()), old(cx.budget.depth), old(cx.budget.steps));
      Reads(cx, r, verdict) && regions == r.regions
    decreases cx.budget.steps, 0, 0, 0
  {
    hide EmptyAndRegionAt;
    var depth := cx.budget.depth;
    if depth >= cx.q.maxDepth {
      cx.thread.boundsMet := cx.thread.boundsMet + 1;
      return Verdict.Unknown, Regions.Unknown;
    }
    cx.budget.depth := depth + 1;
    var spent := cx.Spend();
    if spent {
      verdict, regions := ConstructorRun(s, cx);
    } else {
      verdict, regions := Verdict.Unknown, Regions.Unknown;
    }
    cx.budget.depth := depth;
  }

  method VerdictRun(s: Schema, cx: Cx) returns (verdict: Verdict)
    requires cx.since <= cx.thread.boundsMet && cx.budget.depth <= cx.q.maxDepth
    modifies cx`visiting, cx`meets, cx.budget, cx.thread`boundsMet, cx.thread`taken
    ensures Reads(cx, EmptyAndRegion(s, cx.q, old(cx.Open()), old(cx.budget.depth), old(cx.budget.steps)), verdict)
    decreases cx.budget.steps, 0, 0, 1
  {
    var regions;
    verdict, regions := EmptyAndRegionRun(s, cx);
  }

  /** The match on the constructors, a definition pushed while it is resolved. */
  method ConstructorRun(s: Schema, cx: Cx) returns (verdict: Verdict, regions: Regions)
    requires cx.since <= cx.thread.boundsMet && cx.budget.depth <= cx.q.maxDepth
    modifies cx`visiting, cx`meets, cx.budget, cx.thread`boundsMet, cx.thread`taken
    ensures var r := EmptyAndRegionAt(s, cx.q, old(cx.Open()), old(cx.budget.depth), old(cx.budget.steps));
      Reads(cx, r, verdict) && regions == r.regions
    decreases cx.budget.steps, 3, 0, 0
  {
    hide MeetSettled;
    hide ComplementVerdict;
    hide LiteralVerdict;
    if AtomRegion(s).Some? {
      return Known(AtomRegion(s).value).Settles(), Known(AtomRegion(s).value);
    }
    match s {
      case Nothing => return Verdict.Empty, Known(EMPTY);
      case Anything => return Verdict.Inhabited, Known(ALL);
      case Ref(i) =>
        if i in cx.visiting { return Verdict.Empty, Regions.Unknown; }
        if i >= |cx.q.defs| { return Verdict.Unknown, Regions.Unknown; }
        cx.visiting := cx.visiting + [i];
        var r, _ := EmptyAndRegionRun(cx.q.defs[i], cx);
        cx.visiting := cx.visiting[..|cx.visiting| - 1];
        return r, Regions.Unknown;
      case Seq(_, prefix, _) =>
        verdict := EveryPositionRun(prefix, cx);
        regions := Regions.Unknown;
      case Refine(base, cs) =>
        if cs == [] { verdict, regions := EmptyAndRegionRun(base, cx); }
        else {
          verdict := RefinementRun(base, cs, cx);
          regions := Regions.Unknown;
        }
      case Intersection(ms) => verdict, regions := MeetRun(ms, cx);
      case Coll(_, _) => return Verdict.Inhabited, Regions.Unknown;
      case Union(ms) => verdict, regions := UnionRun(ms, cx);
      case Complement(inner) =>
        var _, held := EmptyAndRegionRun(inner, cx);
        return ComplementVerdict(inner, held.Complement(), cx.q), held.Complement();
      case Literal(c) => return LiteralVerdict(c, cx.q), Regions.Unknown;
      case Instance(c) =>
        return if cx.q.oracle.classIsASet(c) == Some(true) then Verdict.Inhabited else Verdict.Unknown, Regions.Unknown;
      case _ => return Verdict.Unknown, Regions.Unknown;
    }
  }

  /** A product is empty where a component is, read until one is. */
  method EveryPositionRun(ms: seq<Schema>, cx: Cx) returns (verdict: Verdict)
    requires cx.since <= cx.thread.boundsMet && cx.budget.depth <= cx.q.maxDepth
    modifies cx`visiting, cx`meets, cx.budget, cx.thread`boundsMet, cx.thread`taken
    ensures Reads(cx, EveryPosition(ms, Verdict.Inhabited, cx.q, old(cx.Open()), old(cx.budget.depth), old(cx.budget.steps)), verdict)
    decreases cx.budget.steps, 1, |ms|, 0
  {
    hide EmptyAndRegion;
    verdict := Verdict.Inhabited;
    ghost var whole := EveryPosition(ms, verdict, cx.q, cx.Open(), cx.budget.depth, cx.budget.steps);
    ghost var bound := false;
    var i := 0;
    while i < |ms| && !verdict.Empty?
      invariant 0 <= i <= |ms| && Going(cx, bound)
      invariant whole == EveryPosition(ms[i..], verdict, cx.q, cx.Open(), cx.budget.depth, cx.budget.steps).After(bound)
    {
      ghost var first := EmptyAndRegion(ms[i], cx.q, cx.Open(), cx.budget.depth, cx.budget.steps);
      var part, _ := EmptyAndRegionRun(ms[i], cx);
      bound := bound || first.met;
      verdict := Both(verdict, part);
      assert ms[i..][1..] == ms[i + 1..];
      i := i + 1;
    }
  }

  /** Empty where every member is; stopped once neither answer can change. */
  method UnionRun(ms: seq<Schema>, cx: Cx) returns (verdict: Verdict, regions: Regions)
    requires cx.since <= cx.thread.boundsMet && cx.budget.depth <= cx.q.maxDepth
    modifies cx`visiting, cx`meets, cx.budget, cx.thread`boundsMet, cx.thread`taken
    ensures var r := UnionRead(ms, Verdict.Empty, UNION_UNIT, cx.q, old(cx.Open()), old(cx.budget.depth), old(cx.budget.steps));
      Reads(cx, r, verdict) && regions == r.regions
    decreases cx.budget.steps, 1, |ms|, 0
  {
    hide EmptyAndRegion;
    verdict, regions := Verdict.Empty, UNION_UNIT;
    ghost var whole := UnionRead(ms, verdict, regions, cx.q, cx.Open(), cx.budget.depth, cx.budget.steps);
    ghost var bound := false;
    var i := 0;
    while i < |ms| && (verdict.Empty? || regions.Known?)
      invariant 0 <= i <= |ms| && Going(cx, bound)
      invariant whole == UnionRead(ms[i..], verdict, regions, cx.q, cx.Open(), cx.budget.depth, cx.budget.steps).After(bound)
    {
      ghost var first := EmptyAndRegion(ms[i], cx.q, cx.Open(), cx.budget.depth, cx.budget.steps);
      var part, held := EmptyAndRegionRun(ms[i], cx);
      bound := bound || first.met;
      verdict, regions := Either(verdict, part), regions.Union(held);
      assert ms[i..][1..] == ms[i + 1..];
      i := i + 1;
    }
  }

  /** The members of a meet folded, until one is empty and the regions are lost. */
  method MembersRun(ms: seq<Schema>, cx: Cx) returns (empty: bool, regions: Regions)
    requires cx.since <= cx.thread.boundsMet && cx.budget.depth <= cx.q.maxDepth
    modifies cx`visiting, cx`meets, cx.budget, cx.thread`boundsMet, cx.thread`taken
    ensures var (none, r) := MembersRead(ms, false, MEET_UNIT, cx.q, old(cx.Open()), old(cx.budget.depth), old(cx.budget.steps));
      Reads(cx, r, Verdict.Unknown) && empty == none && regions == r.regions
    decreases cx.budget.steps, 1, |ms|, 0
  {
    hide EmptyAndRegion;
    empty, regions := false, MEET_UNIT;
    ghost var whole := MembersRead(ms, empty, regions, cx.q, cx.Open(), cx.budget.depth, cx.budget.steps);
    ghost var bound := false;
    var i := 0;
    while i < |ms| && (!empty || regions.Known?)
      invariant 0 <= i <= |ms| && Going(cx, bound)
      invariant var rest := MembersRead(ms[i..], empty, regions, cx.q, cx.Open(), cx.budget.depth, cx.budget.steps);
        whole == (rest.0, rest.1.After(bound))
    {
      ghost var first := EmptyAndRegion(ms[i], cx.q, cx.Open(), cx.budget.depth, cx.budget.steps);
      var part, held := EmptyAndRegionRun(ms[i], cx);
      bound := bound || first.met;
      empty, regions := empty || part.Empty?, regions.Intersect(held);
      assert ms[i..][1..] == ms[i + 1..];
      i := i + 1;
    }
  }

  method MeetRun(ms: seq<Schema>, cx: Cx) returns (verdict: Verdict, regions: Regions)
    requires cx.since <= cx.thread.boundsMet && cx.budget.depth <= cx.q.maxDepth
    modifies cx`visiting, cx`meets, cx.budget, cx.thread`boundsMet, cx.thread`taken
    ensures var r := MeetRead(ms, cx.q, old(cx.Open()), old(cx.budget.depth), old(cx.budget.steps));
      Reads(cx, r, verdict) && regions == r.regions
    decreases cx.budget.steps, 2, 0, 0
  {
    hide MeetSettled;
    hide DeclinedMeetRead;
    hide MembersRead;
    var empty;
    empty, regions := MembersRun(ms, cx);
    verdict := MeetSettled(ms, empty, regions, cx.q);
    if verdict.Unknown? { verdict := DeclinedMeetRun(ms, cx); }
  }

  /** A declined meet, by one reading after another until one answers. */
  method DeclinedMeetRun(ms: seq<Schema>, cx: Cx) returns (verdict: Verdict)
    requires cx.since <= cx.thread.boundsMet && cx.budget.depth <= cx.q.maxDepth
    modifies cx`visiting, cx`meets, cx.budget, cx.thread`boundsMet, cx.thread`taken
    ensures Reads(cx, DeclinedMeetRead(ms, cx.q, old(cx.Open()), old(cx.budget.depth), old(cx.budget.steps)), verdict)
    decreases cx.budget.steps, 1, |ms| + 4, 0
  {
    hide EmptyAndRegion;
    hide OneRefinement;
    hide AnEmptyContainerInEveryMember;
    hide AClassBelowTheComplementBesideIt;
    hide TheTablesHold;
    hide AMemberPastTheBoundsBesideIt;
    hide PositionsMeeting;
    hide RespelledMeetRead;
    var one := OneRefinement(ms);
    if one.Some? {
      verdict := VerdictRun(one.value, cx);
      if !verdict.Unknown? { return; }
    }
    if AnEmptyContainerInEveryMember(ms) { return Verdict.Inhabited; }
    verdict := PositionsMeetingRun(ms, cx);
    if !verdict.Unknown? { return; }
    if AClassBelowTheComplementBesideIt(ms, cx.q) { return Verdict.Empty; }
    verdict := RespelledMeetRun(ms, cx);
    if !verdict.Unknown? { return; }
    verdict := TheTablesHold(ms, cx.q.oracle);
    if verdict.Unknown? && AMemberPastTheBoundsBesideIt(ms) { verdict := Verdict.Empty; }
  }

  /** The meet narrowed, and then distributed on an allowance of what is left,
      whose spending the query is charged. */
  method RespelledMeetRun(ms: seq<Schema>, cx: Cx) returns (verdict: Verdict)
    requires cx.since <= cx.thread.boundsMet && cx.budget.depth <= cx.q.maxDepth
    modifies cx`visiting, cx`meets, cx.budget, cx.thread`boundsMet, cx.thread`taken
    ensures Reads(cx, RespelledMeetRead(ms, cx.q, old(cx.Open()), old(cx.budget.depth), old(cx.budget.steps)), verdict)
    decreases cx.budget.steps, 1, |ms| + 3, 0
  {
    hide EmptyAndRegion;
    hide DistributedRead;
    hide NarrowedMeet;
    var narrowed := NarrowedMeet(ms, cx.q.gate);
    if narrowed.None? {
      verdict := DistributedRun(ms, cx);
      return;
    }
    verdict := VerdictRun(narrowed.value, cx);
    if verdict.Unknown? {
      var left := cx.budget.steps;
      var allowance := Least(left, cx.q.respelling);
      cx.budget.steps := allowance;
      verdict := DistributedRun(ms, cx);
      cx.budget.steps := left - (allowance - cx.budget.steps);
    }
  }

  method PositionsMeetingRun(ms: seq<Schema>, cx: Cx) returns (verdict: Verdict)
    requires cx.since <= cx.thread.boundsMet && cx.budget.depth <= cx.q.maxDepth
    modifies cx`visiting, cx`meets, cx.budget, cx.thread`boundsMet, cx.thread`taken
    ensures Reads(cx, PositionsMeeting(ms, cx.q, old(cx.Open()), old(cx.budget.depth), old(cx.budget.steps)), verdict)
    decreases cx.budget.steps, 1, |ms| + 3, 0
  {
    hide EmptyAndRegion;
    hide SequencesOf;
    var found := SequencesOf(ms);
    if |found| < 2 || found[0].container != found[1].container { return Verdict.Unknown; }
    var a, b := found[0], found[1];
    ghost var whole := PositionMeeting(a, b, 0, cx.q, cx.Open(), cx.budget.depth, cx.budget.steps);
    ghost var bound := false;
    var position := 0;
    while position < PositionsRead(a, b)
      invariant Going(cx, bound)
      invariant whole == PositionMeeting(a, b, position, cx.q, cx.Open(), cx.budget.depth, cx.budget.steps).After(bound)
    {
      if a.At(position).Some? && b.At(position).Some? {
        var meet := MeetWithin([a.At(position).value, b.At(position).value], cx.q.gate, true);
        ghost var first := EmptyAndRegion(meet, cx.q, cx.Open(), cx.budget.depth, cx.budget.steps);
        var part, _ := EmptyAndRegionRun(meet, cx);
        bound := bound || first.met;
        if part.Empty? { return Verdict.Empty; }
      }
      position := position + 1;
    }
    return Verdict.Unknown;
  }

  /** A reference unfolded or a union distributed among the members; the meet is
      held open while its branches are read, and read as empty met again. */
  method DistributedRun(ms: seq<Schema>, cx: Cx) returns (verdict: Verdict)
    requires cx.since <= cx.thread.boundsMet && cx.budget.depth <= cx.q.maxDepth
    modifies cx`visiting, cx`meets, cx.budget, cx.thread`boundsMet, cx.thread`taken
    ensures Reads(cx, DistributedRead(ms, cx.q, old(cx.Open()), old(cx.budget.depth), old(cx.budget.steps)), verdict)
    decreases cx.budget.steps, 1, |ms| + 2, 0
  {
    hide BranchesRead;
    hide NormalFormWithin;
    var reference := ReferenceAt(ms, cx.q.defs, 0);
    var at := if reference.Some? then reference else UnionAt(ms, 0);
    if at.None? { return Verdict.Unknown; }
    var branches := BranchesOf(ms[at.value], cx.q.defs);
    if reference.Some? || (exists b <- branches :: b.Ref?) || cx.meets != [] {
      var goal := CanonicalMembers(ms);
      if goal in cx.meets { return Verdict.Empty; }
      cx.meets := cx.meets + [goal];
      verdict := BranchesRun(branches, ms, ms[at.value], cx);
      cx.meets := cx.meets[..|cx.meets| - 1];
    } else if NormalFormWithin(ms, 1) {
      verdict := BranchesRun(branches, ms, ms[at.value], cx);
    } else {
      verdict := Verdict.Unknown;
    }
  }

  method BranchesRun(branches: seq<Schema>, ms: seq<Schema>, distributed: Schema, cx: Cx) returns (verdict: Verdict)
    requires cx.since <= cx.thread.boundsMet && cx.budget.depth <= cx.q.maxDepth
    modifies cx`visiting, cx`meets, cx.budget, cx.thread`boundsMet, cx.thread`taken
    ensures Reads(cx, BranchesRead(branches, ms, distributed, Verdict.Empty, cx.q, old(cx.Open()), old(cx.budget.depth), old(cx.budget.steps)), verdict)
    decreases cx.budget.steps, 0, 1 + |branches|, 0
  {
    hide EmptyAndRegion;
    verdict := Verdict.Empty;
    ghost var whole := BranchesRead(branches, ms, distributed, verdict, cx.q, cx.Open(), cx.budget.depth, cx.budget.steps);
    ghost var bound := false;
    var i := 0;
    while i < |branches| && !verdict.Inhabited?
      invariant 0 <= i <= |branches| && Going(cx, bound)
      invariant whole == BranchesRead(branches[i..], ms, distributed, verdict, cx.q, cx.Open(), cx.budget.depth, cx.budget.steps).After(bound)
    {
      var meet := Intersection(BranchMeet(branches[i], ms, distributed));
      ghost var first := EmptyAndRegion(meet, cx.q, cx.Open(), cx.budget.depth, cx.budget.steps);
      var part, _ := EmptyAndRegionRun(meet, cx);
      bound := bound || first.met;
      verdict := Either(verdict, part);
      assert branches[i..][1..] == branches[i + 1..];
      i := i + 1;
    }
  }

  method RefinementRun(base: Schema, cs: seq<Constraint>, cx: Cx) returns (verdict: Verdict)
    requires cx.since <= cx.thread.boundsMet && cx.budget.depth <= cx.q.maxDepth
    modifies cx`visiting, cx`meets, cx.budget, cx.thread`boundsMet, cx.thread`taken
    ensures Reads(cx, RefinementRead(base, cs, cx.q, old(cx.Open()), old(cx.budget.depth), old(cx.budget.steps)), verdict)
    decreases cx.budget.steps, 2, Size(base), 0
  {
    hide EmptyAndRegion;
    hide SizedRead;
    hide RefinedBranchesRead;
    hide Unsatisfiable;
    hide LengthsMiss;
    if base.Refine? {
      verdict := VerdictRun(Refined(base, cs), cx);
      return;
    }
    verdict := VerdictRun(base, cx);
    if verdict.Empty? || Unsatisfiable(cs, cx.q.oracle, CountsIntegers([base])) { return Verdict.Empty; }
    var repeats := Verdict.Unknown;
    if base.Seq? && base.tail.Some? { repeats := VerdictRun(base.tail.value, cx); }
    if LengthsMiss(base, cs, repeats.Empty?) { return Verdict.Empty; }
    if base.Union? {
      verdict := RefinedBranchesRun(base.members, cs, cx);
      return;
    }
    if base.Int? || !(forall c <- cs :: c.MinLen? || c.MaxLen?) { return Verdict.Unknown; }
    verdict := SizedRun(base, cs, cx);
    if verdict.Inhabited? && Shortest(cs) > cx.q.longest { verdict := Verdict.Unknown; }
  }

  method RefinedBranchesRun(branches: seq<Schema>, cs: seq<Constraint>, cx: Cx) returns (verdict: Verdict)
    requires cx.since <= cx.thread.boundsMet && cx.budget.depth <= cx.q.maxDepth
    modifies cx`visiting, cx`meets, cx.budget, cx.thread`boundsMet, cx.thread`taken
    ensures Reads(cx, RefinedBranchesRead(branches, cs, Verdict.Empty, cx.q, old(cx.Open()), old(cx.budget.depth), old(cx.budget.steps)), verdict)
    decreases cx.budget.steps, 2, SizeOfAll(branches), 1 + |branches|
  {
    hide RefinementRead;
    verdict := Verdict.Empty;
    ghost var whole := RefinedBranchesRead(branches, cs, verdict, cx.q, cx.Open(), cx.budget.depth, cx.budget.steps);
    ghost var bound := false;
    var i := 0;
    while i < |branches| && !verdict.Inhabited?
      invariant 0 <= i <= |branches| && Going(cx, bound)
      invariant whole == RefinedBranchesRead(branches[i..], cs, verdict, cx.q, cx.Open(), cx.budget.depth, cx.budget.steps).After(bound)
    {
      ghost var first := RefinementRead(branches[i], cs, cx.q, cx.Open(), cx.budget.depth, cx.budget.steps);
      var part := RefinementRun(branches[i], cs, cx);
      bound := bound || first.met;
      verdict := Either(verdict, part);
      assert branches[i..][1..] == branches[i + 1..];
      i := i + 1;
    }
  }

  method SizedRun(base: Schema, cs: seq<Constraint>, cx: Cx) returns (verdict: Verdict)
    requires cx.since <= cx.thread.boundsMet && cx.budget.depth <= cx.q.maxDepth
    modifies cx`visiting, cx`meets, cx.budget, cx.thread`boundsMet, cx.thread`taken
    ensures Reads(cx, SizedRead(base, cs, cx.q, old(cx.Open()), old(cx.budget.depth), old(cx.budget.steps)), verdict)
    decreases cx.budget.steps, 1, 0, 0
  {
    hide EmptyAndRegion;
    hide EveryInhabited;
    hide AValueCanHash;
    var repeated := Repeated(base);
    if repeated.Some? && Shortest(cs) == 0 { return Verdict.Inhabited; }
    if repeated.Some? && (base.Seq? || (Shortest(cs) == 1 && AValueCanHash(repeated.value))) {
      verdict := VerdictRun(repeated.value, cx);
      return;
    }
    if base.Str? || base.Bytes? { return Verdict.Inhabited; }
    if base.Seq? && base.tail.Some? {
      verdict := EveryInhabitedRun(base.prefix + [base.tail.value], cx);
      if !verdict.Inhabited? { verdict := Verdict.Unknown; }
      return;
    }
    return Verdict.Unknown;
  }

  method EveryInhabitedRun(ms: seq<Schema>, cx: Cx) returns (verdict: Verdict)
    requires cx.since <= cx.thread.boundsMet && cx.budget.depth <= cx.q.maxDepth
    modifies cx`visiting, cx`meets, cx.budget, cx.thread`boundsMet, cx.thread`taken
    ensures Reads(cx, EveryInhabited(ms, cx.q, old(cx.Open()), old(cx.budget.depth), old(cx.budget.steps)), verdict)
    decreases cx.budget.steps, 0, 1 + |ms|, 0
  {
    hide EmptyAndRegion;
    ghost var whole := EveryInhabited(ms, cx.q, cx.Open(), cx.budget.depth, cx.budget.steps);
    ghost var bound := false;
    for i := 0 to |ms|
      invariant Going(cx, bound)
      invariant whole == EveryInhabited(ms[i..], cx.q, cx.Open(), cx.budget.depth, cx.budget.steps).After(bound)
    {
      ghost var first := EmptyAndRegion(ms[i], cx.q, cx.Open(), cx.budget.depth, cx.budget.steps);
      var part, _ := EmptyAndRegionRun(ms[i], cx);
      bound := bound || first.met;
      if !part.Inhabited? { return Verdict.Unknown; }
      assert ms[i..][1..] == ms[i + 1..];
    }
    return Verdict.Inhabited;
  }
}
