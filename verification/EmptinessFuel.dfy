/** Monotonicity of the emptiness recursion in its bounds: a reading that met none
    is the reading the same term has under any others as wide, and one that has
    steps left is the reading it has with more. */
module EmptinessFuel {
  import opened Verdicts
  import opened Kinds
  import opened Schemas
  import opened Constructors
  import opened Oracles
  import opened Shapes
  import opened Bounds
  import opened Narrowing
  import opened Emptiness
  import opened Unbounded

  /** The bounds of `w` leave as many levels from `higher` as those of `q` from
      `depth`, and are no less. */
  ghost predicate Wider(q: Setting, depth: nat, w: Setting, higher: nat) {
    Alike(q, w) && higher + q.maxDepth <= depth + w.maxDepth && q.maxDepth <= w.maxDepth && q.respelling <= w.respelling
  }

  ghost predicate Same(q: Setting, depth: nat, w: Setting, higher: nat) { q == w && depth == higher }

  /** The same answer, with the extra steps left over: of a reading no bound stopped,
      and under the same levels and allowance of one with a step left. */
  ghost predicate Extends(more: Read, less: Read, extra: nat, same: bool) {
    !less.met || (same && less.left > 0) ==> more == less.(left := More(less.left, extra))
  }

  lemma {:induction false} MoreSteps(s: Schema, q: Setting, h: Held, depth: nat, steps: nat, w: Setting, higher: nat, extra: nat)
    requires Wider(q, depth, w, higher)
    ensures Extends(EmptyAndRegion(s, w, h, higher, More(steps, extra)), EmptyAndRegion(s, q, h, depth, steps), extra, Same(q, depth, w, higher))
    decreases steps, 0, 0
  {
    if depth < q.maxDepth && steps > 0 {
      MoreStepsAt(s, q, h, depth + 1, steps - 1, w, higher + 1, extra);
    }
  }

  lemma {:induction false} MoreStepsAt(s: Schema, q: Setting, h: Held, depth: nat, left: nat, w: Setting, higher: nat, extra: nat)
    requires Wider(q, depth, w, higher)
    ensures Extends(EmptyAndRegionAt(s, w, h, higher, More(left, extra)), EmptyAndRegionAt(s, q, h, depth, left), extra, Same(q, depth, w, higher))
    decreases left, 3, 0
  {
    hide EmptyAndRegion;
    hide MeetSettled;
    match s
    case Ref(i) =>
      if i < |q.defs| { MoreSteps(q.defs[i], q, h.(visiting := h.visiting + [i]), depth, left, w, higher, extra); }
    case Seq(_, prefix, _) => MoreForPositions(prefix, Verdict.Inhabited, q, h, depth, left, w, higher, extra);
    case Refine(base, cs) =>
      if cs == [] { MoreSteps(base, q, h, depth, left, w, higher, extra); }
      else { MoreForARefinement(base, cs, q, h, depth, left, w, higher, extra); }
    case Intersection(ms) => MoreForAMeet(ms, q, h, depth, left, w, higher, extra);
    case Union(ms) => MoreForAUnion(ms, Verdict.Empty, UNION_UNIT, q, h, depth, left, w, higher, extra);
    case Complement(inner) => MoreSteps(inner, q, h, depth, left, w, higher, extra);
    case _ =>
  }

  lemma {:induction false} MoreForPositions(ms: seq<Schema>, verdict: Verdict, q: Setting, h: Held, depth: nat, left: nat, w: Setting, higher: nat, extra: nat)
    requires Wider(q, depth, w, higher)
    ensures Extends(EveryPosition(ms, verdict, w, h, higher, More(left, extra)), EveryPosition(ms, verdict, q, h, depth, left), extra, Same(q, depth, w, higher))
    decreases left, 1, |ms|
  {
    hide EmptyAndRegion;
    hide MeetSettled;
    if ms != [] && !verdict.Empty? {
      var first := EmptyAndRegion(ms[0], q, h, depth, left);
      MoreSteps(ms[0], q, h, depth, left, w, higher, extra);
      MoreForPositions(ms[1..], Both(verdict, first.verdict), q, h, depth, first.left, w, higher, extra);
    }
  }

  lemma {:induction false} MoreForAUnion(ms: seq<Schema>, verdict: Verdict, regions: Regions, q: Setting, h: Held, depth: nat, left: nat, w: Setting, higher: nat, extra: nat)
    requires Wider(q, depth, w, higher)
    ensures Extends(UnionRead(ms, verdict, regions, w, h, higher, More(left, extra)), UnionRead(ms, verdict, regions, q, h, depth, left), extra, Same(q, depth, w, higher))
    decreases left, 1, |ms|
  {
    hide EmptyAndRegion;
    hide MeetSettled;
    if ms != [] && !(!verdict.Empty? && regions.Unknown?) {
      var first := EmptyAndRegion(ms[0], q, h, depth, left);
      MoreSteps(ms[0], q, h, depth, left, w, higher, extra);
      MoreForAUnion(ms[1..], Either(verdict, first.verdict), regions.Union(first.regions), q, h, depth, first.left, w, higher, extra);
    }
  }

  lemma {:induction false} MoreForMembers(ms: seq<Schema>, empty: bool, regions: Regions, q: Setting, h: Held, depth: nat, left: nat, w: Setting, higher: nat, extra: nat)
    requires Wider(q, depth, w, higher)
    ensures var less, more := MembersRead(ms, empty, regions, q, h, depth, left), MembersRead(ms, empty, regions, w, h, higher, More(left, extra));
      Extends(more.1, less.1, extra, Same(q, depth, w, higher)) && (!less.1.met || (Same(q, depth, w, higher) && less.1.left > 0) ==> more.0 == less.0)
    decreases left, 1, |ms|
  {
    hide EmptyAndRegion;
    hide MeetSettled;
    if ms != [] && !(empty && regions.Unknown?) {
      var first := EmptyAndRegion(ms[0], q, h, depth, left);
      MoreSteps(ms[0], q, h, depth, left, w, higher, extra);
      MoreForMembers(ms[1..], empty || first.verdict.Empty?, regions.Intersect(first.regions), q, h, depth, first.left, w, higher, extra);
    }
  }

  lemma {:induction false} MoreForAMeet(ms: seq<Schema>, q: Setting, h: Held, depth: nat, left: nat, w: Setting, higher: nat, extra: nat)
    requires Wider(q, depth, w, higher)
    ensures Extends(MeetRead(ms, w, h, higher, More(left, extra)), MeetRead(ms, q, h, depth, left), extra, Same(q, depth, w, higher))
    decreases left, 2, 0, 0
  {
    hide EmptyAndRegion;
    hide MeetSettled;
    MoreForMembers(ms, false, MEET_UNIT, q, h, depth, left, w, higher, extra);
    var (empty, members) := MembersRead(ms, false, MEET_UNIT, q, h, depth, left);
    SettledAlike(ms, empty, members.regions, q, w);
    MoreForADeclinedMeet(ms, q, h, depth, members.left, w, higher, extra);
  }

  lemma {:induction false} MoreForADeclinedMeet(ms: seq<Schema>, q: Setting, h: Held, depth: nat, left: nat, w: Setting, higher: nat, extra: nat)
    requires Wider(q, depth, w, higher)
    ensures Extends(DeclinedMeetRead(ms, w, h, higher, More(left, extra)), DeclinedMeetRead(ms, q, h, depth, left), extra, Same(q, depth, w, higher))
    decreases left, 1, |ms| + 4
  {
    hide EmptyAndRegion;
    hide PositionsMeeting;
    hide RespelledMeetRead;
    hide OneRefinement;
    hide AnEmptyContainerInEveryMember;
    hide AClassBelowTheComplementBesideIt;
    hide AMemberPastTheBoundsBesideIt;
    hide MeetSettled;
    AClassIsReadAlike(ms, q, w);
    if OneRefinement(ms).Some? { MoreSteps(OneRefinement(ms).value, q, h, depth, left, w, higher, extra); }
    var one := if OneRefinement(ms).Some? then EmptyAndRegion(OneRefinement(ms).value, q, h, depth, left)
               else Settled(Verdict.Unknown, left);
    if one.verdict.Unknown? && !AnEmptyContainerInEveryMember(ms) {
      MoreForPositionsMeeting(ms, q, h, depth, one.left, w, higher, extra);
      var placed := PositionsMeeting(ms, q, h, depth, one.left);
      MoreForARespelledMeet(ms, q, h, depth, placed.left, w, higher, extra);
    }
  }

  lemma {:induction false} MoreForARespelledMeet(ms: seq<Schema>, q: Setting, h: Held, depth: nat, left: nat, w: Setting, higher: nat, extra: nat)
    requires Wider(q, depth, w, higher)
    ensures Extends(RespelledMeetRead(ms, w, h, higher, More(left, extra)), RespelledMeetRead(ms, q, h, depth, left), extra, Same(q, depth, w, higher))
    decreases left, 1, |ms| + 3
  {
    hide EmptyAndRegion;
    hide DistributedRead;
    hide NarrowedMeet;
    hide MeetSettled;
    if NarrowedMeet(ms, q.gate).None? {
      MoreForADistributed(ms, q, h, depth, left, w, higher, extra);
    } else {
      MoreSteps(NarrowedMeet(ms, q.gate).value, q, h, depth, left, w, higher, extra);
      var narrowed := EmptyAndRegion(NarrowedMeet(ms, q.gate).value, q, h, depth, left);
      var allowance, more := Least(narrowed.left, q.respelling), Least(More(narrowed.left, extra), w.respelling);
      MoreForADistributed(ms, q, h, depth, allowance, w, higher, more - allowance);
      assert allowance + (more - allowance) == more;
    }
  }

  lemma {:induction false} MoreForPositionsMeeting(ms: seq<Schema>, q: Setting, h: Held, depth: nat, left: nat, w: Setting, higher: nat, extra: nat)
    requires Wider(q, depth, w, higher)
    ensures Extends(PositionsMeeting(ms, w, h, higher, More(left, extra)), PositionsMeeting(ms, q, h, depth, left), extra, Same(q, depth, w, higher))
    decreases left, 1, |ms| + 3
  {
    hide EmptyAndRegion;
    var found := SequencesOf(ms);
    if |found| >= 2 && found[0].container == found[1].container {
      MoreForAPosition(found[0], found[1], 0, q, h, depth, left, w, higher, extra);
    }
  }

  lemma {:induction false} MoreForAPosition(a: Sequence, b: Sequence, position: nat, q: Setting, h: Held, depth: nat, left: nat, w: Setting, higher: nat, extra: nat)
    requires Wider(q, depth, w, higher)
    ensures Extends(PositionMeeting(a, b, position, w, h, higher, More(left, extra)), PositionMeeting(a, b, position, q, h, depth, left), extra, Same(q, depth, w, higher))
    decreases left, 0, 1 + if position < PositionsRead(a, b) then PositionsRead(a, b) - position else 0
  {
    hide EmptyAndRegion;
    hide MeetSettled;
    if position < PositionsRead(a, b) {
      if a.At(position).None? || b.At(position).None? {
        MoreForAPosition(a, b, position + 1, q, h, depth, left, w, higher, extra);
      } else {
        var both := MeetWithin([a.At(position).value, b.At(position).value], q.gate, true);
        MoreSteps(both, q, h, depth, left, w, higher, extra);
        MoreForAPosition(a, b, position + 1, q, h, depth, EmptyAndRegion(both, q, h, depth, left).left, w, higher, extra);
      }
    }
  }

  lemma {:induction false} MoreForADistributed(ms: seq<Schema>, q: Setting, h: Held, depth: nat, left: nat, w: Setting, higher: nat, extra: nat)
    requires Wider(q, depth, w, higher)
    ensures Extends(DistributedRead(ms, w, h, higher, More(left, extra)), DistributedRead(ms, q, h, depth, left), extra, Same(q, depth, w, higher))
    decreases left, 1, |ms| + 2
  {
    hide EmptyAndRegion;
    hide MeetSettled;
    var reference := ReferenceAt(ms, q.defs, 0);
    var at := if reference.Some? then reference else UnionAt(ms, 0);
    if at.Some? {
      var branches := BranchesOf(ms[at.value], q.defs);
      var goal := CanonicalMembers(ms);
      MoreForBranches(branches, ms, ms[at.value], Verdict.Empty, q, h.(meets := h.meets + [goal]), depth, left, w, higher, extra);
      MoreForBranches(branches, ms, ms[at.value], Verdict.Empty, q, h, depth, left, w, higher, extra);
    }
  }

  lemma {:induction false} MoreForBranches(branches: seq<Schema>, ms: seq<Schema>, distributed: Schema, verdict: Verdict, q: Setting, h: Held, depth: nat, left: nat, w: Setting, higher: nat, extra: nat)
    requires Wider(q, depth, w, higher)
    ensures Extends(BranchesRead(branches, ms, distributed, verdict, w, h, higher, More(left, extra)),
                    BranchesRead(branches, ms, distributed, verdict, q, h, depth, left), extra, Same(q, depth, w, higher))
    decreases left, 0, 1 + |branches|
  {
    hide EmptyAndRegion;
    hide MeetSettled;
    if branches != [] && !verdict.Inhabited? {
      var meet := Intersection(BranchMeet(branches[0], ms, distributed));
      var first := EmptyAndRegion(meet, q, h, depth, left);
      MoreSteps(meet, q, h, depth, left, w, higher, extra);
      MoreForBranches(branches[1..], ms, distributed, Either(verdict, first.verdict), q, h, depth, first.left, w, higher, extra);
    }
  }

  lemma {:induction false} MoreForARefinement(base: Schema, cs: seq<Constraint>, q: Setting, h: Held, depth: nat, left: nat, w: Setting, higher: nat, extra: nat)
    requires Wider(q, depth, w, higher)
    ensures Extends(RefinementRead(base, cs, w, h, higher, More(left, extra)), RefinementRead(base, cs, q, h, depth, left), extra, Same(q, depth, w, higher))
    decreases left, 2, Size(base), 0
  {
    hide SizeOfAll;
    hide EmptyAndRegion;
    hide SizedRead;
    hide RefinedBranchesRead;
    hide Unsatisfiable;
    hide LengthsMiss;
    hide MeetSettled;
    if base.Refine? {
      MoreSteps(Refined(base, cs), q, h, depth, left, w, higher, extra);
    } else {
      MoreSteps(base, q, h, depth, left, w, higher, extra);
      var based := EmptyAndRegion(base, q, h, depth, left);
      if base.Seq? && base.tail.Some? { MoreSteps(base.tail.value, q, h, depth, based.left, w, higher, extra); }
      var repeats := if base.Seq? && base.tail.Some? then EmptyAndRegion(base.tail.value, q, h, depth, based.left)
                     else Settled(Verdict.Unknown, based.left);
      if base.Union? {
        MoreForRefinedBranches(base.members, cs, Verdict.Empty, q, h, depth, repeats.left, w, higher, extra);
      } else {
        MoreForASized(base, cs, q, h, depth, repeats.left, w, higher, extra);
      }
    }
  }

  lemma {:induction false} MoreForRefinedBranches(branches: seq<Schema>, cs: seq<Constraint>, verdict: Verdict, q: Setting, h: Held, depth: nat, left: nat, w: Setting, higher: nat, extra: nat)
    requires Wider(q, depth, w, higher)
    ensures Extends(RefinedBranchesRead(branches, cs, verdict, w, h, higher, More(left, extra)),
                    RefinedBranchesRead(branches, cs, verdict, q, h, depth, left), extra, Same(q, depth, w, higher))
    decreases left, 2, SizeOfAll(branches), |branches|
  {
    hide EmptyAndRegion;
    hide MeetSettled;
    if branches != [] && !verdict.Inhabited? {
      var first := RefinementRead(branches[0], cs, q, h, depth, left);
      MoreForARefinement(branches[0], cs, q, h, depth, left, w, higher, extra);
      MoreForRefinedBranches(branches[1..], cs, Either(verdict, first.verdict), q, h, depth, first.left, w, higher, extra);
    }
  }

  lemma {:induction false} MoreForASized(base: Schema, cs: seq<Constraint>, q: Setting, h: Held, depth: nat, left: nat, w: Setting, higher: nat, extra: nat)
    requires Wider(q, depth, w, higher)
    ensures Extends(SizedRead(base, cs, w, h, higher, More(left, extra)), SizedRead(base, cs, q, h, depth, left), extra, Same(q, depth, w, higher))
    decreases left, 1, 0
  {
    hide EmptyAndRegion;
    hide MeetSettled;
    if Repeated(base).Some? { MoreSteps(Repeated(base).value, q, h, depth, left, w, higher, extra); }
    if base.Seq? && base.tail.Some? { MoreForEvery(base.prefix + [base.tail.value], q, h, depth, left, w, higher, extra); }
  }

  lemma {:induction false} MoreForEvery(ms: seq<Schema>, q: Setting, h: Held, depth: nat, left: nat, w: Setting, higher: nat, extra: nat)
    requires Wider(q, depth, w, higher)
    ensures Extends(EveryInhabited(ms, w, h, higher, More(left, extra)), EveryInhabited(ms, q, h, depth, left), extra, Same(q, depth, w, higher))
    decreases left, 0, 1 + |ms|
  {
    hide EmptyAndRegion;
    hide MeetSettled;
    if ms != [] {
      MoreSteps(ms[0], q, h, depth, left, w, higher, extra);
      MoreForEvery(ms[1..], q, h, depth, EmptyAndRegion(ms[0], q, h, depth, left).left, w, higher, extra);
    }
  }
}
