/** The emptiness recursion ends without its bounds: each reading opens one more of
    finitely many hypotheses or asks smaller terms, so some bounds are never met. */
module EmptinessEnds {
  import opened Verdicts
  import opened Kinds
  import opened Schemas
  import opened SortedLists
  import opened Constructors
  import opened Oracles
  import opened Tables
  import opened Shapes
  import opened Bounds
  import opened Narrowing
  import opened Emptiness
  import opened Unbounded
  import opened EmptinessFuel
  import opened Closure

  // ---- Readings that meet no bound.

  /** Levels, steps and an allowance of `n` are left. */
  ghost predicate Room(w: Setting, depth: int, steps: int, n: int) {
    depth + n <= w.maxDepth && n <= w.respelling && n <= steps
  }

  ghost predicate EndsIn(r: Read, steps: int, n: int) { !r.met && steps <= r.left + n }

  /** With that room the reading meets no bound, and spends no more. */
  ghost predicate Ends(s: Schema, q: Setting, h: Held, n: int) {
    forall w: Setting, depth: nat, steps: nat | Alike(q, w) && Room(w, depth, steps, n) :: EndsIn(EmptyAndRegion(s, w, h, depth, steps), steps, n)
  }

  ghost predicate AllEnd(ms: seq<Schema>, q: Setting, h: Held, n: int) { forall t <- ms :: Ends(t, q, h, n) }

  lemma EndsWithMore(s: Schema, q: Setting, h: Held, n: nat, more: nat)
    requires Ends(s, q, h, n) && n <= more
    ensures Ends(s, q, h, more)
  {
    hide EmptyAndRegion;
  }

  lemma AllEndWithMore(ms: seq<Schema>, q: Setting, h: Held, n: nat, more: nat)
    requires AllEnd(ms, q, h, n) && n <= more
    ensures AllEnd(ms, q, h, more)
  {
    hide Ends;
    forall t | t in ms ensures Ends(t, q, h, more) { EndsWithMore(t, q, h, n, more); }
  }

  ghost function Times(k: int, n: nat): nat
    decreases k
  {
    if k <= 0 then 0 else n + Times(k - 1, n)
  }

  lemma {:induction false} TimesAdd(j: nat, k: nat, n: nat)
    ensures Times(j + k, n) == Times(j, n) + Times(k, n)
  {
    if j > 0 { TimesAdd(j - 1, k, n); }
  }

  // ---- The folds over members, each ask ending within `n`.

  lemma {:induction false} PositionsEnd(ms: seq<Schema>, verdict: Verdict, q: Setting, h: Held, n: nat, w: Setting, depth: nat, left: nat)
    requires AllEnd(ms, q, h, n) && Alike(q, w) && depth + n <= w.maxDepth && n <= w.respelling && Times(|ms|, n) <= left
    ensures EndsIn(EveryPosition(ms, verdict, w, h, depth, left), left, Times(|ms|, n))
  {
    hide EmptyAndRegion;
    if ms != [] && !verdict.Empty? {
      assert ms[0] in ms;
      var first := EmptyAndRegion(ms[0], w, h, depth, left);
      assert Room(w, depth, left, n);
      PositionsEnd(ms[1..], Both(verdict, first.verdict), q, h, n, w, depth, first.left);
    }
  }

  lemma {:induction false} BranchesOfAUnionEnd(ms: seq<Schema>, verdict: Verdict, regions: Regions, q: Setting, h: Held, n: nat, w: Setting, depth: nat, left: nat)
    requires AllEnd(ms, q, h, n) && Alike(q, w) && depth + n <= w.maxDepth && n <= w.respelling && Times(|ms|, n) <= left
    ensures EndsIn(UnionRead(ms, verdict, regions, w, h, depth, left), left, Times(|ms|, n))
  {
    hide EmptyAndRegion;
    if ms != [] && !(!verdict.Empty? && regions.Unknown?) {
      assert ms[0] in ms;
      var first := EmptyAndRegion(ms[0], w, h, depth, left);
      assert Room(w, depth, left, n);
      BranchesOfAUnionEnd(ms[1..], Either(verdict, first.verdict), regions.Union(first.regions), q, h, n, w, depth, first.left);
    }
  }

  lemma {:induction false} MembersEnd(ms: seq<Schema>, empty: bool, regions: Regions, q: Setting, h: Held, n: nat, w: Setting, depth: nat, left: nat)
    requires AllEnd(ms, q, h, n) && Alike(q, w) && depth + n <= w.maxDepth && n <= w.respelling && Times(|ms|, n) <= left
    ensures EndsIn(MembersRead(ms, empty, regions, w, h, depth, left).1, left, Times(|ms|, n))
  {
    hide EmptyAndRegion;
    if ms != [] && !(empty && regions.Unknown?) {
      assert ms[0] in ms;
      var first := EmptyAndRegion(ms[0], w, h, depth, left);
      assert Room(w, depth, left, n);
      MembersEnd(ms[1..], empty || first.verdict.Empty?, regions.Intersect(first.regions), q, h, n, w, depth, first.left);
    }
  }

  lemma {:induction false} EveryOneEnds(ms: seq<Schema>, q: Setting, h: Held, n: nat, w: Setting, depth: nat, left: nat)
    requires AllEnd(ms, q, h, n) && Alike(q, w) && depth + n <= w.maxDepth && n <= w.respelling && Times(|ms|, n) <= left
    ensures EndsIn(EveryInhabited(ms, w, h, depth, left), left, Times(|ms|, n))
  {
    hide EmptyAndRegion;
    if ms != [] {
      assert ms[0] in ms;
      var first := EmptyAndRegion(ms[0], w, h, depth, left);
      assert Room(w, depth, left, n);
      EveryOneEnds(ms[1..], q, h, n, w, depth, first.left);
    }
  }

  // ---- A meet by its positions, by its branches, and in all its readings.

  ghost predicate PairEnds(a: Sequence, b: Sequence, i: nat, q: Setting, h: Held, n: int) {
    a.At(i).Some? && b.At(i).Some? ==> Ends(MeetWithin([a.At(i).value, b.At(i).value], q.gate, true), q, h, n)
  }

  ghost predicate PairsEnd(a: Sequence, b: Sequence, q: Setting, h: Held, n: int) {
    forall i: nat | i < PositionsRead(a, b) :: PairEnds(a, b, i, q, h, n)
  }

  lemma {:induction false} APositionEnds(a: Sequence, b: Sequence, position: nat, q: Setting, h: Held, n: nat, w: Setting, depth: nat, left: nat)
    requires position <= PositionsRead(a, b) && PairsEnd(a, b, q, h, n)
    requires Alike(q, w) && depth + n <= w.maxDepth && n <= w.respelling && Times(PositionsRead(a, b) - position, n) <= left
    ensures EndsIn(PositionMeeting(a, b, position, w, h, depth, left), left, Times(PositionsRead(a, b) - position, n))
    decreases PositionsRead(a, b) - position
  {
    hide EmptyAndRegion, MeetWithin, PositionsRead;
    if position < PositionsRead(a, b) {
      assert PairEnds(a, b, position, q, h, n);
      assert Room(w, depth, left, n);
      if a.At(position).None? || b.At(position).None? {
        APositionEnds(a, b, position + 1, q, h, n, w, depth, left);
      } else {
        var first := EmptyAndRegion(MeetWithin([a.At(position).value, b.At(position).value], w.gate, true), w, h, depth, left);
        APositionEnds(a, b, position + 1, q, h, n, w, depth, first.left);
      }
    }
  }

  ghost predicate BranchesEnd(branches: seq<Schema>, ms: seq<Schema>, distributed: Schema, q: Setting, h: Held, n: int) {
    forall b <- branches :: Ends(Intersection(BranchMeet(b, ms, distributed)), q, h, n)
  }

  lemma {:induction false} EachBranchEnds(branches: seq<Schema>, ms: seq<Schema>, distributed: Schema, verdict: Verdict, q: Setting, h: Held, n: nat, w: Setting, depth: nat, left: nat)
    requires BranchesEnd(branches, ms, distributed, q, h, n)
    requires Alike(q, w) && depth + n <= w.maxDepth && n <= w.respelling && Times(|branches|, n) <= left
    ensures EndsIn(BranchesRead(branches, ms, distributed, verdict, w, h, depth, left), left, Times(|branches|, n))
  {
    hide EmptyAndRegion, BranchMeet;
    if branches != [] && !verdict.Inhabited? {
      assert branches[0] in branches;
      var first := EmptyAndRegion(Intersection(BranchMeet(branches[0], ms, distributed)), w, h, depth, left);
      assert Room(w, depth, left, n);
      EachBranchEnds(branches[1..], ms, distributed, Either(verdict, first.verdict), q, h, n, w, depth, first.left);
    }
  }

  /** The member a meet is unfolded or distributed at, and what is held open while
      its branches are read. */
  ghost function DistributedAt(ms: seq<Schema>, defs: seq<Schema>): (r: Option<nat>)
    ensures r.Some? ==> r.value < |ms| && (ms[r.value].Union? || (ms[r.value].Ref? && ms[r.value].definition < |defs|))
  {
    var reference := ReferenceAt(ms, defs, 0);
    if reference.Some? then reference else UnionAt(ms, 0)
  }

  ghost predicate OpensTheMeet(ms: seq<Schema>, branches: seq<Schema>, q: Setting, h: Held) {
    ReferenceAt(ms, q.defs, 0).Some? || (exists b <- branches :: b.Ref?) || h.meets != []
  }

  ghost predicate DistributedEnds(ms: seq<Schema>, q: Setting, h: Held, n: int) {
    var at := DistributedAt(ms, q.defs);
    at.Some? ==>
      var branches := BranchesOf(ms[at.value], q.defs);
      if OpensTheMeet(ms, branches, q, h) then
        CanonicalMembers(ms) in h.meets
        || BranchesEnd(branches, ms, ms[at.value], q, h.(meets := h.meets + [CanonicalMembers(ms)]), n)
      else NormalFormWithin(ms, 1) ==> BranchesEnd(branches, ms, ms[at.value], q, h, n)
  }

  ghost function Branches(ms: seq<Schema>, q: Setting): nat {
    var at := DistributedAt(ms, q.defs);
    if at.None? then 0 else |BranchesOf(ms[at.value], q.defs)|
  }

  lemma ADistributedEnds(ms: seq<Schema>, q: Setting, h: Held, n: nat, w: Setting, depth: nat, left: nat)
    requires DistributedEnds(ms, q, h, n)
    requires Alike(q, w) && depth + n <= w.maxDepth && n <= w.respelling && Times(Branches(ms, q), n) <= left
    ensures EndsIn(DistributedRead(ms, w, h, depth, left), left, Times(Branches(ms, q), n))
  {
    hide BranchesRead, BranchesEnd, CanonicalMembers, NormalFormWithin, ReferenceAt, UnionAt, BranchesOf;
    var at := DistributedAt(ms, q.defs);
    if at.Some? {
      var branches, open := BranchesOf(ms[at.value], q.defs), h.(meets := h.meets + [CanonicalMembers(ms)]);
      if BranchesEnd(branches, ms, ms[at.value], q, open, n) {
        EachBranchEnds(branches, ms, ms[at.value], Verdict.Empty, q, open, n, w, depth, left);
      }
      if BranchesEnd(branches, ms, ms[at.value], q, h, n) {
        EachBranchEnds(branches, ms, ms[at.value], Verdict.Empty, q, h, n, w, depth, left);
      }
    }
  }

  ghost predicate PositionsOfAMeetEnd(ms: seq<Schema>, q: Setting, h: Held, n: int) {
    var found := SequencesOf(ms);
    |found| >= 2 ==> PairsEnd(found[0], found[1], q, h, n)
  }

  ghost function Positions(ms: seq<Schema>): nat {
    var found := SequencesOf(ms);
    if |found| < 2 then 0 else PositionsRead(found[0], found[1])
  }

  /** Everything a meet asks ends within `n`. */
  ghost predicate MeetAsksEnd(ms: seq<Schema>, q: Setting, h: Held, n: int) {
    && AllEnd(ms, q, h, n)
    && (OneRefinement(ms).Some? ==> Ends(OneRefinement(ms).value, q, h, n))
    && PositionsOfAMeetEnd(ms, q, h, n)
    && (NarrowedMeet(ms, q.gate).Some? ==> Ends(NarrowedMeet(ms, q.gate).value, q, h, n))
    && DistributedEnds(ms, q, h, n)
  }

  lemma ARespelledMeetEnds(ms: seq<Schema>, q: Setting, h: Held, n: nat, w: Setting, depth: nat, left: nat)
    requires MeetAsksEnd(ms, q, h, n) && Alike(q, w) && Room(w, depth, left, n + Times(Branches(ms, q), n))
    ensures EndsIn(RespelledMeetRead(ms, w, h, depth, left), left, n + Times(Branches(ms, q), n))
  {
    hide EmptyAndRegion, DistributedRead, DistributedEnds, NarrowedMeet, Branches, Times, OneRefinement, PositionsOfAMeetEnd, AllEnd;
    if NarrowedMeet(ms, w.gate).None? {
      ADistributedEnds(ms, q, h, n, w, depth, left);
    } else {
      assert Room(w, depth, left, n);
      var narrowed := EmptyAndRegion(NarrowedMeet(ms, w.gate).value, w, h, depth, left);
      ADistributedEnds(ms, q, h, n, w, depth, Least(narrowed.left, w.respelling));
    }
  }

  lemma PositionsOfAMeetAreRead(ms: seq<Schema>, q: Setting, h: Held, n: nat, w: Setting, depth: nat, left: nat)
    requires PositionsOfAMeetEnd(ms, q, h, n)
    requires Alike(q, w) && depth + n <= w.maxDepth && n <= w.respelling && Times(Positions(ms), n) <= left
    ensures EndsIn(PositionsMeeting(ms, w, h, depth, left), left, Times(Positions(ms), n))
  {
    hide PositionMeeting, PairsEnd, PositionsRead, SequencesOf;
    var found := SequencesOf(ms);
    if |found| >= 2 { APositionEnds(found[0], found[1], 0, q, h, n, w, depth, left); }
  }

  lemma ADeclinedMeetEnds(ms: seq<Schema>, q: Setting, h: Held, n: nat, w: Setting, depth: nat, left: nat)
    requires MeetAsksEnd(ms, q, h, n) && Alike(q, w)
    requires Room(w, depth, left, n + Times(Positions(ms), n) + n + Times(Branches(ms, q), n))
    ensures EndsIn(DeclinedMeetRead(ms, w, h, depth, left), left, n + Times(Positions(ms), n) + n + Times(Branches(ms, q), n))
  {
    hide EmptyAndRegion, DistributedEnds, NarrowedMeet, Branches, Positions, Times, OneRefinement, PositionsOfAMeetEnd, AllEnd, PositionsMeeting,
         RespelledMeetRead, AnEmptyContainerInEveryMember, AClassBelowTheComplementBesideIt, AMemberPastTheBoundsBesideIt, TheTablesHold;
    assert Room(w, depth, left, n);
    var one := if OneRefinement(ms).Some? then EmptyAndRegion(OneRefinement(ms).value, w, h, depth, left) else Settled(Verdict.Unknown, left);
    PositionsOfAMeetAreRead(ms, q, h, n, w, depth, one.left);
    var placed := PositionsMeeting(ms, w, h, depth, one.left);
    ARespelledMeetEnds(ms, q, h, n, w, depth, placed.left);
  }

  ghost function AsksOfAMeet(ms: seq<Schema>, q: Setting): nat { |ms| + 2 + Positions(ms) + Branches(ms, q) }

  lemma AMeetEnds(ms: seq<Schema>, q: Setting, h: Held, n: nat, w: Setting, depth: nat, left: nat)
    requires MeetAsksEnd(ms, q, h, n) && Alike(q, w) && Room(w, depth, left, Times(AsksOfAMeet(ms, q), n))
    ensures EndsIn(MeetRead(ms, w, h, depth, left), left, Times(AsksOfAMeet(ms, q), n))
  {
    hide EmptyAndRegion, DistributedEnds, NarrowedMeet, Branches, Positions, OneRefinement, PositionsOfAMeetEnd, AllEnd, MembersRead, DeclinedMeetRead,
         MeetSettled, Times;
    TimesOfAMeet(|ms|, Positions(ms), Branches(ms, q), n);
    MembersEnd(ms, false, MEET_UNIT, q, h, n, w, depth, left);
    var (_, members) := MembersRead(ms, false, MEET_UNIT, w, h, depth, left);
    ADeclinedMeetEnds(ms, q, h, n, w, depth, members.left);
  }

  lemma TimesOfAMeet(members: nat, positions: nat, branches: nat, n: nat)
    ensures Times(members + 2 + positions + branches, n) == Times(members, n) + n + Times(positions, n) + n + Times(branches, n)
  {
    hide Times;
    TimesAdd(members + 2 + positions, branches, n);
    TimesAdd(members + 2, positions, n);
    TimesAdd(members, 2, n);
    assert Times(2, n) == n + n by { TimesOfTwo(n); }
  }

  lemma TimesOfTwo(n: nat)
    ensures Times(2, n) == n + n && Times(1, n) == n
  {
    assert Times(1, n) == n + Times(0, n);
  }

  // ---- A refinement.

  /** The asks of a refinement of `base`, counted. */
  ghost function AsksOfABase(base: Schema): nat
    decreases base, 1
  {
    match base
    case Refine(_, _) => 1
    case Union(ms) => 2 + AsksOfBases(ms)
    case Seq(_, prefix, _) => 3 + |prefix|
    case _ => 2
  }

  ghost function AsksOfBases(ms: seq<Schema>): nat
    decreases ms, 0
  {
    if ms == [] then 0 else AsksOfABase(ms[0]) + AsksOfBases(ms[1..])
  }

  /** Everything a refinement of `base` asks ends within `n`. */
  ghost predicate RefinementAsksEnd(base: Schema, cs: seq<Constraint>, q: Setting, h: Held, n: int)
    decreases base
  {
    if base.Refine? then Ends(Refined(base, cs), q, h, n)
    else
      && Ends(base, q, h, n)
      && (base.Seq? ==> AllEnd(base.prefix, q, h, n) && (base.tail.Some? ==> Ends(base.tail.value, q, h, n)))
      && (base.Coll? ==> Ends(base.element, q, h, n))
      && (base.Union? ==> forall i | 0 <= i < |base.members| :: RefinementAsksEnd(base.members[i], cs, q, h, n))
  }

  lemma ASizedBaseEnds(base: Schema, cs: seq<Constraint>, q: Setting, h: Held, n: nat, w: Setting, depth: nat, left: nat)
    requires !base.Refine? && !base.Union? && RefinementAsksEnd(base, cs, q, h, n)
    requires Alike(q, w) && depth + n <= w.maxDepth && n <= w.respelling
    requires Times(if base.Seq? then |base.prefix| + 1 else 1, n) <= left
    ensures EndsIn(SizedRead(base, cs, w, h, depth, left), left, Times(if base.Seq? then |base.prefix| + 1 else 1, n))
  {
    hide EmptyAndRegion, EveryInhabited, AValueCanHash;
    TimesAdd(if base.Seq? then |base.prefix| else 0, 1, n);
    TimesOfTwo(n);
    assert Room(w, depth, left, n);
    if base.Seq? && base.tail.Some? {
      assert AllEnd(base.prefix + [base.tail.value], q, h, n);
      EveryOneEnds(base.prefix + [base.tail.value], q, h, n, w, depth, left);
    }
  }

  lemma {:induction false} ARefinementEnds(base: Schema, cs: seq<Constraint>, q: Setting, h: Held, n: nat, w: Setting, depth: nat, left: nat)
    requires RefinementAsksEnd(base, cs, q, h, n)
    requires Alike(q, w) && depth + n <= w.maxDepth && n <= w.respelling && Times(AsksOfABase(base), n) <= left
    ensures EndsIn(RefinementRead(base, cs, w, h, depth, left), left, Times(AsksOfABase(base), n))
    decreases base, 1
  {
    hide EmptyAndRegion, SizedRead, RefinedBranchesRead, Unsatisfiable, LengthsMiss, Times, AsksOfBases;
    TimesOfTwo(n);
    if base.Refine? {
      assert Room(w, depth, left, n);
    } else {
      TimesOfABase(base, n);
      assert Room(w, depth, left, n);
      var based := EmptyAndRegion(base, w, h, depth, left);
      var repeats := if base.Seq? && base.tail.Some? then EmptyAndRegion(base.tail.value, w, h, depth, based.left)
                     else Settled(Verdict.Unknown, based.left);
      assert base.Seq? ==> Room(w, depth, based.left, n);
      if base.Union? {
        RefinedBranchesEnd(base.members, cs, Verdict.Empty, q, h, n, w, depth, repeats.left);
      } else {
        ASizedBaseEnds(base, cs, q, h, n, w, depth, repeats.left);
      }
    }
  }

  lemma TimesOfABase(base: Schema, n: nat)
    requires !base.Refine?
    ensures base.Union? ==> Times(AsksOfABase(base), n) == n + n + Times(AsksOfBases(base.members), n)
    ensures base.Seq? ==> Times(AsksOfABase(base), n) == n + n + Times(|base.prefix| + 1, n)
    ensures !base.Union? && !base.Seq? ==> Times(AsksOfABase(base), n) == n + Times(1, n)
  {
    hide Times;
    TimesOfTwo(n);
    if base.Union? { TimesAdd(2, AsksOfBases(base.members), n); }
    if base.Seq? { TimesAdd(2, |base.prefix| + 1, n); }
  }

  lemma {:induction false} RefinedBranchesEnd(ms: seq<Schema>, cs: seq<Constraint>, verdict: Verdict, q: Setting, h: Held, n: nat, w: Setting, depth: nat, left: nat)
    requires forall i | 0 <= i < |ms| :: RefinementAsksEnd(ms[i], cs, q, h, n)
    requires Alike(q, w) && depth + n <= w.maxDepth && n <= w.respelling && Times(AsksOfBases(ms), n) <= left
    ensures EndsIn(RefinedBranchesRead(ms, cs, verdict, w, h, depth, left), left, Times(AsksOfBases(ms), n))
    decreases ms, 0
  {
    hide RefinementAsksEnd, RefinementRead, Times;
    if ms != [] && !verdict.Inhabited? {
      TimesAdd(AsksOfABase(ms[0]), AsksOfBases(ms[1..]), n);
      var first := RefinementRead(ms[0], cs, w, h, depth, left);
      ARefinementEnds(ms[0], cs, q, h, n, w, depth, left);
      RefinedBranchesEnd(ms[1..], cs, Either(verdict, first.verdict), q, h, n, w, depth, first.left);
    }
  }

  // ---- One reading, what it asks ending within `n`.

  /** What the reading of a term asks, and the number of its asks. */
  ghost predicate AsksEnd(s: Schema, q: Setting, h: Held, n: int) {
    match s
    case Ref(i) => i < |q.defs| && i !in h.visiting ==> Ends(q.defs[i], q, h.(visiting := h.visiting + [i]), n)
    case Seq(_, prefix, _) => AllEnd(prefix, q, h, n)
    case Refine(base, cs) => if cs == [] then Ends(base, q, h, n) else RefinementAsksEnd(base, cs, q, h, n)
    case Intersection(ms) => MeetAsksEnd(ms, q, h, n)
    case Union(ms) => AllEnd(ms, q, h, n)
    case Complement(inner) => Ends(inner, q, h, n)
    case _ => true
  }

  ghost function AsksOf(s: Schema, q: Setting): nat {
    match s
    case Seq(_, prefix, _) => |prefix|
    case Refine(base, cs) => if cs == [] then 1 else AsksOfABase(base)
    case Intersection(ms) => AsksOfAMeet(ms, q)
    case Union(ms) => |ms|
    case _ => 1
  }

  lemma AtOnceEnds(s: Schema, q: Setting, h: Held, n: nat, w: Setting, depth: nat, left: nat)
    requires AsksEnd(s, q, h, n) && Alike(q, w) && Room(w, depth, left, n + Times(AsksOf(s, q), n))
    ensures EndsIn(EmptyAndRegionAt(s, w, h, depth, left), left, n + Times(AsksOf(s, q), n))
  {
    hide EmptyAndRegion, EveryPosition, UnionRead, MeetRead, RefinementRead, MeetAsksEnd, RefinementAsksEnd, AsksOfAMeet, AsksOfABase, ComplementVerdict,
         LiteralVerdict, Times;
    TimesOfTwo(n);
    assert Room(w, depth, left, n);
    match s
    case Seq(_, prefix, _) => PositionsEnd(prefix, Verdict.Inhabited, q, h, n, w, depth, left);
    case Refine(base, cs) => if cs != [] { ARefinementEnds(base, cs, q, h, n, w, depth, left); }
    case Intersection(ms) => AMeetEnds(ms, q, h, n, w, depth, left);
    case Union(ms) => BranchesOfAUnionEnd(ms, Verdict.Empty, UNION_UNIT, q, h, n, w, depth, left);
    case _ =>
  }

  lemma OneLevelEnds(s: Schema, q: Setting, h: Held, n: nat) returns (total: nat)
    requires AsksEnd(s, q, h, n)
    ensures Ends(s, q, h, total)
  {
    total := 1 + n + Times(AsksOf(s, q), n);
    hide EmptyAndRegionAt, Times, AsksOf, AsksEnd;
    forall w: Setting, depth: nat, steps: nat | Alike(q, w) && Room(w, depth, steps, total) ensures EndsIn(EmptyAndRegion(s, w, h, depth, steps), steps, total) {
      AtOnceEnds(s, q, h, n, w, depth + 1, steps - 1);
    }
  }

  // ---- What each asks is reached, and smaller or under one more hypothesis.

  ghost function Unresolved(q: Setting, h: Held): set<nat> { set i: nat | i < |q.defs| && i !in h.visiting }

  ghost function Unopened(h: Held, p: Space): set<seq<Schema>> { Meets(p) - set ms | ms in h.meets }

  /** The hypotheses that are left to open. */
  ghost function Fresh(q: Setting, h: Held, p: Space): nat { |Unresolved(q, h)| + |Unopened(h, p)| }

  lemma ResolvingLeavesFewer(i: nat, q: Setting, h: Held, p: Space)
    requires i < |q.defs| && i !in h.visiting
    ensures Fresh(q, h.(visiting := h.visiting + [i]), p) < Fresh(q, h, p)
  {
    hide Meets;
    assert i in Unresolved(q, h);
    assert Unresolved(q, h.(visiting := h.visiting + [i])) == Unresolved(q, h) - {i};
  }

  lemma OpeningLeavesFewer(ms: seq<Schema>, q: Setting, h: Held, p: Space)
    requires (forall t <- ms :: Small(t, p)) && CanonicalMembers(ms) !in h.meets
    ensures Fresh(q, h.(meets := h.meets + [CanonicalMembers(ms)]), p) < Fresh(q, h, p)
  {
    hide Meets, Small;
    SchemasAreOrdered();
    CanonicalIsSorted(ms, Precedes);
    var goal := CanonicalMembers(ms);
    AMeetIsListed(goal, p);
    assert goal in Unopened(h, p);
    assert Unopened(h.(meets := h.meets + [goal]), p) == Unopened(h, p) - {goal};
  }

  ghost function SizeOfSequence(a: Sequence): nat { 2 + SizeOfAll(a.prefix) + if a.tail.Some? then Size(a.tail.value) else 0 }

  ghost predicate SequenceFits(a: Sequence, p: Space) {
    AllWithin(a.prefix, p.alphabet) && (a.tail.Some? ==> Within(a.tail.value, p.alphabet)) && SizeOfSequence(a) <= p.most
  }

  lemma OneSequenceFits(s: Schema, p: Space)
    requires Small(s, p)
    ensures |SequencesOf([s])| <= 1
    ensures forall a <- SequencesOf([s]) :: SequenceFits(a, p) && SizeOfSequence(a) <= Size(s)
  {
    assert [s][1..] == [];
    if s.Refine? && s.base.Seq? { assert Within(s.base, p.alphabet) && Size(s) == 1 + Size(s.base); }
  }

  lemma {:induction false} SequencesFit(ms: seq<Schema>, p: Space)
    requires forall t <- ms :: Small(t, p)
    ensures forall a <- SequencesOf(ms) :: SequenceFits(a, p)
    ensures |SequencesOf(ms)| >= 1 ==> SizeOfSequence(SequencesOf(ms)[0]) <= SizeOfAll(ms)
    ensures |SequencesOf(ms)| >= 2 ==> SizeOfSequence(SequencesOf(ms)[0]) + SizeOfSequence(SequencesOf(ms)[1]) <= SizeOfAll(ms)
  {
    hide SequenceFits, SizeOfSequence, Small;
    if ms != [] {
      assert ms[0] in ms;
      OneSequenceFits(ms[0], p);
      SequencesFit(ms[1..], p);
      assert SequencesOf(ms) == SequencesOf([ms[0]]) + SequencesOf(ms[1..]) by { assert [ms[0]][1..] == []; }
      var first := SequencesOf([ms[0]]);
      if first != [] { assert first[0] in first; }
    }
  }

  lemma AnElementFits(a: Sequence, i: nat, p: Space)
    requires SequenceFits(a, p) && a.At(i).Some?
    ensures Small(a.At(i).value, p) && Size(a.At(i).value) + 2 <= SizeOfSequence(a)
  {
    assert i < |a.prefix| ==> a.prefix[i] in a.prefix;
  }

  lemma APositionIsSmaller(a: Sequence, b: Sequence, i: nat, p: Space, gate: Gate)
    requires p.most > 0 && SequenceFits(a, p) && SequenceFits(b, p) && a.At(i).Some? && b.At(i).Some?
    ensures Reached(MeetWithin([a.At(i).value, b.At(i).value], gate, true), p)
    ensures Size(MeetWithin([a.At(i).value, b.At(i).value], gate, true)) <= SizeOfSequence(a) + SizeOfSequence(b)
  {
    hide MeetWithin, SequenceFits, SizeOfSequence, Small;
    var x, y := a.At(i).value, b.At(i).value;
    AnElementFits(a, i, p);
    AnElementFits(b, i, p);
    SizesAdd([x], [y]);
    assert [x] + [y] == [x, y] && [x][1..] == [] && [y][1..] == [];
    MeetStays([x, y], gate, true, p.alphabet);
    AMeetIsReached([x, y], gate, true, p);
  }

  lemma {:induction false} GatheredStay(ms: seq<Schema>, p: Space)
    requires forall t <- ms :: Small(t, p)
    ensures forall c <- GatheredConstraints(ms) :: c in p.alphabet.constraints
  {
    if ms != [] {
      assert ms[0] in ms;
      GatheredStay(ms[1..], p);
    }
  }

  lemma OneRefinementIsSmall(ms: seq<Schema>, p: Space)
    requires OneRefinement(ms).Some? && forall t <- ms :: Small(t, p)
    ensures Small(OneRefinement(ms).value, p) && Size(OneRefinement(ms).value) <= SizeOfAll(ms)
  {
    hide Refined, Within, GatheredConstraints;
    assert ms[0] in ms;
    GatheredStay(ms[1..], p);
    ARefinementStays(ms[0], GatheredConstraints(ms[1..]), p.alphabet);
  }

  lemma ABranchMeetIsReached(b: Schema, ms: seq<Schema>, distributed: Schema, p: Space)
    requires Small(b, p) && forall t <- ms :: Small(t, p)
    ensures Reached(Intersection(BranchMeet(b, ms, distributed)), p)
  {
    hide Size;
    if b.Intersection? { forall t | t in b.members ensures Small(t, p) { SmallMembers(b, t, p); } }
  }

  lemma ABranchMeetIsSmaller(b: Schema, ms: seq<Schema>, union: Schema)
    requires union in ms && union.Union? && b in union.members
    ensures Size(Intersection(BranchMeet(b, ms, union))) < Size(Intersection(ms))
  {
    hide Size, SizeOfAll, Without;
    var own := if b.Intersection? then b.members else [b];
    AMembersSize(union.members, b);
    WithoutIsSmaller(ms, union);
    SizesAdd(own, Without(ms, union));
    ListsSize(union);
    ListsSize(Intersection(ms));
    ListsSize(Intersection(BranchMeet(b, ms, union)));
    ListsSize(b);
    OneOnTheList(b);
  }

  lemma ListsSize(s: Schema)
    ensures s.Union? || s.Intersection? ==> Size(s) == 1 + SizeOfAll(s.members)
  {
  }

  // ---- Whatever is reached, every reading of it ends.

  lemma {:induction false} ReadingEnds(s: Schema, q: Setting, h: Held, p: Space) returns (n: nat)
    requires Reached(s, p) && SmallDefinitions(q, p)
    ensures Ends(s, q, h, n)
    decreases Fresh(q, h, p), Size(s), 4
  {
    hide Fresh, AsksEnd, Ends;
    var each := AsksOfAReadingEnd(s, q, h, p);
    n := OneLevelEnds(s, q, h, each);
  }

  lemma {:induction false} AsksOfAReadingEnd(s: Schema, q: Setting, h: Held, p: Space) returns (n: nat)
    requires Reached(s, p) && SmallDefinitions(q, p)
    ensures AsksEnd(s, q, h, n)
    decreases Fresh(q, h, p), Size(s), 3
  {
    hide Fresh, Ends, RefinementAsksEnd, MeetAsksEnd;
    n := 0;
    match s
    case Ref(i) =>
      if i < |q.defs| && i !in h.visiting {
        ResolvingLeavesFewer(i, q, h, p);
        n := ReadingEnds(q.defs[i], q, h.(visiting := h.visiting + [i]), p);
      }
    case Seq(_, prefix, _) =>
      ElementsAreSmall(s, p);
      n := AllReadingsEnd(prefix, q, h, p);
    case Refine(base, cs) => if cs == [] { n := ReadingEnds(base, q, h, p); } else { n := RefinementAsks(base, cs, q, h, p); }
    case Intersection(ms) =>
      if Small(s, p) { forall t | t in ms ensures Small(t, p) { SmallMembers(s, t, p); } }
      n := MeetAsks(ms, q, h, p);
    case Union(ms) =>
      forall t | t in ms ensures Small(t, p) { SmallMembers(s, t, p); }
      n := AllReadingsEnd(ms, q, h, p);
    case Complement(inner) => n := ReadingEnds(inner, q, h, p);
    case _ =>
  }

  lemma {:induction false} AllReadingsEnd(ms: seq<Schema>, q: Setting, h: Held, p: Space) returns (n: nat)
    requires SmallDefinitions(q, p) && forall t <- ms :: Small(t, p)
    ensures AllEnd(ms, q, h, n)
    decreases Fresh(q, h, p), SizeOfAll(ms), 5
  {
    hide Fresh, Ends, Small;
    n := 0;
    if ms != [] {
      assert ms[0] in ms;
      var first := ReadingEnds(ms[0], q, h, p);
      var rest := AllReadingsEnd(ms[1..], q, h, p);
      n := first + rest;
      EndsWithMore(ms[0], q, h, first, n);
      AllEndWithMore(ms[1..], q, h, rest, n);
    }
  }

  lemma {:induction false} PairReadingsEnd(a: Sequence, b: Sequence, to: nat, q: Setting, h: Held, p: Space) returns (n: nat)
    requires SmallDefinitions(q, p) && SequenceFits(a, p) && SequenceFits(b, p)
    ensures forall i: nat | i < to :: PairEnds(a, b, i, q, h, n)
    decreases Fresh(q, h, p), SizeOfSequence(a) + SizeOfSequence(b), 5, to
  {
    hide Fresh, Ends, Small, MeetWithin, SequenceFits, SizeOfSequence;
    n := 0;
    if to > 0 {
      n := PairReadingsEnd(a, b, to - 1, q, h, p);
      if a.At(to - 1).Some? && b.At(to - 1).Some? {
        var meet := MeetWithin([a.At(to - 1).value, b.At(to - 1).value], q.gate, true);
        APositionIsSmaller(a, b, to - 1, p, q.gate);
        var last := ReadingEnds(meet, q, h, p);
        var more := n + last;
        EndsWithMore(meet, q, h, last, more);
        forall i: nat | i < to - 1 ensures PairEnds(a, b, i, q, h, more) { APairEndsWithMore(a, b, i, q, h, n, more); }
        n := more;
      }
    }
  }

  lemma APairEndsWithMore(a: Sequence, b: Sequence, i: nat, q: Setting, h: Held, n: nat, more: nat)
    requires PairEnds(a, b, i, q, h, n) && n <= more
    ensures PairEnds(a, b, i, q, h, more)
  {
    hide Ends;
    if a.At(i).Some? && b.At(i).Some? { EndsWithMore(MeetWithin([a.At(i).value, b.At(i).value], q.gate, true), q, h, n, more); }
  }

  lemma {:induction false} RefinementAsks(base: Schema, cs: seq<Constraint>, q: Setting, h: Held, p: Space) returns (n: nat)
    requires SmallDefinitions(q, p) && Small(base, p) && forall c <- cs :: c in p.alphabet.constraints
    ensures RefinementAsksEnd(base, cs, q, h, n)
    decreases Fresh(q, h, p), Size(base), 5
  {
    hide Fresh, Ends, Refined;
    if base.Refine? {
      ARefinementStays(base, cs, p.alphabet);
      n := ReadingEnds(Refined(base, cs), q, h, p);
    } else {
      var whole := ReadingEnds(base, q, h, p);
      var parts := 0;
      if base.Seq? {
        ElementsAreSmall(base, p);
        parts := AllReadingsEnd(base.prefix, q, h, p);
        if base.tail.Some? {
          var tail := ReadingEnds(base.tail.value, q, h, p);
          EndsWithMore(base.tail.value, q, h, tail, whole + parts + tail);
          AllEndWithMore(base.prefix, q, h, parts, parts + tail);
          parts := parts + tail;
        }
        AllEndWithMore(base.prefix, q, h, parts, whole + parts);
      } else if base.Coll? {
        parts := ReadingEnds(base.element, q, h, p);
        EndsWithMore(base.element, q, h, parts, whole + parts);
      } else if base.Union? {
        forall t | t in base.members ensures Small(t, p) { SmallMembers(base, t, p); }
        parts := RefinedBranchAsks(base.members, cs, q, h, p);
        forall i | 0 <= i < |base.members| ensures RefinementAsksEnd(base.members[i], cs, q, h, whole + parts) {
          RefinementAsksWithMore(base.members[i], cs, q, h, parts, whole + parts);
        }
      }
      n := whole + parts;
      EndsWithMore(base, q, h, whole, n);
    }
  }

  lemma {:induction false} RefinementAsksWithMore(base: Schema, cs: seq<Constraint>, q: Setting, h: Held, n: nat, more: nat)
    requires RefinementAsksEnd(base, cs, q, h, n) && n <= more
    ensures RefinementAsksEnd(base, cs, q, h, more)
    decreases base
  {
    hide Ends, Refined;
    if base.Refine? {
      EndsWithMore(Refined(base, cs), q, h, n, more);
    } else {
      EndsWithMore(base, q, h, n, more);
      if base.Seq? {
        AllEndWithMore(base.prefix, q, h, n, more);
        if base.tail.Some? { EndsWithMore(base.tail.value, q, h, n, more); }
      }
      if base.Coll? { EndsWithMore(base.element, q, h, n, more); }
      if base.Union? {
        forall i | 0 <= i < |base.members| ensures RefinementAsksEnd(base.members[i], cs, q, h, more) {
          RefinementAsksWithMore(base.members[i], cs, q, h, n, more);
        }
      }
    }
  }

  lemma {:induction false} RefinedBranchAsks(ms: seq<Schema>, cs: seq<Constraint>, q: Setting, h: Held, p: Space) returns (n: nat)
    requires SmallDefinitions(q, p) && (forall t <- ms :: Small(t, p)) && forall c <- cs :: c in p.alphabet.constraints
    ensures forall i | 0 <= i < |ms| :: RefinementAsksEnd(ms[i], cs, q, h, n)
    decreases Fresh(q, h, p), SizeOfAll(ms), 6
  {
    hide Fresh, Ends, Small, RefinementAsksEnd;
    n := 0;
    if ms != [] {
      assert ms[0] in ms;
      var first := RefinementAsks(ms[0], cs, q, h, p);
      var rest := RefinedBranchAsks(ms[1..], cs, q, h, p);
      n := first + rest;
      RefinementAsksWithMore(ms[0], cs, q, h, first, n);
      forall i | 0 <= i < |ms| ensures RefinementAsksEnd(ms[i], cs, q, h, n) {
        if i > 0 { RefinementAsksWithMore(ms[1..][i - 1], cs, q, h, rest, n); }
      }
    }
  }

  lemma {:induction false} BranchReadingsEnd(branches: seq<Schema>, ms: seq<Schema>, distributed: Schema, size: nat, q: Setting, h: Held, p: Space) returns (n: nat)
    requires SmallDefinitions(q, p) && (forall t <- branches :: Small(t, p)) && (forall t <- ms :: Small(t, p))
    requires forall b <- branches :: Size(Intersection(BranchMeet(b, ms, distributed))) < size
    ensures BranchesEnd(branches, ms, distributed, q, h, n)
    decreases Fresh(q, h, p), size, 0, |branches|
  {
    hide Fresh, Ends, Small, BranchMeet;
    n := 0;
    if branches != [] {
      assert branches[0] in branches;
      ABranchMeetIsReached(branches[0], ms, distributed, p);
      var first := ReadingEnds(Intersection(BranchMeet(branches[0], ms, distributed)), q, h, p);
      var rest := BranchReadingsEnd(branches[1..], ms, distributed, size, q, h, p);
      n := first + rest;
      forall b | b in branches ensures Ends(Intersection(BranchMeet(b, ms, distributed)), q, h, n) {
        EndsWithMore(Intersection(BranchMeet(b, ms, distributed)), q, h, if b in branches[1..] then rest else first, n);
      }
    }
  }

  /** A size past every branch's meet. */
  ghost function PastTheBranchMeets(branches: seq<Schema>, ms: seq<Schema>, distributed: Schema): (size: nat)
    ensures forall b <- branches :: Size(Intersection(BranchMeet(b, ms, distributed))) < size
  {
    if branches == [] then 0
    else Size(Intersection(BranchMeet(branches[0], ms, distributed))) + 1 + PastTheBranchMeets(branches[1..], ms, distributed)
  }

  lemma {:induction false} DistributedAsks(ms: seq<Schema>, q: Setting, h: Held, p: Space) returns (n: nat)
    requires SmallDefinitions(q, p) && forall t <- ms :: Small(t, p)
    ensures DistributedEnds(ms, q, h, n)
    decreases Fresh(q, h, p), 1 + SizeOfAll(ms), 1
  {
    hide Fresh, Ends, BranchesEnd, BranchMeet, CanonicalMembers, NormalFormWithin, ReferenceAt, UnionAt, PastTheBranchMeets, Small;
    n := 0;
    var at := DistributedAt(ms, q.defs);
    if at.Some? {
      var branches := BranchesOf(ms[at.value], q.defs);
      BranchesAreSmall(ms, at.value, q, p);
      if OpensTheMeet(ms, branches, q, h) {
        if CanonicalMembers(ms) !in h.meets {
          OpeningLeavesFewer(ms, q, h, p);
          n := BranchReadingsEnd(branches, ms, ms[at.value], PastTheBranchMeets(branches, ms, ms[at.value]), q, h.(meets := h.meets + [CanonicalMembers(ms)]), p);
        }
      } else {
        AUnionIsDistributed(ms, q);
        forall b | b in branches ensures Size(Intersection(BranchMeet(b, ms, ms[at.value]))) < 1 + SizeOfAll(ms) { ABranchMeetIsSmaller(b, ms, ms[at.value]); }
        n := BranchReadingsEnd(branches, ms, ms[at.value], 1 + SizeOfAll(ms), q, h, p);
      }
    }
  }

  lemma AUnionIsDistributed(ms: seq<Schema>, q: Setting)
    ensures var at := DistributedAt(ms, q.defs);
      ReferenceAt(ms, q.defs, 0).None? && at.Some? ==> ms[at.value].Union? && BranchesOf(ms[at.value], q.defs) == ms[at.value].members
  {
  }

  lemma BranchesAreSmall(ms: seq<Schema>, at: nat, q: Setting, p: Space)
    requires SmallDefinitions(q, p) && (forall t <- ms :: Small(t, p))
    requires at < |ms| && (ms[at].Union? || (ms[at].Ref? && ms[at].definition < |q.defs|))
    ensures forall b <- BranchesOf(ms[at], q.defs) :: Small(b, p)
  {
    hide Small;
    assert ms[at] in ms;
    var whole := if ms[at].Ref? then q.defs[ms[at].definition] else ms[at];
    assert Small(whole, p);
    if whole.Union? { forall b | b in whole.members ensures Small(b, p) { SmallMembers(whole, b, p); } }
  }

  lemma {:induction false} MeetAsks(ms: seq<Schema>, q: Setting, h: Held, p: Space) returns (n: nat)
    requires SmallDefinitions(q, p) && forall t <- ms :: Small(t, p)
    ensures MeetAsksEnd(ms, q, h, n)
    decreases Fresh(q, h, p), 1 + SizeOfAll(ms), 2
  {
    hide Fresh, Ends, AllEnd, DistributedEnds, PairsEnd, OneRefinement, NarrowedMeet, SequencesOf, Small, Reached, PositionsRead, SequenceFits, SizeOfSequence,
         SizeOfAll;
    var members := AllReadingsEnd(ms, q, h, p);
    var one, paired, narrowed := 0, 0, 0;
    if OneRefinement(ms).Some? {
      OneRefinementIsSmall(ms, p);
      assert Reached(OneRefinement(ms).value, p) by { ASmallTermIsReached(OneRefinement(ms).value, p); }
      one := ReadingEnds(OneRefinement(ms).value, q, h, p);
    }
    var found := SequencesOf(ms);
    if |found| >= 2 {
      SequencesFit(ms, p);
      assert found[0] in found && found[1] in found;
      paired := PairReadingsEnd(found[0], found[1], PositionsRead(found[0], found[1]), q, h, p);
      assert PairsEnd(found[0], found[1], q, h, paired) by { PairsAreEnding(found[0], found[1], q, h, paired); }
    }
    if NarrowedMeet(ms, q.gate).Some? {
      ANarrowedMeetIsSmaller(ms, q.gate, p);
      ANarrowedMeetIsReached(ms, q.gate, p);
      assert Size(Intersection(ms)) == 1 + SizeOfAll(ms);
      narrowed := ReadingEnds(NarrowedMeet(ms, q.gate).value, q, h, p);
    }
    var distributed := DistributedAsks(ms, q, h, p);
    n := members + one + paired + narrowed + distributed;
    AllEndWithMore(ms, q, h, members, n);
    if OneRefinement(ms).Some? { EndsWithMore(OneRefinement(ms).value, q, h, one, n); }
    if |found| >= 2 { PairsEndWithMore(found[0], found[1], q, h, paired, n); }
    if NarrowedMeet(ms, q.gate).Some? { EndsWithMore(NarrowedMeet(ms, q.gate).value, q, h, narrowed, n); }
    DistributedWithMore(ms, q, h, distributed, n);
  }

  lemma ASmallTermIsReached(s: Schema, p: Space)
    requires Small(s, p)
    ensures Reached(s, p)
  {
  }

  lemma PairsAreEnding(a: Sequence, b: Sequence, q: Setting, h: Held, n: nat)
    requires forall i: nat | i < PositionsRead(a, b) :: PairEnds(a, b, i, q, h, n)
    ensures PairsEnd(a, b, q, h, n)
  {
    hide PairEnds;
  }

  lemma PairsEndWithMore(a: Sequence, b: Sequence, q: Setting, h: Held, n: nat, more: nat)
    requires PairsEnd(a, b, q, h, n) && n <= more
    ensures PairsEnd(a, b, q, h, more)
  {
    hide PairEnds, PositionsRead;
    forall i: nat | i < PositionsRead(a, b) ensures PairEnds(a, b, i, q, h, more) { APairEndsWithMore(a, b, i, q, h, n, more); }
  }

  lemma BranchesEndWithMore(branches: seq<Schema>, ms: seq<Schema>, distributed: Schema, q: Setting, h: Held, n: nat, more: nat)
    requires BranchesEnd(branches, ms, distributed, q, h, n) && n <= more
    ensures BranchesEnd(branches, ms, distributed, q, h, more)
  {
    hide Ends, BranchMeet;
    forall b | b in branches ensures Ends(Intersection(BranchMeet(b, ms, distributed)), q, h, more) {
      EndsWithMore(Intersection(BranchMeet(b, ms, distributed)), q, h, n, more);
    }
  }

  lemma DistributedWithMore(ms: seq<Schema>, q: Setting, h: Held, n: nat, more: nat)
    requires DistributedEnds(ms, q, h, n) && n <= more
    ensures DistributedEnds(ms, q, h, more)
  {
    hide BranchesEnd, CanonicalMembers, NormalFormWithin, ReferenceAt, UnionAt;
    var at := DistributedAt(ms, q.defs);
    if at.Some? {
      var branches, open := BranchesOf(ms[at.value], q.defs), h.(meets := h.meets + [CanonicalMembers(ms)]);
      if BranchesEnd(branches, ms, ms[at.value], q, open, n) { BranchesEndWithMore(branches, ms, ms[at.value], q, open, n, more); }
      if BranchesEnd(branches, ms, ms[at.value], q, h, n) { BranchesEndWithMore(branches, ms, ms[at.value], q, h, n, more); }
    }
  }

  // ---- The reading no bound stops.

  /** Every reading ends, whatever is open and whatever the definitions: some room is
      never used up. */
  lemma EveryReadingEnds(s: Schema, q: Setting, h: Held) returns (n: nat)
    ensures Ends(s, q, h, n)
  {
    hide Ends;
    var p := SpaceOf([s] + q.defs);
    assert s in [s] + q.defs && forall d <- q.defs :: d in [s] + q.defs;
    ASmallTermIsReached(s, p);
    n := ReadingEnds(s, q, h, p);
  }

  ghost function Enough(s: Schema, q: Setting): (n: nat)
    ensures Ends(s, q, NOTHING_HELD, n)
  {
    SomeRoomIsEnough(s, q);
    var n: nat :| Ends(s, q, NOTHING_HELD, n);
    n
  }

  lemma SomeRoomIsEnough(s: Schema, q: Setting)
    ensures exists n: nat :: Ends(s, q, NOTHING_HELD, n)
  {
    hide Ends;
    var n := EveryReadingEnds(s, q, NOTHING_HELD);
  }

  /** The setting with every bound `n`. */
  ghost function Bounding(q: Setting, n: nat): Setting { q.(maxDepth := n, respelling := n) }

  /** What a term reads as where no bound stops the reading. */
  ghost function Limit(s: Schema, q: Setting): Verdict {
    EmptyAndRegion(s, Bounding(q, Enough(s, q)), NOTHING_HELD, OUTSIDE, Enough(s, q)).verdict
  }

  lemma WithRoomItReadsTheLimit(s: Schema, q: Setting, w: Setting, depth: nat, steps: nat)
    requires Alike(q, w) && Room(w, depth, steps, Enough(s, q))
    ensures var r := EmptyAndRegion(s, w, NOTHING_HELD, depth, steps); EndsIn(r, steps, Enough(s, q)) && r.verdict == Limit(s, q)
  {
    hide EmptyAndRegion;
    var n := Enough(s, q);
    assert Room(Bounding(q, n), 0, n, n);
    MoreSteps(s, Bounding(q, n), NOTHING_HELD, OUTSIDE, n, w, depth, steps - n);
  }

  /** Every reading that met no bound is the limit, at any bounds. */
  lemma AnUnstoppedReadingIsTheLimit(s: Schema, q: Setting, depth: nat, steps: nat)
    requires !EmptyAndRegion(s, q, NOTHING_HELD, depth, steps).met
    ensures EmptyAndRegion(s, q, NOTHING_HELD, depth, steps).verdict == Limit(s, q)
  {
    hide EmptyAndRegion, Enough;
    var n := Enough(s, q);
    var w := q.(maxDepth := q.maxDepth + depth + n, respelling := q.respelling + n);
    WithRoomItReadsTheLimit(s, q, w, depth, steps + n);
    MoreSteps(s, q, NOTHING_HELD, depth, steps, w, depth, n);
  }
}
