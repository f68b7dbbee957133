/** Whether a term denotes no value: one recursion over the constructors, under
    a step budget, a depth bound, and the definitions and meets it is resolving. */
module Emptiness {
  import opened Verdicts
  import opened Kinds
  import opened Schemas
  import opened Constructors
  import opened Oracles
  import opened Readings
  import opened KindWalk
  import opened Disjointness
  import opened Tables
  import opened Shapes
  import opened Bounds
  import opened Narrowing

  /** The hypotheses open on the path: the definitions being resolved, and the
      meets being unfolded, each by its members in order. */
  datatype Held = Held(visiting: seq<nat>, meets: seq<seq<Schema>>)

  const NOTHING_HELD: Held := Held([], [])

  /** The level of a question no other asks, and the one inside it. */
  const OUTSIDE: nat := 0
  const ONE_IN: nat := 1

  /** A budget with `extra` more, and one spent to the last step. */
  function More(steps: nat, extra: nat): nat { steps + extra }

  const SPENT: nat := 0

  /** One reading: the verdict, the regions, the steps left, and whether a bound
      was met. */
  datatype Read = Read(verdict: Verdict, regions: Regions, left: nat, met: bool) {

    function After(earlier: bool): Read { this.(met := met || earlier) }

    function OfVerdict(verdict: Verdict): Read { this.(verdict := verdict, regions := Regions.Unknown) }
  }

  function Settled(verdict: Verdict, left: nat): Read { Read(verdict, Regions.Unknown, left, false) }

  /** The meet a branch of a distributed member makes with the other members:
      a branch that is a meet lends its own members, and every copy of the
      member distributed goes. */
  function BranchMeet(branch: Schema, ms: seq<Schema>, distributed: Schema): seq<Schema> {
    (if branch.Intersection? then branch.members else [branch]) + Without(ms, distributed)
  }

  const MAX_DISTRIBUTED_TERMS: nat := 4

  /** Multiplied out, the unions among the members give no more clauses than a reading
      distributes, and no branch is itself a connective to multiply out. */
  predicate NormalFormWithin(ms: seq<Schema>, clauses: nat) {
    if ms == [] then true
    else if !ms[0].Union? then NormalFormWithin(ms[1..], clauses)
    else
      && (forall b <- ms[0].members :: !b.Union? && !b.Intersection?)
      && clauses * |ms[0].members| <= MAX_DISTRIBUTED_TERMS
      && NormalFormWithin(ms[1..], clauses * |ms[0].members|)
  }

  /** The least index at or past `from` of a member a definition resolves. */
  function ReferenceAt(ms: seq<Schema>, defs: seq<Schema>, from: nat): (r: Option<nat>)
    requires from <= |ms|
    ensures r.Some? ==> r.value < |ms| && ms[r.value].Ref? && ms[r.value].definition < |defs|
    decreases |ms| - from
  {
    if from == |ms| then None
    else if ms[from].Ref? && ms[from].definition < |defs| then Some(from)
    else ReferenceAt(ms, defs, from + 1)
  }

  function UnionAt(ms: seq<Schema>, from: nat): (r: Option<nat>)
    requires from <= |ms|
    ensures r.Some? ==> r.value < |ms| && ms[r.value].Union?
    decreases |ms| - from
  {
    if from == |ms| then None
    else if ms[from].Union? then Some(from)
    else UnionAt(ms, from + 1)
  }

  /** The branches a member is distributed as. */
  function BranchesOf(member: Schema, defs: seq<Schema>): seq<Schema>
    requires member.Union? || (member.Ref? && member.definition < |defs|)
  {
    var whole := if member.Ref? then defs[member.definition] else member;
    if whole.Union? then whole.members else [whole]
  }

  /** A container's lengths miss the bounds: `tailEmpty` says the repeated
      element holds nothing. */
  predicate LengthsMiss(base: Schema, cs: seq<Constraint>, tailEmpty: bool) {
    match base
    case Seq(_, prefix, tail) =>
      || (Longest(cs).Some? && Longest(cs).value < |prefix|)
      || ((tail.None? || tailEmpty) && Shortest(cs) > |prefix|)
    case Coll(_, element) => element.Nothing? && Shortest(cs) > 0
    case _ => false
  }

  predicate AMemberPastTheBoundsBesideIt(ms: seq<Schema>) {
    exists i, j | 0 <= i < |ms| && 0 <= j < |ms| ::
      i != j && ms[i].Refine? && LengthsMiss(ms[j], ms[i].constraints, ms[j].Seq? && ms[j].tail == Some(Nothing))
  }

  /** The one element a container repeats. */
  function Repeated(base: Schema): Option<Schema> {
    match base
    case Seq(_, prefix, tail) => if prefix == [] then tail else None
    case Coll(_, element) => Some(element)
    case _ => None
  }

  /** Some value is hashable, if there is any value at all. */
  predicate AValueCanHash(s: Schema) {
    if s.Refine? then AValueCanHash(s.base)
    else if s.Union? || s.Intersection? then forall i | 0 <= i < |s.members| :: AValueCanHash(s.members[i])
    else s.Anything? || s.NoneType? || s.Bool? || s.Int? || s.Float? || s.Str? || s.Bytes? || s.Seq? || s.Coll?
  }

  /** A meet of refinements of one base, as one refinement of it. */
  function OneRefinement(ms: seq<Schema>): Option<Schema> {
    if ms != [] && ms[0].Refine? && (forall t <- ms[1..] :: t.Refine? && t.base == ms[0].base)
    then Some(Refined(ms[0], GatheredConstraints(ms[1..])))
    else None
  }

  function GatheredConstraints(ms: seq<Schema>): seq<Constraint> {
    if ms == [] then []
    else (if ms[0].Refine? then ms[0].constraints else []) + GatheredConstraints(ms[1..])
  }

  /** A sequence a meet's member is, with the least length asked of it. */
  datatype Sequence = Sequence(container: SeqKind, prefix: seq<Schema>, tail: Option<Schema>, least: nat) {
    function At(position: nat): Option<Schema> {
      if position < |prefix| then Some(prefix[position]) else tail
    }
  }

  function SequencesOf(ms: seq<Schema>): seq<Sequence> {
    if ms == [] then []
    else
      var (base, least) := if ms[0].Refine? then (ms[0].base, Shortest(ms[0].constraints)) else (ms[0], 0);
      (if base.Seq? then [Sequence(base.container, base.prefix, base.tail, least)] else []) + SequencesOf(ms[1..])
  }

  function Larger(a: nat, b: nat): nat { if a < b then b else a }

  function Least(a: nat, b: nat): nat { if a < b then a else b }

  function PositionsRead(a: Sequence, b: Sequence): nat {
    var named := Larger(|a.prefix|, |b.prefix|);
    Least(Larger(named, Larger(a.least, b.least)), named + 1)
  }

  /** A class below the complement of what it is met with. */
  predicate AClassBelowTheComplementBesideIt(ms: seq<Schema>, q: Setting) {
    exists i | 0 <= i < |ms| ::
      ms[i].Instance?
      && q.oracle.leafSubtype(ms[i], Complement(MeetWithin(ms[..i] + ms[i + 1..], q.gate, true))) == Some(true)
  }

  // ---- The recursion. A reading opens one level and spends one step.

  function EmptyAndRegion(s: Schema, q: Setting, h: Held, depth: nat, steps: nat): (r: Read)
    ensures r.left <= steps
    decreases steps, 0, 0
  {
    if depth >= q.maxDepth || steps == 0 then Read(Verdict.Unknown, Regions.Unknown, steps, true)
    else EmptyAndRegionAt(s, q, h, depth + 1, steps - 1)
  }

  function EmptyAndRegionAt(s: Schema, q: Setting, h: Held, depth: nat, left: nat): (r: Read)
    ensures r.left <= left
    decreases left, 3, 0
  {
    if AtomRegion(s).Some? then
      Read(Known(AtomRegion(s).value).Settles(), Known(AtomRegion(s).value), left, false)
    else
      if s.Nothing? then Read(Verdict.Empty, Known(EMPTY), left, false)
      else if s.Anything? then Read(Verdict.Inhabited, Known(ALL), left, false)
      else if s.Ref? && s.definition in h.visiting then Settled(Verdict.Empty, left)
      else if s.Ref? && s.definition < |q.defs| then
        var r := EmptyAndRegion(q.defs[s.definition], q, h.(visiting := h.visiting + [s.definition]), depth, left);
        r.OfVerdict(r.verdict)
      else if s.Seq? then EveryPosition(s.prefix, Verdict.Inhabited, q, h, depth, left)
      else if s.Refine? && s.constraints == [] then EmptyAndRegion(s.base, q, h, depth, left)
      else if s.Refine? then RefinementRead(s.base, s.constraints, q, h, depth, left)
      else if s.Intersection? then MeetRead(s.members, q, h, depth, left)
      else if s.Union? then UnionRead(s.members, Verdict.Empty, UNION_UNIT, q, h, depth, left)
      else if s.Complement? then
        var r := EmptyAndRegion(s.inner, q, h, depth, left);
        Read(ComplementVerdict(s.inner, r.regions.Complement(), q), r.regions.Complement(), r.left, r.met)
      else Settled(LeafVerdict(s, q), left)
  }

  function LeafVerdict(s: Schema, q: Setting): Verdict {
    if s.Coll? then Verdict.Inhabited
    else if s.Literal? then LiteralVerdict(s.constant, q)
    else if s.Instance? && q.oracle.classIsASet(s.class_) == Some(true) then Verdict.Inhabited
    else Verdict.Unknown
  }

  function LiteralVerdict(c: nat, q: Setting): Verdict {
    match q.oracle.literalsDisjoint(c, c)
    case Some(apart) => if apart then Verdict.Empty else Verdict.Inhabited
    case None => Verdict.Unknown
  }

  /** A complement by its region, and where that leaves it open by what covers
      the universe, what its pushed form folds to, and the values it names. */
  function ComplementVerdict(inner: Schema, regions: Regions, q: Setting): Verdict {
    if !regions.Settles().Unknown? then regions.Settles()
    else if CoversTheUniverse(inner) || (inner.Union? && PushedComplementIsPlaced(inner, Nothing, q.gate)) then Verdict.Empty
    else if FiniteSet(inner).Some? then Verdict.Inhabited
    else AComplementedMemberHoldsAValue(inner)
  }

  /** A product is empty where a component is; a tail repeats zero times. */
  function EveryPosition(ms: seq<Schema>, verdict: Verdict, q: Setting, h: Held, depth: nat, left: nat): (r: Read)
    ensures r.left <= left && r.regions.Unknown?
    decreases left, 1, |ms|
  {
    if ms == [] || verdict.Empty? then Settled(verdict, left)
    else
      var first := EmptyAndRegion(ms[0], q, h, depth, left);
      EveryPosition(ms[1..], Both(verdict, first.verdict), q, h, depth, first.left).After(first.met)
  }

  /** Empty where every member is; stopped once neither answer can change. */
  function UnionRead(ms: seq<Schema>, verdict: Verdict, regions: Regions, q: Setting, h: Held, depth: nat, left: nat): (r: Read)
    ensures r.left <= left
    decreases left, 1, |ms|
  {
    if ms == [] || (!verdict.Empty? && regions.Unknown?) then Read(verdict, regions, left, false)
    else
      var first := EmptyAndRegion(ms[0], q, h, depth, left);
      UnionRead(ms[1..], Either(verdict, first.verdict), regions.Union(first.regions), q, h, depth, first.left).After(first.met)
  }

  /** The members of a meet folded: whether one is empty, and the regions. */
  function MembersRead(ms: seq<Schema>, empty: bool, regions: Regions, q: Setting, h: Held, depth: nat, left: nat): (r: (bool, Read))
    ensures r.1.left <= left
    decreases left, 1, |ms|
  {
    if ms == [] || (empty && regions.Unknown?) then (empty, Read(Verdict.Unknown, regions, left, false))
    else
      var first := EmptyAndRegion(ms[0], q, h, depth, left);
      var rest := MembersRead(ms[1..], empty || first.verdict.Empty?, regions.Intersect(first.regions), q, h, depth, first.left);
      (rest.0, rest.1.After(first.met))
  }

  /** The readings of a meet that ask no goal, in their order. */
  function MeetSettled(ms: seq<Schema>, empty: bool, regions: Regions, q: Setting): Verdict {
    if || empty || (regions.Known? && regions.region.IsEmpty())
       || HasComplementaryPair(ms, Meet, q.gate, Asked(true, false))
       || HasDisjointPair(ms, q.oracle)
       || Unsatisfiable(GatheredConstraints(ms), q.oracle, CountsIntegers(ms))
    then Verdict.Empty
    else if !regions.Settles().Unknown? then regions.Settles()
    else if q.defs != [] && HasComplementaryPair(ms, Meet, q.gate, Asked(true, true)) then Verdict.Empty
    else if (exists t <- ms :: t.Complement?) && KindsPossiblyHeld(Intersection(ms), q) == {} then Verdict.Empty
    else Verdict.Unknown
  }

  predicate HasDisjointPair(ms: seq<Schema>, o: Oracle) {
    exists i, j | 0 <= i < j < |ms| :: DisjointWith(ms[i], ms[j], o)
  }

  function MeetRead(ms: seq<Schema>, q: Setting, h: Held, depth: nat, left: nat): (r: Read)
    ensures r.left <= left
    decreases left, 2, 0, 0
  {
    var (empty, members) := MembersRead(ms, false, MEET_UNIT, q, h, depth, left);
    var settled := MeetSettled(ms, empty, members.regions, q);
    if !settled.Unknown? then members.(verdict := settled)
    else
      var declined := DeclinedMeetRead(ms, q, h, depth, members.left).After(members.met);
      declined.(regions := members.regions)
  }

  /** A declined meet: as one refinement, by the empty container, by positions,
      by a class, narrowed, distributed, as tables, by lengths, in that order. */
  function DeclinedMeetRead(ms: seq<Schema>, q: Setting, h: Held, depth: nat, left: nat): (r: Read)
    ensures r.left <= left
    decreases left, 1, |ms| + 4
  {
    var one := if OneRefinement(ms).Some? then EmptyAndRegion(OneRefinement(ms).value, q, h, depth, left)
               else Settled(Verdict.Unknown, left);
    if !one.verdict.Unknown? then one.OfVerdict(one.verdict)
    else if AnEmptyContainerInEveryMember(ms) then one.OfVerdict(Verdict.Inhabited)
    else
      var placed := PositionsMeeting(ms, q, h, depth, one.left).After(one.met);
      if !placed.verdict.Unknown? then placed
      else if AClassBelowTheComplementBesideIt(ms, q) then placed.OfVerdict(Verdict.Empty)
      else
        var respelled := RespelledMeetRead(ms, q, h, depth, placed.left).After(placed.met);
        if !respelled.verdict.Unknown? then respelled
        else if !TheTablesHold(ms, q.oracle).Unknown? then respelled.OfVerdict(TheTablesHold(ms, q.oracle))
        else if AMemberPastTheBoundsBesideIt(ms) then respelled.OfVerdict(Verdict.Empty)
        else respelled
  }

  /** The meet narrowed, and then distributed under an allowance; or only
      distributed, where nothing narrows. */
  function RespelledMeetRead(ms: seq<Schema>, q: Setting, h: Held, depth: nat, left: nat): (r: Read)
    ensures r.left <= left
    decreases left, 1, |ms| + 3
  {
    if NarrowedMeet(ms, q.gate).None? then DistributedRead(ms, q, h, depth, left)
    else
      var narrowed := EmptyAndRegion(NarrowedMeet(ms, q.gate).value, q, h, depth, left);
      if !narrowed.verdict.Unknown? then narrowed.OfVerdict(narrowed.verdict)
      else
        var allowance := Least(narrowed.left, q.respelling);
        var r := DistributedRead(ms, q, h, depth, allowance).After(narrowed.met);
        r.(left := narrowed.left - (allowance - r.left))
  }

  /** Two sequences that meet in nothing at a position each value has. */
  function PositionsMeeting(ms: seq<Schema>, q: Setting, h: Held, depth: nat, left: nat): (r: Read)
    ensures r.left <= left
    decreases left, 1, |ms| + 3
  {
    var found := SequencesOf(ms);
    if |found| < 2 || found[0].container != found[1].container then Settled(Verdict.Unknown, left)
    else PositionMeeting(found[0], found[1], 0, q, h, depth, left)
  }

  function PositionMeeting(a: Sequence, b: Sequence, position: nat, q: Setting, h: Held, depth: nat, left: nat): (r: Read)
    ensures r.left <= left
    decreases left, 0, 1 + if position < PositionsRead(a, b) then PositionsRead(a, b) - position else 0
  {
    if position >= PositionsRead(a, b) then Settled(Verdict.Unknown, left)
    else if a.At(position).None? || b.At(position).None? then PositionMeeting(a, b, position + 1, q, h, depth, left)
    else
      var first := EmptyAndRegion(MeetWithin([a.At(position).value, b.At(position).value], q.gate, true), q, h, depth, left);
      if first.verdict.Empty? then first.OfVerdict(Verdict.Empty)
      else PositionMeeting(a, b, position + 1, q, h, depth, first.left).After(first.met)
  }

  /** The first reference unfolded, or else the first union distributed, and each
      branch's meet read; an open meet reached again is taken to hold nothing. */
  function DistributedRead(ms: seq<Schema>, q: Setting, h: Held, depth: nat, left: nat): (r: Read)
    ensures r.left <= left
    decreases left, 1, |ms| + 2
  {
    var reference := ReferenceAt(ms, q.defs, 0);
    var at := if reference.Some? then reference else UnionAt(ms, 0);
    if at.None? then Settled(Verdict.Unknown, left)
    else
      var branches := BranchesOf(ms[at.value], q.defs);
      if reference.Some? || (exists b <- branches :: b.Ref?) || h.meets != [] then
        var goal := CanonicalMembers(ms);
        if goal in h.meets then Settled(Verdict.Empty, left)
        else BranchesRead(branches, ms, ms[at.value], Verdict.Empty, q, h.(meets := h.meets + [goal]), depth, left)
      else if NormalFormWithin(ms, 1) then BranchesRead(branches, ms, ms[at.value], Verdict.Empty, q, h, depth, left)
      else Settled(Verdict.Unknown, left)
  }

  function BranchesRead(branches: seq<Schema>, ms: seq<Schema>, distributed: Schema, verdict: Verdict, q: Setting, h: Held, depth: nat, left: nat): (r: Read)
    ensures r.left <= left
    decreases left, 0, 1 + |branches|
  {
    if branches == [] || verdict.Inhabited? then Settled(verdict, left)
    else
      var first := EmptyAndRegion(Intersection(BranchMeet(branches[0], ms, distributed)), q, h, depth, left);
      BranchesRead(branches[1..], ms, distributed, Either(verdict, first.verdict), q, h, depth, first.left).After(first.met)
  }

  /** A refinement: emptied by its base or its bounds, and proved inhabited only
      of the shapes a length bound is written for. */
  function RefinementRead(base: Schema, cs: seq<Constraint>, q: Setting, h: Held, depth: nat, left: nat): (r: Read)
    ensures r.left <= left && r.regions.Unknown?
    decreases left, 2, Size(base), 0
  {
    if base.Refine? then
      var r := EmptyAndRegion(Refined(base, cs), q, h, depth, left);
      r.OfVerdict(r.verdict)
    else
      var based := EmptyAndRegion(base, q, h, depth, left);
      if based.verdict.Empty? || Unsatisfiable(cs, q.oracle, CountsIntegers([base])) then based.OfVerdict(Verdict.Empty)
      else
        var repeats := if base.Seq? && base.tail.Some? then EmptyAndRegion(base.tail.value, q, h, depth, based.left)
                       else Settled(Verdict.Unknown, based.left);
        var met := based.met || repeats.met;
        if LengthsMiss(base, cs, repeats.verdict.Empty?) then repeats.OfVerdict(Verdict.Empty).After(met)
        else if base.Union? then RefinedBranchesRead(base.members, cs, Verdict.Empty, q, h, depth, repeats.left).After(met)
        else if base.Int? || !(forall c <- cs :: c.MinLen? || c.MaxLen?) then Settled(Verdict.Unknown, repeats.left).After(met)
        else
          var sized := SizedRead(base, cs, q, h, depth, repeats.left).After(met);
          if sized.verdict.Inhabited? && Shortest(cs) > q.longest then sized.OfVerdict(Verdict.Unknown) else sized
  }

  function RefinedBranchesRead(branches: seq<Schema>, cs: seq<Constraint>, verdict: Verdict, q: Setting, h: Held, depth: nat, left: nat): (r: Read)
    ensures r.left <= left && r.regions.Unknown?
    decreases left, 2, SizeOfAll(branches), |branches|
  {
    if branches == [] || verdict.Inhabited? then Settled(verdict, left)
    else
      var first := RefinementRead(branches[0], cs, q, h, depth, left);
      RefinedBranchesRead(branches[1..], cs, Either(verdict, first.verdict), q, h, depth, first.left).After(first.met)
  }

  /** A shape that holds a value of each length from some least one. */
  function SizedRead(base: Schema, cs: seq<Constraint>, q: Setting, h: Held, depth: nat, left: nat): (r: Read)
    ensures r.left <= left && r.regions.Unknown?
    decreases left, 1, 0
  {
    if Repeated(base).Some? && Shortest(cs) == 0 then Settled(Verdict.Inhabited, left)
    else if Repeated(base).Some? && (base.Seq? || (Shortest(cs) == 1 && AValueCanHash(Repeated(base).value))) then
      var r := EmptyAndRegion(Repeated(base).value, q, h, depth, left);
      r.OfVerdict(r.verdict)
    else if base.Str? || base.Bytes? then Settled(Verdict.Inhabited, left)
    else if base.Seq? && base.tail.Some? then
      var r := EveryInhabited(base.prefix + [base.tail.value], q, h, depth, left);
      r.OfVerdict(if r.verdict.Inhabited? then Verdict.Inhabited else Verdict.Unknown)
    else Settled(Verdict.Unknown, left)
  }

  /** Whether each is proved to hold a value, asked until one is not. */
  function EveryInhabited(ms: seq<Schema>, q: Setting, h: Held, depth: nat, left: nat): (r: Read)
    ensures r.left <= left && r.regions.Unknown?
    decreases left, 0, 1 + |ms|
  {
    if ms == [] then Settled(Verdict.Inhabited, left)
    else
      var first := EmptyAndRegion(ms[0], q, h, depth, left);
      if !first.verdict.Inhabited? then first.OfVerdict(Verdict.Unknown)
      else EveryInhabited(ms[1..], q, h, depth, first.left).After(first.met)
  }
}
