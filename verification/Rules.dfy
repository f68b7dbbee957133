/** The rules of inclusion as plans: which goals a pair asks, in which order, and
    what each answer leads to. A plan is a finite tree; running it is the
    business of whoever holds the budget and the trail. */
module Rules {
  import opened Verdicts
  import opened Kinds
  import opened Schemas
  import opened Constructors
  import opened Oracles
  import opened Readings
  import opened KindWalk
  import opened Disjointness
  import opened Tables
  import opened Shapes
  import opened Bounds
  import opened Narrowing

  /** A product to split across a union of products of its own arity. */
  datatype Products = Products(components: seq<Schema>, branches: seq<seq<Schema>>)

  type Split = s: Products | forall branch <- s.branches :: |branch| == |s.components| witness Products([], [])

  datatype Plan =
    | Answer(relation: Relation)
    // Ask a goal, under the trail as it is.
    | Ask(sub: Schema, sup: Schema, holds: Plan, fails: Plan, unknown: Plan)
    // Assume the goal `sub <= sup` and ask the pair a reference in it unfolds to.
    | Unfold(sub: Schema, sup: Schema, defSub: Schema, defSup: Schema, holds: Plan, fails: Plan, unknown: Plan)
    // Ask a narrowed meet, as a question of its own where none is open.
    | Narrowed(sub: Schema, sup: Schema, holds: Plan, fails: Plan, unknown: Plan)
    // Split a product across a union of products, one level deeper or not.
    | Product(split: Split, deeper: bool, holds: Plan, fails: Plan, unknown: Plan)
    // Read whether a term holds a value.
    | Empties(of: Schema, empty: Plan, inhabited: Plan, undecided: Plan)
    // Whether the query's steps are spent, which counts as a bound met.
    | Spent(yes: Plan, no: Plan)

  const HOLDS: Plan := Answer(Relation.Holds)
  const FAILS: Plan := Answer(Relation.Fails)
  const DECLINES: Plan := Answer(Relation.Unknown)

  function Just(sub: Schema, sup: Schema): Plan { Ask(sub, sup, HOLDS, FAILS, DECLINES) }

  /** One plan, with another in place of each decline. */
  function OrElse(p: Plan, second: Plan): Plan {
    match p
    case Answer(r) => if r.Unknown? then second else p
    case Ask(a, b, h, f, u) => Ask(a, b, OrElse(h, second), OrElse(f, second), OrElse(u, second))
    case Unfold(a, b, c, d, h, f, u) => Unfold(a, b, c, d, OrElse(h, second), OrElse(f, second), OrElse(u, second))
    case Narrowed(a, b, h, f, u) => Narrowed(a, b, OrElse(h, second), OrElse(f, second), OrElse(u, second))
    case Product(s, d, h, f, u) => Product(s, d, OrElse(h, second), OrElse(f, second), OrElse(u, second))
    case Empties(t, e, i, u) => Empties(t, OrElse(e, second), OrElse(i, second), OrElse(u, second))
    case Spent(y, n) => Spent(OrElse(y, second), OrElse(n, second))
  }

  // ---- Emptiness of a meet, read by two discriminants first.

  function Beside(a: Schema, b: Schema, empty: Plan, inhabited: Plan, undecided: Plan, q: Setting): Plan {
    if DisjointWith(a, b, q.oracle) then empty
    else Empties(MeetWithin([a, b], q.gate, true), empty, inhabited, undecided)
  }

  // ---- A union below a schema, and a schema below a meet.

  /** Each member below the supertype: refuted by the first refuted, and given up
      at the first decline that finds the steps spent. */
  function EachBelow(ms: seq<Schema>, b: Schema, declined: bool): Plan {
    if ms == [] then Answer(if declined then Relation.Unknown else Relation.Holds)
    else
      var rest, gaveUp := EachBelow(ms[1..], b, declined), Spent(DECLINES, EachBelow(ms[1..], b, true));
      Ask(ms[0], b, if declined then Spent(DECLINES, rest) else rest, FAILS, gaveUp)
  }

  function UnionBelow(a: Schema, b: Schema, q: Setting): Plan
    requires a.Union?
  {
    if b.Complement? && a.members != [] && a.members[0].Literal? && (b.inner.Literal? || b.inner.Union?)
      && TablesDisjoint(a, b.inner, q.oracle).Some?
    then Answer(Decided(TablesDisjoint(a, b.inner, q.oracle).value))
    else EachBelow(a.members, b, false)
  }

  /** The subject below every member of a meet, in Kleene's strong conjunction. */
  function BelowEach(a: Schema, ms: seq<Schema>, declined: bool): Plan {
    if ms == [] then Answer(if declined then Relation.Unknown else Relation.Holds)
    else Ask(a, ms[0], BelowEach(a, ms[1..], declined), FAILS, BelowEach(a, ms[1..], true))
  }

  // ---- A meet below a schema.

  function AnyMemberBelow(ms: seq<Schema>, b: Schema, otherwise: Plan): Plan {
    if ms == [] then otherwise
    else
      var rest := AnyMemberBelow(ms[1..], b, otherwise);
      Ask(ms[0], b, HOLDS, rest, rest)
  }

  function BelowAnyBranch(a: Schema, ms: seq<Schema>, otherwise: Plan): Plan {
    if ms == [] then otherwise
    else
      var rest := BelowAnyBranch(a, ms[1..], otherwise);
      Ask(a, ms[0], HOLDS, rest, rest)
  }

  predicate TwoMeets(ms: seq<Schema>) {
    exists i, j | 0 <= i < j < |ms| :: ms[i].Intersection? && ms[j].Intersection?
  }

  /** The union with two branches that split one set merged, where two do. */
  function BelowAMergedSplit(a: Schema, ms: seq<Schema>, otherwise: Plan, q: Setting): Plan {
    if TwoMeets(ms) && MergedSplit(ms, q.gate).Some?
    then Ask(a, MergedSplit(ms, q.gate).value, HOLDS, FAILS, otherwise)
    else otherwise
  }

  predicate IsATable(s: Schema) {
    s.Literal? || (s.Union? && forall t <- s.members :: t.Literal?)
  }

  /** A member included in each of the rest equals the whole meet, and so is asked for
      it. */
  function TheMemberThatIsTheMeet(ms: seq<Schema>, at: nat, b: Schema): Plan
    requires at <= |ms|
    decreases |ms| - at
  {
    if at == |ms| then DECLINES
    else
      var next := TheMemberThatIsTheMeet(ms, at + 1, b);
      if IsATable(ms[at]) then BelowTheOthers(ms, at, 0, b, next) else next
  }

  function BelowTheOthers(ms: seq<Schema>, at: nat, other: nat, b: Schema, otherwise: Plan): Plan
    requires at < |ms| && other <= |ms|
    decreases |ms| - other
  {
    if other == |ms| then Just(ms[at], b)
    else
      var rest := BelowTheOthers(ms, at, other + 1, b, otherwise);
      if other == at then rest else Ask(ms[at], ms[other], rest, otherwise, otherwise)
  }

  function MeetBelow(a: Schema, b: Schema, q: Setting, alone: bool): Plan
    requires a.Intersection?
  {
    if PlacedByMembership(a, b) then HOLDS
    else if (b.Ref? || exists t <- a.members :: t.Complement?) && KindsPossiblyHeld(a, q) == {} then HOLDS
    else
      var last := if alone then TheMemberThatIsTheMeet(a.members, 0, b) else DECLINES;
      var merged := if b.Union? then BelowAMergedSplit(a, b.members, last, q) else last;
      AnyMemberBelow(a.members, b, if b.Union? then BelowAnyBranch(a, b.members, merged) else merged)
  }

  function MeetReadWhole(a: Schema, b: Schema, q: Setting): Plan {
    OrElse(OrElse(
      if b.Complement? then Beside(a, b.inner, HOLDS, FAILS, DECLINES, q) else DECLINES,
      Unstructured(a, b, q)),
      BelowAReference(a, b, q))
  }

  function NarrowedMeetBelow(a: Schema, b: Schema, q: Setting): Plan
    requires a.Intersection?
  {
    match NarrowedMeet(a.members, q.gate)
    case None => DECLINES
    case Some(narrowed) => Narrowed(narrowed, b, HOLDS, FAILS, DECLINES)
  }

  // ---- References and refinements.

  /** The goal assumed, and the definition asked. */
  function BelowAReference(a: Schema, b: Schema, q: Setting): Plan {
    if b.Ref? && b.definition < |q.defs| then Unfold(a, b, a, q.defs[b.definition], HOLDS, FAILS, DECLINES)
    else DECLINES
  }

  function LeftReduces(a: Schema, b: Schema, q: Setting): Plan {
    if a.Ref? && a.definition < |q.defs| then Unfold(a, b, q.defs[a.definition], b, HOLDS, FAILS, DECLINES)
    else if a.Refine? then Ask(a.base, b, HOLDS, DECLINES, DECLINES)
    else DECLINES
  }

  function RefinementBelow(a: Schema, b: Schema, q: Setting): Plan
    requires a.Refine? && b.Refine?
  {
    var entailed := forall c <- b.constraints :: Entailed(c, a.constraints, q.oracle);
    Ask(a.base, b.base, Answer(Proven(entailed)), DECLINES, DECLINES)
  }

  // ---- A schema below a union.

  function BelowAUnion(a: Schema, b: Schema, q: Setting): Plan
    requires b.Union?
  {
    if a in b.members then HOLDS
    else EachBranch(a, b.members, false, b, q)
  }

  /** The branches in turn, one proof enough; `refuted` records that some branch
      failed, which is what allows narrowing after them. */
  function EachBranch(a: Schema, ms: seq<Schema>, refuted: bool, b: Schema, q: Setting): Plan
    requires b.Union?
  {
    if ms == [] then PastTheBranches(a, b, refuted, q)
    else
      Ask(a, ms[0], HOLDS, EachBranch(a, ms[1..], true, b, q), EachBranch(a, ms[1..], refuted, b, q))
  }

  function PastTheBranches(a: Schema, b: Schema, refuted: bool, q: Setting): Plan
    requires b.Union?
  {
    var reduced := Reduced(a, b, q);
    var narrowed := if refuted then OrElse(OrElse(MetCheaply(a, b.members, q), MetFully(a, b.members, q)), reduced) else reduced;
    BelowAMergedSplit(a, b.members, OrElse(if a.Seq? then SplitsAcross(a, b.members, q) else DECLINES, narrowed), q)
  }

  /** What the subject reduces to, its refutation kept only where the oracle does
      not place an enumerated class. */
  function Reduced(a: Schema, b: Schema, q: Setting): Plan {
    if a.Instance? && q.oracle.leafSubtype(a, b) == Some(true) then HOLDS else LeftReduces(a, b, q)
  }

  function KeptCheaply(a: Schema, ms: seq<Schema>, o: Oracle): (r: seq<Schema>)
    ensures forall t <- r :: t in ms
    ensures forall t <- ms :: t in r || DisjointWith(a, t, o)
  {
    if ms == [] then []
    else (if DisjointWith(a, ms[0], o) then [] else [ms[0]]) + KeptCheaply(a, ms[1..], o)
  }

  /** The union narrowed to the branches kept. */
  function BelowKept(a: Schema, kept: seq<Schema>): Plan {
    if kept == [] then FAILS
    else if |kept| == 1 then Just(a, kept[0])
    else Just(a, Union(kept))
  }

  function MetCheaply(a: Schema, ms: seq<Schema>, q: Setting): Plan {
    if exists t <- ms :: DisjointWith(a, t, q.oracle) then BelowKept(a, KeptCheaply(a, ms, q.oracle)) else DECLINES
  }

  function MetFully(a: Schema, ms: seq<Schema>, q: Setting): Plan { SomeApart(a, ms, ms, q) }

  function SomeApart(a: Schema, ms: seq<Schema>, all: seq<Schema>, q: Setting): Plan {
    if ms == [] then DECLINES
    else
      var next := SomeApart(a, ms[1..], all, q);
      Beside(a, ms[0], KeptFully(a, all, [], q), next, next, q)
  }

  function KeptFully(a: Schema, ms: seq<Schema>, kept: seq<Schema>, q: Setting): Plan {
    if ms == [] then BelowKept(a, kept)
    else
      var stays := KeptFully(a, ms[1..], kept + [ms[0]], q);
      Beside(a, ms[0], KeptFully(a, ms[1..], kept, q), stays, stays, q)
  }

  // ---- A fixed-length sequence split across a union.

  /** The branches of the subject's container and arity. */
  function ArityBranches(k: SeqKind, arity: nat, ms: seq<Schema>): (r: seq<seq<Schema>>)
    ensures forall branch <- r :: |branch| == arity
  {
    if ms == [] then []
    else
      (if ms[0].Seq? && ms[0].container == k && ms[0].tail.None? && |ms[0].prefix| == arity then [ms[0].prefix] else [])
      + ArityBranches(k, arity, ms[1..])
  }

  /** The members left out of the decomposition cannot hold the tuple. */
  predicate SetAsideHoldNone(k: SeqKind, ms: seq<Schema>) {
    forall t <- ms :: t.Seq? && (t.container != k || t.tail.None?)
  }

  function SplitsAcross(a: Schema, ms: seq<Schema>, q: Setting): Plan
    requires a.Seq?
  {
    if a.tail.Some? then DECLINES
    else
      var branches, none := ArityBranches(a.container, |a.prefix|, ms), SetAsideHoldNone(a.container, ms);
      if branches == [] && !none then DECLINES
      else Product(Products(a.prefix, branches), false, HOLDS, if none then FAILS else DECLINES, DECLINES)
  }

  /** The product decomposition, one branch narrowed by at a time. */
  function ProductPlan(split: Split, q: Setting): Plan {
    ComponentsPlan(split.components, 0, false, true, split.branches, q)
  }

  function ComponentsPlan(cs: seq<Schema>, at: nat, empty: bool, held: bool, bs: seq<seq<Schema>>, q: Setting): Plan
    requires at <= |cs| && forall branch <- bs :: |branch| == |cs|
    decreases |cs| - at
  {
    if at == |cs| then (if empty then HOLDS else BranchPlan(cs, bs, held, q))
    else
      Empties(cs[at], ComponentsPlan(cs, at + 1, true, held, bs, q), ComponentsPlan(cs, at + 1, empty, held, bs, q),
              ComponentsPlan(cs, at + 1, empty, false, bs, q))
  }

  function BranchPlan(cs: seq<Schema>, bs: seq<seq<Schema>>, held: bool, q: Setting): Plan
    requires forall branch <- bs :: |branch| == |cs|
  {
    if bs == [] then Answer(if held then Relation.Fails else Relation.Unknown)
    else ApartPlan(cs, bs[0], 0, BranchPlan(cs, bs[1..], held, q), PositionsPlan(cs, bs[0], 0, bs[1..], q), q)
  }

  /** Dropped where a position shares no value with the branch's. */
  function ApartPlan(cs: seq<Schema>, branch: seq<Schema>, at: nat, dropped: Plan, kept: Plan, q: Setting): Plan
    requires at <= |cs| == |branch|
    decreases |cs| - at
  {
    if at == |cs| then kept
    else
      var next := ApartPlan(cs, branch, at + 1, dropped, kept, q);
      Beside(cs[at], branch[at], dropped, next, next, q)
  }

  /** The components with one narrowed by what the branch takes away. */
  function NarrowedAt(cs: seq<Schema>, branch: seq<Schema>, at: nat, gate: Gate): seq<Schema>
    requires at < |cs| == |branch|
  {
    cs[at := MeetWithin([cs[at], Complemented(branch[at])], gate, false)]
  }

  function PositionsPlan(cs: seq<Schema>, branch: seq<Schema>, at: nat, rest: seq<seq<Schema>>, q: Setting): Plan
    requires at <= |cs| == |branch| && forall other <- rest :: |other| == |cs|
    decreases |cs| - at
  {
    if at == |cs| then HOLDS
    else
      var next := PositionsPlan(cs, branch, at + 1, rest, q);
      var narrowed := Products(NarrowedAt(cs, branch, at, q.gate), rest);
      Ask(cs[at], branch[at], next,
          Product(narrowed, true, next, FAILS, DECLINES),
          Product(narrowed, true, next, DECLINES, DECLINES))
  }

  // ---- Linear sequences, position by position.

  datatype Last = Last(sub: Schema, sup: Schema, answer: Relation)

  function LinearBelow(a: Schema, b: Schema): Plan
    requires a.Seq? && b.Seq?
  {
    if a.tail.None? then LinearRead(a, b, Verdict.Empty)
    else Empties(a.tail.value, LinearRead(a, b, Verdict.Empty), LinearRead(a, b, Verdict.Inhabited), LinearRead(a, b, Verdict.Unknown))
  }

  /** `repeats` is what the subject's tail holds; one that holds nothing never
      repeats. */
  function LinearRead(a: Schema, b: Schema, repeats: Verdict): Plan
    requires a.Seq? && b.Seq? && (a.tail.None? ==> repeats.Empty?)
  {
    if |a.prefix| < |b.prefix| then FAILS
    else if repeats.Empty? then
      if b.tail.None? && |a.prefix| != |b.prefix| then FAILS
      else Aligns(a.prefix, b, 0, false, None, HOLDS, DECLINES)
    else if b.tail.None? then Answer(OfMismatch(repeats))
    else
      Aligns(a.prefix, b, 0, false, None,
             Just(a.tail.value, b.tail.value),
             Ask(a.tail.value, b.tail.value, DECLINES, FAILS, DECLINES))
  }

  /** The prefix against the supertype's positions, one goal asked once where
      the next position repeats it. */
  function Aligns(pa: seq<Schema>, b: Schema, at: nat, declined: bool, last: Option<Last>, all: Plan, some: Plan): Plan
    requires at <= |pa| && b.Seq?
    decreases |pa| - at
  {
    if at == |pa| then (if declined then some else all)
    else if at >= |b.prefix| && b.tail.None? then FAILS
    else
      var expected := if at < |b.prefix| then b.prefix[at] else b.tail.value;
      if last.Some? && last.value.sub == pa[at] && last.value.sup == expected then
        match last.value.answer
        case Holds => Aligns(pa, b, at + 1, declined, last, all, some)
        case Fails => FAILS
        case Unknown => Aligns(pa, b, at + 1, true, last, all, some)
      else
        Ask(pa[at], expected,
            Aligns(pa, b, at + 1, declined, Some(Last(pa[at], expected, Relation.Holds)), all, some),
            FAILS,
            Aligns(pa, b, at + 1, true, Some(Last(pa[at], expected, Relation.Unknown)), all, some))
  }

  // ---- A schema below a complement.

  function BelowAComplementDeclined(a: Schema, b: Schema, q: Setting): Plan {
    if (a.Anything? || a.Complement?) && SpillsAKindInto(a, b, q) then FAILS
    else if a.Instance? && q.oracle.leafSubtype(a, b).Some? then Answer(Decided(q.oracle.leafSubtype(a, b).value))
    else DECLINES
  }

  function BelowAComplement(a: Schema, b: Schema, q: Setting): Plan
    requires b.Complement?
  {
    var declined := BelowAComplementDeclined(a, b, q);
    Beside(a, b.inner, HOLDS, FAILS, Ask(a, b.inner, Empties(a, HOLDS, FAILS, DECLINES), declined, declined), q)
  }

  // ---- What is left to the shapes, the oracle and the lengths.

  /** The refutations a value by shape gives, cheapest first. */
  predicate RefutedByShape(a: Schema, b: Schema, q: Setting) {
    || ShorterThan(a, b)
    || SpillsPast(a, b, q.oracle)
    || OutsideTheClass(a, b, q.oracle)
    || ((a.Anything? || a.Complement?) && SpillsAKindInto(a, b, q))
    || DisjointWith(a, b, q.oracle)
  }

  function Unstructured(a: Schema, b: Schema, q: Setting): Plan {
    if RefutedByShape(a, b, q) then FAILS
    else
      match q.oracle.leafSubtype(a, b)
      case Some(held) => Answer(Decided(held))
      case None =>
        var lengths := Answer(
          if !(a.Refine? || a.Str? || a.Bytes? || a.Seq? || a.Coll?) then Relation.Unknown
          else if EmptyBelow(a, b) then Relation.Holds
          else if TheEmptyRefused(a, b) then Relation.Fails
          else Relation.Unknown);
        if b.Refine? then Ask(a, b.base, lengths, FAILS, lengths) else lengths
  }

  // ---- The match on the two shapes, and the bounds around it.

  function ByShapeOfAMeet(a: Schema, b: Schema, q: Setting, alone: bool): Plan
    requires a.Intersection?
  {
    OrElse(OrElse(OrElse(MeetBelow(a, b, q, alone), Answer(TheTablesBelow(a.members, b, q.oracle))),
                  MeetReadWhole(a, b, q)), NarrowedMeetBelow(a, b, q))
  }

  function ByShape(a: Schema, b: Schema, q: Setting, alone: bool): Plan {
    if a.Union? then UnionBelow(a, b, q)
    else if b.Intersection? then BelowEach(a, b.members, false)
    else if a.Intersection? then ByShapeOfAMeet(a, b, q, alone)
    else if b.Union? then
      OrElse(OrElse(BelowAUnion(a, b, q), if SpillsPastATable(a, b, q) then FAILS else DECLINES), Unstructured(a, b, q))
    else if a.Refine? && a.constraints == [] then Just(a.base, b)
    else if b.Refine? && b.constraints == [] then Just(a, b.base)
    else if a.Ref? && a.definition >= |q.defs| then BelowAReference(a, b, q)
    else if a.Ref? then LeftReduces(a, b, q)
    else if b.Ref? then BelowAReference(a, b, q)
    else if a.Coll? && b.Coll? && a.kind == b.kind then Just(a.element, b.element)
    else if a.Seq? && b.Seq? && a.container == b.container then LinearBelow(a, b)
    else if a.Complement? && b.Complement? then Just(b.inner, a.inner)
    else if b.Complement? then BelowAComplement(a, b, q)
    else if a.Refine? && b.Refine? then OrElse(RefinementBelow(a, b, q), Unstructured(a, b, q))
    else if a.Refine? then OrElse(LeftReduces(a, b, q), Unstructured(a, b, q))
    else if b.Literal? && SpillsPastATable(a, b, q) then FAILS
    else Unstructured(a, b, q)
  }

  /** The members of a union, a nested one's own in its place, at any depth. */
  function FlatMembers(ms: seq<Schema>): (r: seq<Schema>)
    ensures forall t <- r :: !t.Union?
    decreases ms
  {
    if ms == [] then []
    else (if ms[0].Union? then FlatMembers(ms[0].members) else [ms[0]]) + FlatMembers(ms[1..])
  }

  /** The lattice bounds that cost a walk, asked where the rules decline. */
  function Bounded(a: Schema, b: Schema, q: Setting): Plan {
    var supertype :=
      if CoversTheUniverse(b) then HOLDS
      else if b.Union? && exists t <- b.members :: RegionSet(t).Unknown? then
        Empties(MeetWithin(ComplementedAll(FlatMembers(b.members)), q.gate, true), HOLDS, DECLINES, DECLINES)
      else DECLINES;
    Empties(a, HOLDS, supertype, supertype)
  }

  /** The rules a goal reaches once it has spent its step and opened its level;
      `alone` is that no hypothesis is open. */
  function Decide(a: Schema, b: Schema, q: Setting, alone: bool): Plan {
    var table := if FiniteSet(a).Some? && FiniteSet(b).Some? then FiniteSetBelow(FiniteSet(a).value, FiniteSet(b).value, q.oracle)
                 else Relation.Unknown;
    if !table.Unknown? then Answer(table)
    else if RegionSet(b) == Known(ALL) then HOLDS
    else if a.Complement? && PushedComplementIsPlaced(a.inner, b, q.gate) then HOLDS
    else OrElse(ByShape(a, b, q, alone), Bounded(a, b, q))
  }

  /** A refutation read against the subject: believed of a shape that holds a
      value, and otherwise what the subject's emptiness says. */
  function Witness(a: Schema, q: Setting): Plan {
    if HoldsAValueShallowly(a) || a.Union? || (a.Complement? && MissesAKind(a.inner, q)) then FAILS
    else Empties(a, HOLDS, FAILS, DECLINES)
  }
}
