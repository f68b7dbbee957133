/** Renumbering a term against another validator's pools: every index moves by
    its own space, and every set a move reached is put back in order. */
module Reindex {
  import opened Verdicts
  import opened Schemas
  import opened SortedLists
  import opened Constructors
  import opened Values

  /** How the two index spaces move: the pool's slots by a table, the definitions
      by a shift. */
  datatype Renumbering = Renumbering(pool: nat -> nat, shift: nat)

  function Composed(f: Renumbering, g: Renumbering): Renumbering {
    Renumbering((i: nat) => g.pool(f.pool(i)), f.shift + g.shift)
  }

  // ---- The indices a term holds.

  function ConstraintIndices(c: Constraint): set<nat> {
    match c
    case Ge(i) => {i} case Gt(i) => {i} case Le(i) => {i} case Lt(i) => {i}
    case MultipleOf(i) => {i} case Predicate(i) => {i}
    case _ => {}
  }

  function AllConstraintIndices(cs: seq<Constraint>): set<nat> {
    if cs == [] then {} else ConstraintIndices(cs[0]) + AllConstraintIndices(cs[1..])
  }

  function PoolIndices(s: Schema): set<nat>
    decreases s, 1
  {
    match s
    case Literal(i) => {i}
    case Instance(i) => {i}
    case Seq(_, prefix, tail) => AllPoolIndices(prefix) + (if tail.Some? then PoolIndices(tail.value) else {})
    case Coll(_, element) => PoolIndices(element)
    case Union(ms) => AllPoolIndices(ms)
    case Intersection(ms) => AllPoolIndices(ms)
    case Complement(t) => PoolIndices(t)
    case Refine(base, cs) => PoolIndices(base) + AllConstraintIndices(cs)
    case _ => {}
  }

  function AllPoolIndices(ms: seq<Schema>): set<nat>
    decreases ms, 0
  {
    if ms == [] then {} else PoolIndices(ms[0]) + AllPoolIndices(ms[1..])
  }

  function DefIndices(s: Schema): set<nat>
    decreases s, 1
  {
    match s
    case Ref(i) => {i}
    case Seq(_, prefix, tail) => AllDefIndices(prefix) + (if tail.Some? then DefIndices(tail.value) else {})
    case Coll(_, element) => DefIndices(element)
    case Union(ms) => AllDefIndices(ms)
    case Intersection(ms) => AllDefIndices(ms)
    case Complement(t) => DefIndices(t)
    case Refine(base, _) => DefIndices(base)
    case _ => {}
  }

  function AllDefIndices(ms: seq<Schema>): set<nat>
    decreases ms, 0
  {
    if ms == [] then {} else DefIndices(ms[0]) + AllDefIndices(ms[1..])
  }

  // ---- The move.

  function MovedConstraint(c: Constraint, r: Renumbering): Constraint {
    match c
    case Ge(i) => Ge(r.pool(i))
    case Gt(i) => Gt(r.pool(i))
    case Le(i) => Le(r.pool(i))
    case Lt(i) => Lt(r.pool(i))
    case MultipleOf(i) => MultipleOf(r.pool(i))
    case Predicate(i) => Predicate(r.pool(i))
    case _ => c
  }

  function MovedConstraints(cs: seq<Constraint>, r: Renumbering): seq<Constraint> {
    if cs == [] then [] else [MovedConstraint(cs[0], r)] + MovedConstraints(cs[1..], r)
  }

  /** Some index below the node moves. */
  predicate Moves(s: Schema, r: Renumbering)
    decreases s, 1
  {
    match s
    case Literal(i) => r.pool(i) != i
    case Instance(i) => r.pool(i) != i
    case Ref(_) => r.shift != 0
    case Seq(_, prefix, tail) => AnyMoves(prefix, r) || (tail.Some? && Moves(tail.value, r))
    case Coll(_, element) => Moves(element, r)
    case Union(ms) => AnyMoves(ms, r)
    case Intersection(ms) => AnyMoves(ms, r)
    case Complement(t) => Moves(t, r)
    case Refine(base, cs) => Moves(base, r) || MovedConstraints(cs, r) != cs
    case _ => false
  }

  predicate AnyMoves(ms: seq<Schema>, r: Renumbering)
    decreases ms, 0
  {
    ms != [] && (Moves(ms[0], r) || AnyMoves(ms[1..], r))
  }

  /** The term renumbered: a list nothing in moves is kept as it stands, and a set
      something in moves is sorted and deduplicated again. */
  function Reindexed(s: Schema, r: Renumbering): Schema
    decreases s, 1
  {
    match s
    case Literal(i) => Literal(r.pool(i))
    case Instance(i) => Instance(r.pool(i))
    case Ref(i) => Ref(i + r.shift)
    case Seq(k, prefix, tail) =>
      Seq(k, ReindexedAll(prefix, r), if tail.Some? then Some(Reindexed(tail.value, r)) else None)
    case Coll(k, element) => Coll(k, Reindexed(element, r))
    case Union(ms) => Union(ReindexedSet(ms, r))
    case Intersection(ms) => Intersection(ReindexedSet(ms, r))
    case Complement(t) => Complement(Reindexed(t, r))
    case Refine(base, cs) => Refine(Reindexed(base, r), ReindexedConstraints(cs, r))
    case _ => s
  }

  function ReindexedAll(ms: seq<Schema>, r: Renumbering): (all: seq<Schema>)
    ensures |all| == |ms|
    decreases ms, 0
  {
    if ms == [] then [] else [Reindexed(ms[0], r)] + ReindexedAll(ms[1..], r)
  }

  function ReindexedSet(ms: seq<Schema>, r: Renumbering): seq<Schema>
    decreases ms, 1
  {
    if AnyMoves(ms, r) then CanonicalMembers(ReindexedAll(ms, r)) else ms
  }

  function ReindexedConstraints(cs: seq<Constraint>, r: Renumbering): seq<Constraint> {
    if MovedConstraints(cs, r) != cs then Canonical(MovedConstraints(cs, r), ConstraintPrecedes) else cs
  }

  // ---- A term nothing moves in is itself.

  lemma {:induction false} StandingStill(s: Schema, r: Renumbering)
    requires !Moves(s, r)
    ensures Reindexed(s, r) == s
    decreases s, 1
  {
    match s
    case Seq(_, prefix, tail) =>
      AllStandingStill(prefix, r);
      if tail.Some? { StandingStill(tail.value, r); }
    case Coll(_, element) => StandingStill(element, r);
    case Complement(t) => StandingStill(t, r);
    case Refine(base, _) => StandingStill(base, r);
    case _ =>
  }

  lemma {:induction false} AllStandingStill(ms: seq<Schema>, r: Renumbering)
    requires !AnyMoves(ms, r)
    ensures ReindexedAll(ms, r) == ms
    decreases ms, 0
  {
    if ms != [] {
      StandingStill(ms[0], r);
      AllStandingStill(ms[1..], r);
    }
  }

  /** Through the identity, at no shift, a term is itself. */
  lemma TheIdentityMovesNothing(s: Schema, r: Renumbering)
    requires r.shift == 0 && forall i :: i in PoolIndices(s) ==> r.pool(i) == i
    ensures Reindexed(s, r) == s
  {
    FixedIndicesStandStill(s, r);
    StandingStill(s, r);
  }

  lemma {:induction false} FixedIndicesStandStill(s: Schema, r: Renumbering)
    requires r.shift == 0 && forall i :: i in PoolIndices(s) ==> r.pool(i) == i
    ensures !Moves(s, r)
    decreases s, 1
  {
    match s
    case Seq(_, prefix, tail) =>
      AllFixedStandStill(prefix, r);
      if tail.Some? { FixedIndicesStandStill(tail.value, r); }
    case Coll(_, element) => FixedIndicesStandStill(element, r);
    case Union(ms) => AllFixedStandStill(ms, r);
    case Intersection(ms) => AllFixedStandStill(ms, r);
    case Complement(t) => FixedIndicesStandStill(t, r);
    case Refine(base, cs) =>
      FixedIndicesStandStill(base, r);
      FixedConstraints(cs, r);
    case _ =>
  }

  lemma {:induction false} AllFixedStandStill(ms: seq<Schema>, r: Renumbering)
    requires r.shift == 0 && forall i :: i in AllPoolIndices(ms) ==> r.pool(i) == i
    ensures !AnyMoves(ms, r)
    decreases ms, 0
  {
    if ms != [] {
      FixedIndicesStandStill(ms[0], r);
      AllFixedStandStill(ms[1..], r);
    }
  }

  lemma {:induction false} FixedConstraints(cs: seq<Constraint>, r: Renumbering)
    requires forall i :: i in AllConstraintIndices(cs) ==> r.pool(i) == i
    ensures MovedConstraints(cs, r) == cs
  {
    if cs != [] { FixedConstraints(cs[1..], r); }
  }

  // ---- The indices collected, each once and in order.

  predicate Before(a: nat, b: nat) { a < b }

  function InOrder(indices: seq<nat>): (r: seq<nat>)
    ensures forall i :: i in r <==> i in indices
  {
    Canonical(indices, Before)
  }

  lemma OneConstraintMore(cs: seq<Constraint>, at: nat)
    requires at < |cs|
    ensures AllConstraintIndices(cs[..at + 1]) == AllConstraintIndices(cs[..at]) + ConstraintIndices(cs[at])
  {
    assert cs[..at + 1] == cs[..at] + [cs[at]];
    IndicesOfConstraints(cs[..at]);
    IndicesOfConstraints(cs[..at + 1]);
  }

  /** Every payload pushed as the walk meets it, the definitions' beside the pool's. */
  method Indices(s: Schema, pool: seq<nat>, defs: seq<nat>) returns (pool': seq<nat>, defs': seq<nat>)
    ensures forall i :: i in pool' <==> i in pool || i in PoolIndices(s)
    ensures forall i :: i in defs' <==> i in defs || i in DefIndices(s)
    decreases s, 1
  {
    pool', defs' := pool, defs;
    match s {
      case Literal(i) => pool' := pool + [i];
      case Instance(i) => pool' := pool + [i];
      case Ref(i) => defs' := defs + [i];
      case Seq(_, prefix, tail) =>
        pool', defs' := IndicesOfAll(prefix, pool, defs);
        if tail.Some? { pool', defs' := Indices(tail.value, pool', defs'); }
      case Coll(_, element) => pool', defs' := Indices(element, pool, defs);
      case Union(ms) => pool', defs' := IndicesOfAll(ms, pool, defs);
      case Intersection(ms) => pool', defs' := IndicesOfAll(ms, pool, defs);
      case Complement(t) => pool', defs' := Indices(t, pool, defs);
      case Refine(base, cs) =>
        pool', defs' := Indices(base, pool, defs);
        ghost var before := pool';
        for at := 0 to |cs|
          invariant forall i :: i in pool' <==> i in before || i in AllConstraintIndices(cs[..at])
        {
          OneConstraintMore(cs, at);
          match cs[at] {
            case Ge(i) => pool' := pool' + [i];
            case Gt(i) => pool' := pool' + [i];
            case Le(i) => pool' := pool' + [i];
            case Lt(i) => pool' := pool' + [i];
            case MultipleOf(i) => pool' := pool' + [i];
            case Predicate(i) => pool' := pool' + [i];
            case _ =>
          }
        }
        assert cs[..|cs|] == cs;
      case _ =>
    }
  }

  method IndicesOfAll(ms: seq<Schema>, pool: seq<nat>, defs: seq<nat>) returns (pool': seq<nat>, defs': seq<nat>)
    ensures forall i :: i in pool' <==> i in pool || i in AllPoolIndices(ms)
    ensures forall i :: i in defs' <==> i in defs || i in AllDefIndices(ms)
    decreases ms, 0
  {
    pool', defs' := pool, defs;
    for at := 0 to |ms|
      invariant forall i :: i in pool' <==> i in pool || i in AllPoolIndices(ms[..at])
      invariant forall i :: i in defs' <==> i in defs || i in AllDefIndices(ms[..at])
    {
      assert ms[..at + 1] == ms[..at] + [ms[at]];
      IndicesOfMembers(ms[..at]);
      IndicesOfMembers(ms[..at + 1]);
      pool', defs' := Indices(ms[at], pool', defs');
    }
    assert ms[..|ms|] == ms;
  }

  /** The two sets of indices under a term, each sorted and distinct. */
  method IndexSets(s: Schema) returns (pool: seq<nat>, defs: seq<nat>)
    ensures Sorted(pool, Before) && forall i :: i in pool <==> i in PoolIndices(s)
    ensures Sorted(defs, Before) && forall i :: i in defs <==> i in DefIndices(s)
  {
    pool, defs := Indices(s, [], []);
    CanonicalIsSorted(pool, Before);
    CanonicalIsSorted(defs, Before);
    pool, defs := InOrder(pool), InOrder(defs);
  }

  // ---- Every index is sent through the table, and every definition along.

  ghost predicate IsImage(after: set<nat>, before: set<nat>, f: nat -> nat) {
    && (forall i :: i in before ==> f(i) in after)
    && (forall j :: j in after ==> exists i :: i in before && f(i) == j)
  }

  function Shifted(shift: nat): nat -> nat { (i: nat) => i + shift }

  lemma IndicesOfMembers(ms: seq<Schema>)
    ensures forall i :: i in AllPoolIndices(ms) <==> exists t :: t in ms && i in PoolIndices(t)
    ensures forall i :: i in AllDefIndices(ms) <==> exists t :: t in ms && i in DefIndices(t)
  {
    hide AllPoolIndices, AllDefIndices, PoolIndices, DefIndices;
    forall i ensures i in AllPoolIndices(ms) <==> exists t :: t in ms && i in PoolIndices(t) { PoolOfMembers(ms, i); }
    forall i ensures i in AllDefIndices(ms) <==> exists t :: t in ms && i in DefIndices(t) { DefsOfMembers(ms, i); }
  }

  lemma {:induction false} PoolOfMembers(ms: seq<Schema>, i: nat)
    ensures i in AllPoolIndices(ms) <==> exists t :: t in ms && i in PoolIndices(t)
  {
    hide PoolIndices;
    if ms != [] {
      PoolOfMembers(ms[1..], i);
      assert AllPoolIndices(ms) == PoolIndices(ms[0]) + AllPoolIndices(ms[1..]);
      if i in PoolIndices(ms[0]) {
        assert ms[0] in ms;
      } else if t :| t in ms[1..] && i in PoolIndices(t) {
        assert t in ms;
      }
    }
  }

  lemma {:induction false} DefsOfMembers(ms: seq<Schema>, i: nat)
    ensures i in AllDefIndices(ms) <==> exists t :: t in ms && i in DefIndices(t)
  {
    hide DefIndices;
    if ms != [] {
      DefsOfMembers(ms[1..], i);
      assert AllDefIndices(ms) == DefIndices(ms[0]) + AllDefIndices(ms[1..]);
      if i in DefIndices(ms[0]) {
        assert ms[0] in ms;
      } else if t :| t in ms[1..] && i in DefIndices(t) {
        assert t in ms;
      }
    }
  }

  lemma IndicesOfConstraints(cs: seq<Constraint>)
    ensures forall i :: i in AllConstraintIndices(cs) <==> exists c :: c in cs && i in ConstraintIndices(c)
  {
    hide AllConstraintIndices, ConstraintIndices;
    forall i ensures i in AllConstraintIndices(cs) <==> exists c :: c in cs && i in ConstraintIndices(c) { SlotOfConstraints(cs, i); }
  }

  lemma {:induction false} SlotOfConstraints(cs: seq<Constraint>, i: nat)
    ensures i in AllConstraintIndices(cs) <==> exists c :: c in cs && i in ConstraintIndices(c)
  {
    hide ConstraintIndices;
    if cs != [] {
      SlotOfConstraints(cs[1..], i);
      assert AllConstraintIndices(cs) == ConstraintIndices(cs[0]) + AllConstraintIndices(cs[1..]);
      if i in ConstraintIndices(cs[0]) {
        assert cs[0] in cs;
      } else if c :| c in cs[1..] && i in ConstraintIndices(c) {
        assert c in cs;
      }
    }
  }

  lemma SameElementsSameIndices(a: seq<Schema>, b: seq<Schema>)
    requires forall t :: t in a <==> t in b
    ensures AllPoolIndices(a) == AllPoolIndices(b) && AllDefIndices(a) == AllDefIndices(b)
  {
    IndicesOfMembers(a);
    IndicesOfMembers(b);
  }

  lemma ImagesJoin(a: set<nat>, b: set<nat>, c: set<nat>, d: set<nat>, f: nat -> nat)
    requires IsImage(a, c, f) && IsImage(b, d, f)
    ensures IsImage(a + b, c + d, f)
  {
  }

  /** Interning sends every pool index through the table and shifts every
      definition's, missing none. */
  lemma {:induction false} EveryIndexMoves(s: Schema, r: Renumbering)
    ensures IsImage(PoolIndices(Reindexed(s, r)), PoolIndices(s), r.pool)
    ensures IsImage(DefIndices(Reindexed(s, r)), DefIndices(s), Shifted(r.shift))
    decreases s, 1
  {
    hide IsImage, ReindexedSet, ReindexedConstraints, ReindexedAll, AllPoolIndices, AllDefIndices, AllConstraintIndices;
    AtomsMove(s, r);
    match s
    case Seq(_, prefix, tail) =>
      AllIndicesMove(prefix, r);
      if tail.Some? { EveryIndexMoves(tail.value, r); }
      ASequencesIndicesMove(s, r);
    case Coll(_, element) => EveryIndexMoves(element, r);
    case Union(ms) => ASetsIndicesMove(ms, r);
    case Intersection(ms) => ASetsIndicesMove(ms, r);
    case Complement(t) => EveryIndexMoves(t, r);
    case Refine(base, cs) =>
      EveryIndexMoves(base, r);
      ARefinementsIndicesMove(base, cs, r);
    case _ =>
  }

  lemma ARefinementsIndicesMove(base: Schema, cs: seq<Constraint>, r: Renumbering)
    requires IsImage(PoolIndices(Reindexed(base, r)), PoolIndices(base), r.pool)
    ensures IsImage(PoolIndices(Reindexed(Refine(base, cs), r)), PoolIndices(Refine(base, cs)), r.pool)
  {
    hide IsImage;
    hide ReindexedConstraints;
    ConstraintIndicesMove(cs, r);
    ImagesJoin(PoolIndices(Reindexed(base, r)), AllConstraintIndices(ReindexedConstraints(cs, r)),
               PoolIndices(base), AllConstraintIndices(cs), r.pool);
  }

  lemma ASequencesIndicesMove(s: Schema, r: Renumbering)
    requires s.Seq?
    requires IsImage(AllPoolIndices(ReindexedAll(s.prefix, r)), AllPoolIndices(s.prefix), r.pool)
    requires IsImage(AllDefIndices(ReindexedAll(s.prefix, r)), AllDefIndices(s.prefix), Shifted(r.shift))
    requires s.tail.Some? ==> IsImage(PoolIndices(Reindexed(s.tail.value, r)), PoolIndices(s.tail.value), r.pool)
    requires s.tail.Some? ==> IsImage(DefIndices(Reindexed(s.tail.value, r)), DefIndices(s.tail.value), Shifted(r.shift))
    ensures IsImage(PoolIndices(Reindexed(s, r)), PoolIndices(s), r.pool)
    ensures IsImage(DefIndices(Reindexed(s, r)), DefIndices(s), Shifted(r.shift))
  {
    hide IsImage;
    var all := ReindexedAll(s.prefix, r);
    if s.tail.Some? {
      var last := Reindexed(s.tail.value, r);
      ImagesJoin(AllPoolIndices(all), PoolIndices(last), AllPoolIndices(s.prefix), PoolIndices(s.tail.value), r.pool);
      ImagesJoin(AllDefIndices(all), DefIndices(last), AllDefIndices(s.prefix), DefIndices(s.tail.value), Shifted(r.shift));
    } else {
      assert PoolIndices(s) == AllPoolIndices(s.prefix) && DefIndices(s) == AllDefIndices(s.prefix);
      assert PoolIndices(Reindexed(s, r)) == AllPoolIndices(all) && DefIndices(Reindexed(s, r)) == AllDefIndices(all);
    }
  }

  lemma AtomsMove(s: Schema, r: Renumbering)
    ensures IsImage({}, {}, r.pool) && IsImage({}, {}, Shifted(r.shift))
    ensures s.Literal? ==> IsImage({r.pool(s.constant)}, {s.constant}, r.pool)
    ensures s.Instance? ==> IsImage({r.pool(s.class_)}, {s.class_}, r.pool)
    ensures s.Ref? ==> IsImage({s.definition + r.shift}, {s.definition}, Shifted(r.shift))
  {
  }

  lemma {:induction false} AllIndicesMove(ms: seq<Schema>, r: Renumbering)
    ensures IsImage(AllPoolIndices(ReindexedAll(ms, r)), AllPoolIndices(ms), r.pool)
    ensures IsImage(AllDefIndices(ReindexedAll(ms, r)), AllDefIndices(ms), Shifted(r.shift))
    decreases ms, 0
  {
    hide IsImage, Reindexed, PoolIndices, DefIndices, Shifted;
    AtomsMove(Anything, r);
    if ms != [] {
      EveryIndexMoves(ms[0], r);
      AllIndicesMove(ms[1..], r);
      var first, rest := Reindexed(ms[0], r), ReindexedAll(ms[1..], r);
      assert ReindexedAll(ms, r) == [first] + rest && ([first] + rest)[1..] == rest;
      ImagesJoin(PoolIndices(first), AllPoolIndices(rest), PoolIndices(ms[0]), AllPoolIndices(ms[1..]), r.pool);
      ImagesJoin(DefIndices(first), AllDefIndices(rest), DefIndices(ms[0]), AllDefIndices(ms[1..]), Shifted(r.shift));
    }
  }

  lemma {:induction false} ASetsIndicesMove(ms: seq<Schema>, r: Renumbering)
    ensures IsImage(AllPoolIndices(ReindexedSet(ms, r)), AllPoolIndices(ms), r.pool)
    ensures IsImage(AllDefIndices(ReindexedSet(ms, r)), AllDefIndices(ms), Shifted(r.shift))
    decreases ms, 1
  {
    AllIndicesMove(ms, r);
    if AnyMoves(ms, r) {
      SameElementsSameIndices(ReindexedSet(ms, r), ReindexedAll(ms, r));
    } else {
      AllStandingStill(ms, r);
    }
  }

  lemma ConstraintIndicesMove(cs: seq<Constraint>, r: Renumbering)
    ensures IsImage(AllConstraintIndices(ReindexedConstraints(cs, r)), AllConstraintIndices(cs), r.pool)
  {
    hide IsImage, AllConstraintIndices, MovedConstraints;
    EachConstraintMoves(cs, r);
    if MovedConstraints(cs, r) != cs {
      var moved := MovedConstraints(cs, r);
      SameConstraintsSameIndices(Canonical(moved, ConstraintPrecedes), moved);
    }
  }

  lemma SameConstraintsSameIndices(a: seq<Constraint>, b: seq<Constraint>)
    requires forall c :: c in a <==> c in b
    ensures AllConstraintIndices(a) == AllConstraintIndices(b)
  {
    hide AllConstraintIndices, ConstraintIndices;
    IndicesOfConstraints(a);
    IndicesOfConstraints(b);
  }

  lemma {:induction false} EachConstraintMoves(cs: seq<Constraint>, r: Renumbering)
    ensures IsImage(AllConstraintIndices(MovedConstraints(cs, r)), AllConstraintIndices(cs), r.pool)
  {
    hide IsImage, MovedConstraint, ConstraintIndices;
    AtomsMove(Anything, r);
    if cs != [] {
      OneConstraintMoves(cs[0], r);
      EachConstraintMoves(cs[1..], r);
      var first, rest := MovedConstraint(cs[0], r), MovedConstraints(cs[1..], r);
      assert MovedConstraints(cs, r) == [first] + rest && ([first] + rest)[1..] == rest;
      ImagesJoin(ConstraintIndices(first), AllConstraintIndices(rest), ConstraintIndices(cs[0]), AllConstraintIndices(cs[1..]), r.pool);
    }
  }

  lemma OneConstraintMoves(c: Constraint, r: Renumbering)
    ensures IsImage(ConstraintIndices(MovedConstraint(c, r)), ConstraintIndices(c), r.pool)
  {
  }

  // ---- Every set stays canonical.

  ghost predicate SetsAreCanonical(s: Schema)
    decreases s, 1
  {
    match s
    case Seq(_, prefix, tail) => AllSetsAreCanonical(prefix) && (tail.Some? ==> SetsAreCanonical(tail.value))
    case Coll(_, element) => SetsAreCanonical(element)
    case Union(ms) => Sorted(ms, Precedes) && AllSetsAreCanonical(ms)
    case Intersection(ms) => Sorted(ms, Precedes) && AllSetsAreCanonical(ms)
    case Complement(t) => SetsAreCanonical(t)
    case Refine(base, cs) => SetsAreCanonical(base) && Sorted(cs, ConstraintPrecedes)
    case _ => true
  }

  ghost predicate AllSetsAreCanonical(ms: seq<Schema>)
    decreases ms, 0
  {
    forall t <- ms :: SetsAreCanonical(t)
  }

  lemma {:induction false} ReindexedAt(ms: seq<Schema>, r: Renumbering, j: nat)
    requires j < |ms|
    ensures ReindexedAll(ms, r)[j] == Reindexed(ms[j], r)
  {
    if j > 0 { ReindexedAt(ms[1..], r, j - 1); }
  }

  /** A renumbered set is canonical, through any table, collapsing or reversing. */
  lemma {:induction false} RenumberedSetsAreCanonical(s: Schema, r: Renumbering)
    requires SetsAreCanonical(s)
    ensures SetsAreCanonical(Reindexed(s, r))
    decreases s, 1
  {
    match s
    case Seq(_, prefix, tail) =>
      AllRenumberedAreCanonical(prefix, r);
      if tail.Some? { RenumberedSetsAreCanonical(tail.value, r); }
    case Coll(_, element) => RenumberedSetsAreCanonical(element, r);
    case Union(ms) => ARenumberedSetIsCanonical(ms, r);
    case Intersection(ms) => ARenumberedSetIsCanonical(ms, r);
    case Complement(t) => RenumberedSetsAreCanonical(t, r);
    case Refine(base, cs) =>
      RenumberedSetsAreCanonical(base, r);
      ConstraintsAreOrdered();
      CanonicalIsSorted(MovedConstraints(cs, r), ConstraintPrecedes);
    case _ =>
  }

  lemma {:induction false} AllRenumberedAreCanonical(ms: seq<Schema>, r: Renumbering)
    requires AllSetsAreCanonical(ms)
    ensures AllSetsAreCanonical(ReindexedAll(ms, r))
    decreases ms, 0
  {
    forall t | t in ReindexedAll(ms, r) ensures SetsAreCanonical(t) {
      var j :| 0 <= j < |ms| && ReindexedAll(ms, r)[j] == t;
      ReindexedAt(ms, r, j);
      RenumberedSetsAreCanonical(ms[j], r);
    }
  }

  lemma {:induction false} ARenumberedSetIsCanonical(ms: seq<Schema>, r: Renumbering)
    requires AllSetsAreCanonical(ms) && Sorted(ms, Precedes)
    ensures AllSetsAreCanonical(ReindexedSet(ms, r)) && Sorted(ReindexedSet(ms, r), Precedes)
    decreases ms, 1
  {
    AllRenumberedAreCanonical(ms, r);
    if AnyMoves(ms, r) {
      SchemasAreOrdered();
      CanonicalIsSorted(ReindexedAll(ms, r), Precedes);
    }
  }

  // ---- Twice is once through the composed table.

  /** A set some index of leaves and returns to is canonical: the first move sorts
      it, and the composed one, moving nothing, keeps it as it stands. */
  ghost predicate ReturnsAreCanonical(s: Schema, f: Renumbering, g: Renumbering)
    decreases s, 1
  {
    match s
    case Seq(_, prefix, tail) => AllReturnsAreCanonical(prefix, f, g) && (tail.Some? ==> ReturnsAreCanonical(tail.value, f, g))
    case Coll(_, element) => ReturnsAreCanonical(element, f, g)
    case Union(ms) => ASetReturnsCanonical(ms, f, g) && AllReturnsAreCanonical(ms, f, g)
    case Intersection(ms) => ASetReturnsCanonical(ms, f, g) && AllReturnsAreCanonical(ms, f, g)
    case Complement(t) => ReturnsAreCanonical(t, f, g)
    case Refine(base, cs) =>
      && ReturnsAreCanonical(base, f, g)
      && (MovedConstraints(cs, f) != cs && MovedConstraints(cs, Composed(f, g)) == cs ==> Sorted(cs, ConstraintPrecedes))
    case _ => true
  }

  ghost predicate ASetReturnsCanonical(ms: seq<Schema>, f: Renumbering, g: Renumbering) {
    AnyMoves(ms, f) && !AnyMoves(ms, Composed(f, g)) ==> Sorted(ms, Precedes)
  }

  ghost predicate AllReturnsAreCanonical(ms: seq<Schema>, f: Renumbering, g: Renumbering)
    decreases ms, 0
  {
    ms == [] || (ReturnsAreCanonical(ms[0], f, g) && AllReturnsAreCanonical(ms[1..], f, g))
  }

  lemma {:induction false} MovedTwice(cs: seq<Constraint>, f: Renumbering, g: Renumbering)
    ensures MovedConstraints(MovedConstraints(cs, f), g) == MovedConstraints(cs, Composed(f, g))
  {
    if cs != [] {
      MovedTwice(cs[1..], f, g);
      assert MovedConstraints(cs, f)[1..] == MovedConstraints(cs[1..], f);
    }
  }

  lemma {:induction false} MovedElements(cs: seq<Constraint>, r: Renumbering)
    ensures forall c :: c in MovedConstraints(cs, r) <==> exists d :: d in cs && MovedConstraint(d, r) == c
  {
    if cs != [] {
      MovedElements(cs[1..], r);
      assert forall c :: c in cs <==> c == cs[0] || c in cs[1..];
    }
  }

  lemma MovedSetsAlike(a: seq<Constraint>, b: seq<Constraint>, r: Renumbering)
    requires forall c :: c in a <==> c in b
    ensures forall c :: c in MovedConstraints(a, r) <==> c in MovedConstraints(b, r)
  {
    MovedElements(a, r);
    MovedElements(b, r);
  }

  lemma ConstraintsTwice(cs: seq<Constraint>, f: Renumbering, g: Renumbering)
    requires MovedConstraints(cs, f) != cs && MovedConstraints(cs, Composed(f, g)) == cs ==> Sorted(cs, ConstraintPrecedes)
    ensures ReindexedConstraints(ReindexedConstraints(cs, f), g) == ReindexedConstraints(cs, Composed(f, g))
  {
    MovedTwice(cs, f, g);
    ConstraintsAreOrdered();
    if MovedConstraints(cs, f) != cs {
      var once := Canonical(MovedConstraints(cs, f), ConstraintPrecedes);
      CanonicalIsSorted(MovedConstraints(cs, f), ConstraintPrecedes);
      MovedSetsAlike(once, MovedConstraints(cs, f), g);
      CanonicalIsUnique(MovedConstraints(once, g), MovedConstraints(cs, Composed(f, g)), ConstraintPrecedes);
      if MovedConstraints(once, g) == once {
        CanonicalIsUnique(once, once, ConstraintPrecedes);
      }
    }
  }

  lemma ReindexedElements(ms: seq<Schema>, r: Renumbering)
    ensures forall t :: t in ReindexedAll(ms, r) <==> exists u :: u in ms && Reindexed(u, r) == t
  {
    forall t ensures t in ReindexedAll(ms, r) <==> exists u :: u in ms && Reindexed(u, r) == t {
      if t in ReindexedAll(ms, r) {
        var j :| 0 <= j < |ms| && ReindexedAll(ms, r)[j] == t;
        ReindexedAt(ms, r, j);
      }
      if u :| u in ms && Reindexed(u, r) == t {
        var j :| 0 <= j < |ms| && ms[j] == u;
        ReindexedAt(ms, r, j);
      }
    }
  }

  lemma ReindexedSetsAlike(a: seq<Schema>, b: seq<Schema>, r: Renumbering)
    requires forall t :: t in a <==> t in b
    ensures forall t :: t in ReindexedAll(a, r) <==> t in ReindexedAll(b, r)
  {
    ReindexedElements(a, r);
    ReindexedElements(b, r);
  }

  /** Renumbering twice is renumbering once through the composed table. */
  lemma {:induction false} TwiceIsOnce(s: Schema, f: Renumbering, g: Renumbering)
    requires ReturnsAreCanonical(s, f, g)
    ensures Reindexed(Reindexed(s, f), g) == Reindexed(s, Composed(f, g))
    decreases s, 2
  {
    hide ReindexedSet, ReindexedConstraints, ASetReturnsCanonical, ReindexedAll, AllReturnsAreCanonical, MovedConstraints, Sorted;
    match s
    case Seq(_, prefix, tail) =>
      AllTwice(prefix, f, g);
      if tail.Some? { TwiceIsOnce(tail.value, f, g); }
    case Coll(_, element) => TwiceIsOnce(element, f, g);
    case Union(ms) => ASetTwice(ms, f, g);
    case Intersection(ms) => ASetTwice(ms, f, g);
    case Complement(t) => TwiceIsOnce(t, f, g);
    case Refine(base, cs) =>
      TwiceIsOnce(base, f, g);
      ConstraintsTwice(cs, f, g);
    case _ =>
  }

  lemma {:induction false} AllTwice(ms: seq<Schema>, f: Renumbering, g: Renumbering)
    requires AllReturnsAreCanonical(ms, f, g)
    ensures ReindexedAll(ReindexedAll(ms, f), g) == ReindexedAll(ms, Composed(f, g))
    decreases ms, 0
  {
    if ms != [] {
      TwiceIsOnce(ms[0], f, g);
      AllTwice(ms[1..], f, g);
      assert ReindexedAll(ms, f)[1..] == ReindexedAll(ms[1..], f);
    }
  }

  lemma {:induction false} ASetTwice(ms: seq<Schema>, f: Renumbering, g: Renumbering)
    requires ASetReturnsCanonical(ms, f, g) && AllReturnsAreCanonical(ms, f, g)
    ensures ReindexedSet(ReindexedSet(ms, f), g) == ReindexedSet(ms, Composed(f, g))
    decreases ms, 1
  {
    AllTwice(ms, f, g);
    if AnyMoves(ms, f) {
      AMovedSetTwice(ms, f, g);
    } else {
      AllStandingStill(ms, f);
      ComposedMovesAlike(ms, f, g);
    }
  }

  lemma AMovedSetTwice(ms: seq<Schema>, f: Renumbering, g: Renumbering)
    requires AnyMoves(ms, f) && ASetReturnsCanonical(ms, f, g)
    requires ReindexedAll(ReindexedAll(ms, f), g) == ReindexedAll(ms, Composed(f, g))
    ensures ReindexedSet(ReindexedSet(ms, f), g) == ReindexedSet(ms, Composed(f, g))
  {
    hide Precedes;
    hide Moves;
    hide Reindexed;
    hide StrictOrder;
    hide Canonical;
    var all, once, both := ReindexedAll(ms, f), CanonicalMembers(ReindexedAll(ms, f)), ReindexedAll(ms, Composed(f, g));
    SchemasAreOrdered();
    CanonicalIsSorted(all, Precedes);
    ReindexedSetsAlike(once, all, g);
    CanonicalIsUnique(ReindexedAll(once, g), both, Precedes);
    if !AnyMoves(once, g) {
      AllStandingStill(once, g);
      CanonicalIsUnique(both, once, Precedes);
    }
    if !AnyMoves(ms, Composed(f, g)) {
      AllStandingStill(ms, Composed(f, g));
      CanonicalIsUnique(both, ms, Precedes);
    }
  }

  /** Where the first move stands still, the composed one is the second. */
  lemma {:induction false} ComposedMovesAlike(ms: seq<Schema>, f: Renumbering, g: Renumbering)
    requires !AnyMoves(ms, f)
    ensures AnyMoves(ms, Composed(f, g)) <==> AnyMoves(ms, g)
    ensures ReindexedAll(ms, Composed(f, g)) == ReindexedAll(ms, g)
    decreases ms, 0
  {
    if ms != [] {
      OneComposedAlike(ms[0], f, g);
      ComposedMovesAlike(ms[1..], f, g);
    }
  }

  lemma {:induction false} OneComposedAlike(s: Schema, f: Renumbering, g: Renumbering)
    requires !Moves(s, f)
    ensures Moves(s, Composed(f, g)) <==> Moves(s, g)
    ensures Reindexed(s, Composed(f, g)) == Reindexed(s, g)
    decreases s, 1
  {
    match s
    case Seq(_, prefix, tail) =>
      ComposedMovesAlike(prefix, f, g);
      if tail.Some? { OneComposedAlike(tail.value, f, g); }
    case Coll(_, element) => OneComposedAlike(element, f, g);
    case Union(ms) => ComposedMovesAlike(ms, f, g);
    case Intersection(ms) => ComposedMovesAlike(ms, f, g);
    case Complement(t) => OneComposedAlike(t, f, g);
    case Refine(base, cs) =>
      OneComposedAlike(base, f, g);
      MovedTwice(cs, f, g);
    case _ =>
  }

  /** A canonical term meets the condition, through any two tables. */
  lemma {:induction false} CanonicalTermsReturnCanonical(s: Schema, f: Renumbering, g: Renumbering)
    requires SetsAreCanonical(s)
    ensures ReturnsAreCanonical(s, f, g)
    decreases s, 1
  {
    match s
    case Seq(_, prefix, tail) =>
      AllCanonicalReturn(prefix, f, g);
      if tail.Some? { CanonicalTermsReturnCanonical(tail.value, f, g); }
    case Coll(_, element) => CanonicalTermsReturnCanonical(element, f, g);
    case Union(ms) => AllCanonicalReturn(ms, f, g);
    case Intersection(ms) => AllCanonicalReturn(ms, f, g);
    case Complement(t) => CanonicalTermsReturnCanonical(t, f, g);
    case Refine(base, _) => CanonicalTermsReturnCanonical(base, f, g);
    case _ =>
  }

  lemma {:induction false} AllCanonicalReturn(ms: seq<Schema>, f: Renumbering, g: Renumbering)
    requires AllSetsAreCanonical(ms)
    ensures AllReturnsAreCanonical(ms, f, g)
    decreases ms, 0
  {
    if ms != [] {
      assert ms[0] in ms;
      CanonicalTermsReturnCanonical(ms[0], f, g);
      AllCanonicalReturn(ms[1..], f, g);
    }
  }

  /** The table sends no slot to a lesser one. */
  ghost predicate NeverDown(r: Renumbering) {
    forall i :: r.pool(i) >= i
  }

  /** A shift never returns: of a term whatever its sets' order, twice is once. */
  lemma {:induction false} IncreasingTablesNeverReturn(s: Schema, f: Renumbering, g: Renumbering)
    requires NeverDown(f) && NeverDown(g)
    ensures ReturnsAreCanonical(s, f, g)
    ensures Moves(s, f) ==> Moves(s, Composed(f, g))
    decreases s, 1
  {
    match s
    case Seq(_, prefix, tail) =>
      AllNeverReturn(prefix, f, g);
      if tail.Some? { IncreasingTablesNeverReturn(tail.value, f, g); }
    case Coll(_, element) => IncreasingTablesNeverReturn(element, f, g);
    case Union(ms) => AllNeverReturn(ms, f, g);
    case Intersection(ms) => AllNeverReturn(ms, f, g);
    case Complement(t) => IncreasingTablesNeverReturn(t, f, g);
    case Refine(base, cs) =>
      IncreasingTablesNeverReturn(base, f, g);
      ConstraintsNeverReturn(cs, f, g);
    case _ =>
  }

  lemma {:induction false} AllNeverReturn(ms: seq<Schema>, f: Renumbering, g: Renumbering)
    requires NeverDown(f) && NeverDown(g)
    ensures AllReturnsAreCanonical(ms, f, g)
    ensures AnyMoves(ms, f) ==> AnyMoves(ms, Composed(f, g))
    decreases ms, 0
  {
    if ms != [] {
      IncreasingTablesNeverReturn(ms[0], f, g);
      AllNeverReturn(ms[1..], f, g);
    }
  }

  lemma {:induction false} ConstraintsNeverReturn(cs: seq<Constraint>, f: Renumbering, g: Renumbering)
    requires NeverDown(f) && NeverDown(g)
    ensures MovedConstraints(cs, f) != cs ==> MovedConstraints(cs, Composed(f, g)) != cs
  {
    if cs != [] {
      ConstraintsNeverReturn(cs[1..], f, g);
      AConstraintNeverReturns(cs[0], f, g);
      AMovedHead(cs, f);
      AMovedHead(cs, Composed(f, g));
    }
  }

  lemma AConstraintNeverReturns(c: Constraint, f: Renumbering, g: Renumbering)
    requires NeverDown(f) && NeverDown(g)
    ensures MovedConstraint(c, f) != c ==> MovedConstraint(c, Composed(f, g)) != c
  {
  }

  lemma AMovedHead(cs: seq<Constraint>, r: Renumbering)
    requires cs != []
    ensures MovedConstraints(cs, r) == cs <==> MovedConstraint(cs[0], r) == cs[0] && MovedConstraints(cs[1..], r) == cs[1..]
  {
    hide MovedConstraint;
    assert MovedConstraints(cs, r)[1..] == MovedConstraints(cs[1..], r);
    assert cs == [cs[0]] + cs[1..];
  }

  // ---- And only then.

  lemma {:induction false} EachReturns(ms: seq<Schema>, f: Renumbering, g: Renumbering)
    ensures AllReturnsAreCanonical(ms, f, g) <==> forall t <- ms :: ReturnsAreCanonical(t, f, g)
  {
    hide ReturnsAreCanonical;
    if ms != [] {
      EachReturns(ms[1..], f, g);
      assert AllReturnsAreCanonical(ms, f, g) <==> ReturnsAreCanonical(ms[0], f, g) && AllReturnsAreCanonical(ms[1..], f, g);
      assert forall t :: t in ms <==> t == ms[0] || t in ms[1..];
    }
  }

  /** Renumbered by the first table, no term holds a raw set that table moved. */
  lemma {:induction false} TheFirstMoveSorts(s: Schema, f: Renumbering, g: Renumbering)
    ensures ReturnsAreCanonical(Reindexed(Reindexed(s, f), g), f, g)
    decreases s, 1
  {
    hide ReindexedSet;
    hide ASetReturnsCanonical;
    match s
    case Seq(_, prefix, tail) =>
      AllFirstMovesSort(prefix, f, g);
      if tail.Some? { TheFirstMoveSorts(tail.value, f, g); }
    case Coll(_, element) => TheFirstMoveSorts(element, f, g);
    case Union(ms) => ASetsFirstMoveSorts(ms, f, g);
    case Intersection(ms) => ASetsFirstMoveSorts(ms, f, g);
    case Complement(t) => TheFirstMoveSorts(t, f, g);
    case Refine(base, cs) =>
      TheFirstMoveSorts(base, f, g);
      ConstraintsAreOrdered();
      CanonicalIsSorted(MovedConstraints(cs, f), ConstraintPrecedes);
      CanonicalIsSorted(MovedConstraints(ReindexedConstraints(cs, f), g), ConstraintPrecedes);
    case _ =>
  }

  lemma {:induction false} AllFirstMovesSort(ms: seq<Schema>, f: Renumbering, g: Renumbering)
    ensures AllReturnsAreCanonical(ReindexedAll(ReindexedAll(ms, f), g), f, g)
    decreases ms, 0
  {
    if ms != [] {
      TheFirstMoveSorts(ms[0], f, g);
      AllFirstMovesSort(ms[1..], f, g);
      assert ReindexedAll(ms, f)[1..] == ReindexedAll(ms[1..], f);
      assert ReindexedAll(ReindexedAll(ms, f), g)[1..] == ReindexedAll(ReindexedAll(ms[1..], f), g);
    }
  }

  lemma {:induction false} ASetsFirstMoveSorts(ms: seq<Schema>, f: Renumbering, g: Renumbering)
    ensures var twice := ReindexedSet(ReindexedSet(ms, f), g);
      AllReturnsAreCanonical(twice, f, g) && ASetReturnsCanonical(twice, f, g)
    decreases ms, 1
  {
    hide Precedes;
    hide ReturnsAreCanonical;
    hide Canonical;
    var all, once := ReindexedAll(ms, f), ReindexedSet(ms, f);
    var twice := ReindexedSet(once, g);
    AllFirstMovesSort(ms, f, g);
    SchemasAreOrdered();
    CanonicalIsSorted(all, Precedes);
    CanonicalIsSorted(ReindexedAll(once, g), Precedes);
    if !AnyMoves(ms, f) { AllStandingStill(ms, f); }
    ReindexedSetsAlike(once, all, g);
    EachReturns(ReindexedAll(all, g), f, g);
    EachReturns(twice, f, g);
    if !AnyMoves(once, g) {
      AllStandingStill(once, g);
    }
  }

  /** A raw set that returns is still there, renumbered once. */
  lemma {:induction false} ARawReturnStays(s: Schema, f: Renumbering, g: Renumbering)
    requires ReturnsAreCanonical(Reindexed(s, Composed(f, g)), f, g)
    ensures ReturnsAreCanonical(s, f, g)
    decreases s, 1
  {
    match s
    case Seq(_, prefix, tail) =>
      AllRawReturnsStay(prefix, f, g);
      if tail.Some? { ARawReturnStays(tail.value, f, g); }
    case Coll(_, element) => ARawReturnStays(element, f, g);
    case Union(ms) => ASetsRawReturnStays(ms, f, g);
    case Intersection(ms) => ASetsRawReturnStays(ms, f, g);
    case Complement(t) => ARawReturnStays(t, f, g);
    case Refine(base, _) => ARawReturnStays(base, f, g);
    case _ =>
  }

  lemma {:induction false} AllRawReturnsStay(ms: seq<Schema>, f: Renumbering, g: Renumbering)
    requires AllReturnsAreCanonical(ReindexedAll(ms, Composed(f, g)), f, g)
    ensures AllReturnsAreCanonical(ms, f, g)
    decreases ms, 0
  {
    if ms != [] {
      assert ReindexedAll(ms, Composed(f, g))[1..] == ReindexedAll(ms[1..], Composed(f, g));
      ARawReturnStays(ms[0], f, g);
      AllRawReturnsStay(ms[1..], f, g);
    }
  }

  lemma {:induction false} ASetsRawReturnStays(ms: seq<Schema>, f: Renumbering, g: Renumbering)
    requires var once := ReindexedSet(ms, Composed(f, g)); AllReturnsAreCanonical(once, f, g) && ASetReturnsCanonical(once, f, g)
    ensures AllReturnsAreCanonical(ms, f, g) && ASetReturnsCanonical(ms, f, g)
    decreases ms, 1
  {
    var all := ReindexedAll(ms, Composed(f, g));
    if AnyMoves(ms, Composed(f, g)) {
      EachReturns(all, f, g);
      EachReturns(ReindexedSet(ms, Composed(f, g)), f, g);
      AllRawReturnsStay(ms, f, g);
    }
  }

  /** Renumbering twice is renumbering once through the composed table exactly
      where every set that leaves its order and returns to it is canonical. */
  lemma TwiceIsOnceExactly(s: Schema, f: Renumbering, g: Renumbering)
    ensures Reindexed(Reindexed(s, f), g) == Reindexed(s, Composed(f, g)) <==> ReturnsAreCanonical(s, f, g)
  {
    if ReturnsAreCanonical(s, f, g) {
      TwiceIsOnce(s, f, g);
    } else {
      TheFirstMoveSorts(s, f, g);
      if ReturnsAreCanonical(Reindexed(s, Composed(f, g)), f, g) { ARawReturnStays(s, f, g); }
    }
  }

  /** Of a term built raw, a table and its inverse need not compose: the first
      sorts a set the composed table leaves in the order it was written. */
  lemma ARawSetMayReturnSorted() returns (s: Schema, f: Renumbering, g: Renumbering)
    ensures Reindexed(Reindexed(s, f), g) != Reindexed(s, Composed(f, g))
  {
    hide Reindexed, ReturnsAreCanonical, AnyMoves, Sorted;
    var ms := [Literal(1), Literal(0)];
    s := Union(ms);
    f, g := Renumbering((i: nat) => i + 5, 0), Renumbering((i: nat) => if i >= 5 then i - 5 else i, 0);
    APairMoves(1, 0, f);
    APairMoves(1, 0, Composed(f, g));
    AReversedPairIsRaw();
    ARawReturn(ms, f, g);
    TwiceIsOnceExactly(s, f, g);
  }

  lemma ARawReturn(ms: seq<Schema>, f: Renumbering, g: Renumbering)
    requires AnyMoves(ms, f) && !AnyMoves(ms, Composed(f, g)) && !Sorted(ms, Precedes)
    ensures !ReturnsAreCanonical(Union(ms), f, g)
  {
    hide AnyMoves, Sorted;
    assert !ASetReturnsCanonical(ms, f, g);
  }

  lemma APairMoves(i: nat, j: nat, r: Renumbering)
    ensures AnyMoves([Literal(i), Literal(j)], r) <==> r.pool(i) != i || r.pool(j) != j
  {
    var ms := [Literal(i), Literal(j)];
    var last := [Literal(j)];
    assert ms[1..] == last && last[1..] == [];
    assert AnyMoves(last, r) <==> Moves(last[0], r) || AnyMoves([], r);
    assert AnyMoves(ms, r) <==> Moves(ms[0], r) || AnyMoves(last, r);
  }

  lemma AReversedPairIsRaw()
    ensures !Sorted([Literal(1), Literal(0)], Precedes)
  {
    var ms := [Literal(1), Literal(0)];
    assert !Precedes(ms[0], ms[1]);
  }

  // ---- And the term denotes the same set.

  /** The second meaning reads each moved index as the first read it unmoved, and
      holds the first's definitions, renumbered, past its own. */
  ghost predicate Renumbers(m: Meaning, n: Meaning, r: Renumbering) {
    && (forall i :: n.literal(r.pool(i)) == m.literal(i))
    && (forall i, v :: n.instance(r.pool(i), v) == m.instance(i, v))
    && (forall c, v :: Satisfied(MovedConstraint(c, r), v, n) <==> Satisfied(c, v, m))
    && |m.defs| + r.shift <= |n.defs|
    && (forall i :: 0 <= i < |m.defs| ==> n.defs[i + r.shift] == Reindexed(m.defs[i], r) && Resolved(m.defs[i], m))
  }

  /** Every reference has a definition. */
  ghost predicate Resolved(s: Schema, m: Meaning)
    decreases s, 1
  {
    match s
    case Ref(i) => i < |m.defs|
    case Seq(_, prefix, tail) => AllResolved(prefix, m) && (tail.Some? ==> Resolved(tail.value, m))
    case Coll(_, element) => Resolved(element, m)
    case Union(ms) => AllResolved(ms, m)
    case Intersection(ms) => AllResolved(ms, m)
    case Complement(t) => Resolved(t, m)
    case Refine(base, _) => Resolved(base, m)
    case _ => true
  }

  ghost predicate AllResolved(ms: seq<Schema>, m: Meaning)
    decreases ms, 0
  {
    forall t <- ms :: Resolved(t, m)
  }

  lemma {:induction false} RenumberingPreservesMeaning(s: Schema, r: Renumbering, v: Value, m: Meaning, n: Meaning)
    requires Renumbers(m, n, r) && Resolved(s, m)
    ensures Member(v, Reindexed(s, r), n) <==> Member(v, s, m)
    decreases v, Exposed(s, m.rank), s, 1
  {
    hide Member, Reindexed, Renumbers;
    if s.Union? || s.Intersection? || s.Complement? {
      AConnectivePreserved(s, r, v, m, n);
    } else if s.Seq? {
      ASequencePreserved(s, r, v, m, n);
    } else if s.Coll? {
      ACollectionPreserved(s, r, v, m, n);
    } else if s.Refine? {
      ARefinementPreserved(s, r, v, m, n);
    } else {
      ALeafPreserved(s, r, v, m, n);
    }
  }

  lemma {:induction false} ALeafPreserved(s: Schema, r: Renumbering, v: Value, m: Meaning, n: Meaning)
    requires Renumbers(m, n, r) && Resolved(s, m)
    requires !s.Union? && !s.Intersection? && !s.Complement? && !s.Seq? && !s.Coll? && !s.Refine?
    ensures Member(v, Reindexed(s, r), n) <==> Member(v, s, m)
    decreases v, Exposed(s, m.rank), s, 0
  {
    if s.Ref? { RenumberingPreservesMeaning(m.defs[s.definition], r, v, m, n); }
  }

  lemma {:induction false} AConnectivePreserved(s: Schema, r: Renumbering, v: Value, m: Meaning, n: Meaning)
    requires Renumbers(m, n, r) && Resolved(s, m) && (s.Union? || s.Intersection? || s.Complement?)
    ensures Member(v, Reindexed(s, r), n) <==> Member(v, s, m)
    decreases v, Exposed(s, m.rank), s, 0
  {
    hide Renumbers;
    if s.Complement? { RenumberingPreservesMeaning(s.inner, r, v, m, n); } else { ASetPreserved(s.members, r, v, m, n); }
  }

  lemma {:induction false} ARefinementPreserved(s: Schema, r: Renumbering, v: Value, m: Meaning, n: Meaning)
    requires Renumbers(m, n, r) && Resolved(s, m) && s.Refine?
    ensures Member(v, Reindexed(s, r), n) <==> Member(v, s, m)
    decreases v, Exposed(s, m.rank), s, 0
  {
    RenumberingPreservesMeaning(s.base, r, v, m, n);
    ConstraintsPreserved(s.constraints, r, v, m, n);
  }

  lemma {:induction false} ACollectionPreserved(s: Schema, r: Renumbering, v: Value, m: Meaning, n: Meaning)
    requires Renumbers(m, n, r) && Resolved(s, m) && s.Coll?
    ensures Member(v, Reindexed(s, r), n) <==> Member(v, s, m)
    decreases v, Exposed(s, m.rank), s, 0
  {
    if v.VSet? || v.VFrozenSet? {
      forall e | e in v.elements ensures Member(e, Reindexed(s.element, r), n) <==> Member(e, s.element, m) {
        RenumberingPreservesMeaning(s.element, r, e, m, n);
      }
    }
  }

  lemma ConstraintsPreserved(cs: seq<Constraint>, r: Renumbering, v: Value, m: Meaning, n: Meaning)
    requires Renumbers(m, n, r)
    ensures (forall c <- ReindexedConstraints(cs, r) :: Satisfied(c, v, n)) <==> forall c <- cs :: Satisfied(c, v, m)
  {
    hide Member;
    MovedElements(cs, r);
    var moved := MovedConstraints(cs, r);
    assert (forall c <- moved :: Satisfied(c, v, n)) <==> forall c <- cs :: Satisfied(c, v, m) by {
      forall c | c in cs ensures MovedConstraint(c, r) in moved { }
    }
  }

  lemma {:induction false} ASetPreserved(ms: seq<Schema>, r: Renumbering, v: Value, m: Meaning, n: Meaning)
    requires Renumbers(m, n, r) && AllResolved(ms, m)
    ensures Member(v, Union(ReindexedSet(ms, r)), n) <==> Member(v, Union(ms), m)
    ensures Member(v, Intersection(ReindexedSet(ms, r)), n) <==> Member(v, Intersection(ms), m)
    decreases v, ExposedByAny(ms, m.rank), ms, 1
  {
    EachPreserved(ms, r, v, m, n);
    if AnyMoves(ms, r) {
      SameMembers(ReindexedSet(ms, r), ReindexedAll(ms, r), v, n);
    } else {
      AllStandingStill(ms, r);
    }
    InConnectives(v, ms, Nothing, m);
    InConnectives(v, ReindexedSet(ms, r), Nothing, n);
  }

  lemma {:induction false} EachPreserved(ms: seq<Schema>, r: Renumbering, v: Value, m: Meaning, n: Meaning)
    requires Renumbers(m, n, r) && AllResolved(ms, m)
    ensures InAny(v, ReindexedAll(ms, r), n) <==> InAny(v, ms, m)
    ensures InAll(v, ReindexedAll(ms, r), n) <==> InAll(v, ms, m)
    decreases v, ExposedByAny(ms, m.rank), ms, 0
  {
    if ms != [] {
      var all := ReindexedAll(ms, r);
      assert all[1..] == ReindexedAll(ms[1..], r);
      InSplit(v, ms, m);
      InSplit(v, all, n);
      RenumberingPreservesMeaning(ms[0], r, v, m, n);
      EachPreserved(ms[1..], r, v, m, n);
    }
  }

  lemma {:induction false} ASequencePreserved(s: Schema, r: Renumbering, v: Value, m: Meaning, n: Meaning)
    requires Renumbers(m, n, r) && Resolved(s, m) && s.Seq?
    ensures Member(v, Reindexed(s, r), n) <==> Member(v, s, m)
    decreases v, Exposed(s, m.rank), s, 0
  {
    var t := Reindexed(s, r);
    if v.VList? || v.VTuple? {
      forall j | 0 <= j < |v.items|
        ensures Member(v.items[j], ElementAt(t.prefix, t.tail, j), n) <==> Member(v.items[j], ElementAt(s.prefix, s.tail, j), m)
      {
        if j < |s.prefix| {
          ReindexedAt(s.prefix, r, j);
          assert s.prefix[j] in s.prefix;
          RenumberingPreservesMeaning(s.prefix[j], r, v.items[j], m, n);
        } else if s.tail.Some? {
          RenumberingPreservesMeaning(s.tail.value, r, v.items[j], m, n);
        }
      }
    }
  }
}
