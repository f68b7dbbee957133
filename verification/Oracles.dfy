/** The questions about constants and classes that only their owner can answer, each
    with a proof or with `None`. */
module Oracles {
  import opened Verdicts
  import opened Kinds
  import opened Schemas
  import opened Constructors
  import opened Values

  datatype Ordering = Less | Equal | Greater

  datatype Oracle = Oracle(
    leafSubtype: (Schema, Schema) -> Option<bool>,
    literalsDisjoint: (nat, nat) -> Option<bool>,
    literalSetsDisjoint: (seq<nat>, seq<nat>) -> Option<bool>,
    literalKind: nat -> Option<Kind>,
    classAdmitsKind: (nat, Kind) -> Option<bool>,
    kindDerivesFrom: (Kind, nat) -> Option<bool>,
    classIsASet: nat -> Option<bool>,
    compare: (nat, nat) -> Option<Ordering>,
    noIntBetween: (nat, bool, nat, bool) -> Option<bool>)

  /** The oracle that declines every question. */
  const SILENT: Oracle := Oracle(
    (_: Schema, _: Schema) => None,
    (_: nat, _: nat) => None,
    (_: seq<nat>, _: seq<nat>) => None,
    (_: nat) => None,
    (_: nat, _: Kind) => None,
    (_: Kind, _: nat) => None,
    (_: nat) => None,
    (_: nat, _: nat) => None,
    (_: nat, _: bool, _: nat, _: bool) => None)

  /** What every step of one query reads and none changes: the bounds among it
      are the levels held open, the steps a pair respelled may spend, and the
      longest container a value is named by. */
  datatype Setting = Setting(
    oracle: Oracle,
    defs: seq<Schema>,
    gate: Gate,
    maxDepth: nat,
    respelling: nat,
    longest: nat)

  ghost predicate ListedIn(v: Value, constants: seq<nat>, m: Meaning) {
    exists c <- constants :: v in m.literal(c)
  }

  /** Whether `v` stands past the lower end, or short of the upper one. */
  ghost predicate AtLeast(operand: nat, strict: bool, v: Value, m: Meaning) {
    Satisfied(if strict then Gt(operand) else Ge(operand), v, m)
  }

  ghost predicate AtMost(operand: nat, strict: bool, v: Value, m: Meaning) {
    Satisfied(if strict then Lt(operand) else Le(operand), v, m)
  }

  /** The order the oracle reads between two operands is the one their bounds
      cut the values in. */
  ghost predicate Ordered(o: Oracle, m: Meaning) {
    && (forall i, j, v :: o.compare(i, j) == Some(Equal) ==> m.place(i, v) == m.place(j, v))
    && (forall i, j, v :: o.compare(i, j) == Some(Greater) && AtLeast(i, false, v, m) ==> AtLeast(j, true, v, m))
    && (forall i, j, v :: o.compare(i, j) == Some(Greater) && AtMost(j, false, v, m) ==> AtMost(i, true, v, m))
    && (forall i, j, v :: o.compare(i, j) == Some(Less) && AtLeast(j, false, v, m) ==> AtLeast(i, true, v, m))
    && (forall i, j, v :: o.compare(i, j) == Some(Less) && AtMost(i, false, v, m) ==> AtMost(j, true, v, m))
    && (forall i, s, j, t, v :: o.noIntBetween(i, s, j, t) == Some(true) && OfKind(v, Kind.Int) ==>
          !(AtLeast(i, s, v, m) && AtMost(j, t, v, m)))
  }

  /** Every answer is a fact about the world `m` describes. */
  ghost predicate Truthful(o: Oracle, m: Meaning)
  {
    && (forall a, b :: o.leafSubtype(a, b) == Some(true) ==> Included(a, b, m))
    && (forall a, b :: o.leafSubtype(a, b) == Some(false) ==> Spills(a, b, m))
    && (forall i, j :: o.literalsDisjoint(i, j) == Some(true) ==> m.literal(i) !! m.literal(j))
    && (forall i, j :: o.literalsDisjoint(i, j) == Some(false) ==> !(m.literal(i) !! m.literal(j)))
    && (forall left, right :: o.literalSetsDisjoint(left, right) == Some(true) ==>
          forall v :: !(ListedIn(v, left, m) && ListedIn(v, right, m)))
    && (forall left, right :: o.literalSetsDisjoint(left, right) == Some(false) ==>
          exists v :: ListedIn(v, left, m) && ListedIn(v, right, m))
    && (forall c, v :: v in m.literal(c) && o.literalKind(c).Some? ==> KindOf(v) == o.literalKind(c))
    && (forall k, kind :: o.classAdmitsKind(k, kind) == Some(false) ==>
          forall v :: m.instance(k, v) ==> !OfKind(v, kind))
    && (forall k, kind :: o.kindDerivesFrom(kind, k) == Some(false) ==>
          forall v :: m.instance(k, v) ==> !OfKind(v, kind))
    && (forall k :: o.classIsASet(k) == Some(true) ==> exists v :: m.instance(k, v))
    && Ordered(o, m)
  }

  /** The setting reads the world `m` describes, truthfully. */
  ghost predicate Reads(q: Setting, m: Meaning) {
    q.defs == m.defs && Truthful(q.oracle, m)
  }
}
