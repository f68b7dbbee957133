/** The constructors that keep a term in the lattice normal form. */
module Constructors {
  import opened Verdicts
  import opened Schemas
  import opened SortedLists

  /** What the walk that rules a callback out is given: the bindings' oracle,
      the definitions, both or neither. */
  datatype Asked = Asked(oracle: bool, definitions: bool)

  /** Which terms that walk reads as sets when the complement law asks. */
  type Gate = (Asked, Schema) -> bool

  datatype Connective = Join | Meet

  function CanonicalMembers(ms: seq<Schema>): (r: seq<Schema>)
    ensures forall y :: y in r <==> y in ms
  {
    Canonical(ms, Precedes)
  }

  lemma SchemasAreOrdered()
    ensures StrictOrder(Precedes)
  {
    forall x, y, z ensures Precedes(x, y) && Precedes(y, z) ==> Precedes(x, z) { Order(x, y, z); }
    forall x, y ensures Precedes(x, y) || Precedes(y, x) || x == y { Order(x, y, x); }
    forall x ensures !Precedes(x, x) { Order(x, x, x); }
  }

  lemma ConstraintsAreOrdered()
    ensures StrictOrder(ConstraintPrecedes)
  {
    forall x, y, z ensures ConstraintPrecedes(x, y) && ConstraintPrecedes(y, z) ==> ConstraintPrecedes(x, z) { ConstraintOrder(x, y, z); }
    forall x, y ensures ConstraintPrecedes(x, y) || ConstraintPrecedes(y, x) || x == y { ConstraintOrder(x, y, x); }
    forall x ensures !ConstraintPrecedes(x, x) { ConstraintOrder(x, x, x); }
  }

  /** `members` hold `inner`, or all it is made of where it is joined or met the
      same way they are. */
  predicate Paired(inner: Schema, members: seq<Schema>, connective: Connective) {
    || inner in members
    || (connective.Join? && inner.Union? && forall part <- inner.members :: part in members)
    || (connective.Meet? && inner.Intersection? && forall part <- inner.members :: part in members)
  }

  predicate HasComplementaryPair(members: seq<Schema>, connective: Connective, gate: Gate, asked: Asked) {
    exists member <- members ::
      member.Complement? && Paired(member.inner, members, connective) && gate(asked, member.inner)
  }

  /** The members of a join, a nested join's own in its place and the bottom
      dropped; `None` where a member is the top. */
  function Joined(ms: seq<Schema>): Option<seq<Schema>> {
    if ms == [] then Some([])
    else if ms[0].Anything? then None
    else
      var rest := Joined(ms[1..]);
      if rest.None? then None
      else if ms[0].Nothing? then rest
      else if ms[0].Union? then Some(ms[0].members + rest.value)
      else Some([ms[0]] + rest.value)
  }

  /** The dual, for a meet. */
  function Met(ms: seq<Schema>): Option<seq<Schema>> {
    if ms == [] then Some([])
    else if ms[0].Nothing? then None
    else
      var rest := Met(ms[1..]);
      if rest.None? then None
      else if ms[0].Anything? then rest
      else if ms[0].Intersection? then Some(ms[0].members + rest.value)
      else Some([ms[0]] + rest.value)
  }

  function UnionWithin(ms: seq<Schema>, gate: Gate, within: bool): Schema {
    match Joined(ms)
    case None => Anything
    case Some(flat) =>
      var members := CanonicalMembers(flat);
      if HasComplementaryPair(members, Join, gate, Asked(false, within)) then Anything
      else if members == [] then Nothing
      else if |members| == 1 then members[0]
      else Union(members)
  }

  function MeetWithin(ms: seq<Schema>, gate: Gate, within: bool): Schema {
    match Met(ms)
    case None => Nothing
    case Some(flat) =>
      var members := CanonicalMembers(flat);
      if HasComplementaryPair(members, Meet, gate, Asked(false, within)) then Nothing
      else if members == [] then Anything
      else if |members| == 1 then members[0]
      else Intersection(members)
  }

  /** Every value the schema does not admit, a double complement folded. */
  function Complemented(s: Schema): Schema {
    match s
    case Complement(inner) => inner
    case Anything => Nothing
    case Nothing => Anything
    case _ => Complement(s)
  }

  function ComplementedAll(ms: seq<Schema>): (r: seq<Schema>)
    ensures |r| == |ms| && forall i :: 0 <= i < |ms| ==> r[i] == Complemented(ms[i])
  {
    seq(|ms|, i requires 0 <= i < |ms| => Complemented(ms[i]))
  }

  /** The conjuncts of a term, a nested meet's own in its place. */
  function Conjuncts(s: Schema): seq<Schema>
    decreases s, 1
  {
    if s.Intersection? then ConjunctsOfAll(s.members) else [s]
  }

  function ConjunctsOfAll(ms: seq<Schema>): seq<Schema>
    decreases ms, 0
  {
    if ms == [] then [] else Conjuncts(ms[0]) + ConjunctsOfAll(ms[1..])
  }
}
