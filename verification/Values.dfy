/** The value universe, and the set of values a schema denotes. */
module Values {
  import opened Verdicts
  import opened Kinds
  import opened Schemas
  import opened Constructors

  /** A value is a finite tree. `VObject` stands for an object of a user's own class,
      which is of no builtin kind. */
  datatype Value =
    | VNone | VBool(b: bool) | VInt(i: int) | VFloat(r: real) | VStr(text: string) | VBytes(octets: seq<bv8>)
    | VList(items: seq<Value>) | VTuple(items: seq<Value>)
    | VSet(elements: set<Value>) | VFrozenSet(elements: set<Value>)
    | VDict(entries: seq<(Value, Value)>)
    | VObject(identity: nat)

  /** Whether `w` is a smaller tree than `v`, as every part of `v` is. */
  ghost predicate Smaller(w: Value, v: Value) { w < v }

  function KindOf(v: Value): Option<Kind> {
    match v
    case VNone => Some(Kind.NoneType)
    case VBool(_) => Some(Kind.Bool)
    case VInt(_) => Some(Kind.Int)
    case VFloat(_) => Some(Kind.Float)
    case VStr(_) => Some(Kind.Str)
    case VBytes(_) => Some(Kind.Bytes)
    case VList(_) => Some(Kind.List)
    case VTuple(_) => Some(Kind.Tuple)
    case VSet(_) => Some(Kind.Set)
    case VFrozenSet(_) => Some(Kind.FrozenSet)
    case VDict(_) => Some(Kind.Dict)
    case VObject(_) => None
  }

  /** Whether the builtin `kind` has `v` as an instance: every boolean is an integer. */
  predicate OfKind(v: Value, kind: Kind) {
    KindOf(v) == Some(kind) || (kind.Int? && v.VBool?)
  }

  function PartOf(v: Value): Part {
    match KindOf(v)
    case Some(NoneType) => NonePart
    case Some(Bool) => BoolPart
    case Some(Int) => IntPart
    case Some(Float) => FloatPart
    case Some(Str) => StrPart
    case Some(Bytes) => BytesPart
    case _ => OtherPart
  }

  function Length(v: Value): Option<nat> {
    match v
    case VStr(t) => Some(|t|)
    case VBytes(t) => Some(|t|)
    case VList(t) => Some(|t|)
    case VTuple(t) => Some(|t|)
    case VSet(t) => Some(|t|)
    case VFrozenSet(t) => Some(|t|)
    case VDict(t) => Some(|t|)
    case _ => None
  }

  /** Where a value stands to an operand it is ordered with. */
  datatype Side = Short | Level | Past

  /** What the indices of a term name, and the definitions its references
      unfold to. `rank` orders the definitions so that one exposes only
      references of lesser rank. */
  datatype Interpretation = Interpretation(
    defs: seq<Schema>,
    rank: seq<nat>,
    literal: nat -> set<Value>,
    instance: (nat, Value) -> bool,
    unresolved: (nat, Value) -> bool,
    place: (nat, Value) -> Option<Side>,
    satisfies: (Constraint, Value) -> bool)

  /** One past the greatest rank among the references `s` holds above every
      sequence and set. */
  ghost function Exposed(s: Schema, rank: seq<nat>): nat
    decreases s, 1
  {
    match s
    case Ref(i) => if i < |rank| then rank[i] + 1 else 0
    case Union(ms) => ExposedByAny(ms, rank)
    case Intersection(ms) => ExposedByAny(ms, rank)
    case Complement(t) => Exposed(t, rank)
    case Refine(t, _) => Exposed(t, rank)
    case _ => 0
  }

  ghost function ExposedByAny(ms: seq<Schema>, rank: seq<nat>): (r: nat)
    ensures forall m <- ms :: Exposed(m, rank) <= r
    decreases ms, 0
  {
    if ms == [] then 0 else
    var first, rest := Exposed(ms[0], rank), ExposedByAny(ms[1..], rank);
    if first < rest then rest else first
  }

  /** Every definition is contractive: what it exposes ranks below it. */
  ghost predicate Contractive(m: Interpretation) {
    && |m.rank| == |m.defs|
    && forall i :: 0 <= i < |m.defs| ==> Exposed(m.defs[i], m.rank) <= m.rank[i]
  }

  /** What a query is read against: contractive definitions, and the values the
      indices name. */
  type Meaning = m: Interpretation | Contractive(m)
    ghost witness Interpretation([], [], (_: nat) => {}, (_: nat, _: Value) => false, (_: nat, _: Value) => false,
                                 (_: nat, _: Value) => None, (_: Constraint, _: Value) => false)

  ghost predicate Satisfied(c: Constraint, v: Value, m: Meaning) {
    match c
    case Ge(i) => m.place(i, v).Some? && !m.place(i, v).value.Short?
    case Gt(i) => m.place(i, v) == Some(Past)
    case Le(i) => m.place(i, v).Some? && !m.place(i, v).value.Past?
    case Lt(i) => m.place(i, v) == Some(Short)
    case MinLen(n) => Length(v).Some? && n <= Length(v).value
    case MaxLen(n) => Length(v).Some? && Length(v).value <= n
    case _ => m.satisfies(c, v)
  }

  /** The schema a sequence asks of its element at `k`. */
  function ElementAt(prefix: seq<Schema>, tail: Option<Schema>, k: nat): Schema {
    if k < |prefix| then prefix[k] else if tail.Some? then tail.value else Nothing
  }

  /** Whether `v` is a value of `s`. */
  ghost predicate Member(v: Value, s: Schema, m: Meaning)
    decreases v, Exposed(s, m.rank), s
  {
    match s
    case Anything => true
    case Nothing => false
    case NoneType => v.VNone?
    case Bool => v.VBool?
    case Int => v.VInt? || v.VBool?
    case Float => v.VFloat?
    case Str => v.VStr?
    case Bytes => v.VBytes?
    case Literal(i) => v in m.literal(i)
    case Seq(k, prefix, tail) =>
      && (if k.ListSeq? then v.VList? else v.VTuple?)
      && |prefix| <= |v.items|
      && (tail.None? ==> |v.items| == |prefix|)
      && forall j :: 0 <= j < |v.items| ==> Member(v.items[j], ElementAt(prefix, tail, j), m)
    case Coll(k, element) =>
      && (if k.SetColl? then v.VSet? else v.VFrozenSet?)
      && forall e <- v.elements :: Member(e, element, m)
    case Union(ms) => exists t <- ms :: Member(v, t, m)
    case Intersection(ms) => forall t <- ms :: Member(v, t, m)
    case Complement(t) => !Member(v, t, m)
    case Instance(i) => m.instance(i, v)
    case Refine(base, cs) => Member(v, base, m) && forall c <- cs :: Satisfied(c, v, m)
    case Ref(i) => if i < |m.defs| then Member(v, m.defs[i], m) else m.unresolved(i, v)
  }

  ghost predicate HasValue(s: Schema, m: Meaning)
  {
    exists v :: Member(v, s, m)
  }

  ghost predicate Included(a: Schema, b: Schema, m: Meaning)
  {
    forall v :: Member(v, a, m) ==> Member(v, b, m)
  }

  /** A value of `a` outside `b`. */
  ghost predicate Spills(a: Schema, b: Schema, m: Meaning)
  {
    exists v :: Member(v, a, m) && !Member(v, b, m)
  }

  ghost predicate InAny(v: Value, ms: seq<Schema>, m: Meaning)
  {
    exists t <- ms :: Member(v, t, m)
  }

  ghost predicate InAll(v: Value, ms: seq<Schema>, m: Meaning)
  {
    forall t <- ms :: Member(v, t, m)
  }

  /** What membership in a Boolean node says, one node deep. */
  lemma InConnectives(v: Value, ms: seq<Schema>, t: Schema, m: Meaning)
    ensures Member(v, Union(ms), m) <==> InAny(v, ms, m)
    ensures Member(v, Intersection(ms), m) <==> InAll(v, ms, m)
    ensures Member(v, Complement(t), m) <==> !Member(v, t, m)
  {
    hide Exposed;
    hide Satisfied;
    InAUnion(v, ms, m);
    InAMeet(v, ms, m);
  }

  lemma AtEveryNode(v: Value, m: Meaning)
    ensures Member(v, Anything, m) && !Member(v, Nothing, m)
    ensures forall ms :: Member(v, Union(ms), m) <==> InAny(v, ms, m)
    ensures forall ms :: Member(v, Intersection(ms), m) <==> InAll(v, ms, m)
    ensures forall t :: Member(v, Complement(t), m) <==> !Member(v, t, m)
  {
    hide Exposed;
    hide Satisfied;
    forall ms ensures Member(v, Union(ms), m) <==> InAny(v, ms, m) { InAUnion(v, ms, m); }
    forall ms ensures Member(v, Intersection(ms), m) <==> InAll(v, ms, m) { InAMeet(v, ms, m); }
  }

  lemma InAUnion(v: Value, ms: seq<Schema>, m: Meaning)
    ensures Member(v, Union(ms), m) <==> InAny(v, ms, m)
  {
    hide Exposed;
    hide Satisfied;
  }

  lemma InAMeet(v: Value, ms: seq<Schema>, m: Meaning)
    ensures Member(v, Intersection(ms), m) <==> InAll(v, ms, m)
  {
    hide Exposed;
    hide Satisfied;
  }

  lemma InConcatenation(v: Value, a: seq<Schema>, b: seq<Schema>, m: Meaning)
    ensures InAny(v, a + b, m) <==> InAny(v, a, m) || InAny(v, b, m)
    ensures InAll(v, a + b, m) <==> InAll(v, a, m) && InAll(v, b, m)
  {
    hide Member;
    assert forall t :: t in a + b <==> t in a || t in b;
  }

  lemma InSplit(v: Value, ms: seq<Schema>, m: Meaning)
    requires ms != []
    ensures InAny(v, ms, m) <==> Member(v, ms[0], m) || InAny(v, ms[1..], m)
    ensures InAll(v, ms, m) <==> Member(v, ms[0], m) && InAll(v, ms[1..], m)
  {
    hide Member;
    assert ms == [ms[0]] + ms[1..];
    InConcatenation(v, [ms[0]], ms[1..], m);
    assert ms[0] in [ms[0]];
  }

  // ---- The constructors denote the set operations.

  lemma {:induction false} JoinedDenotes(ms: seq<Schema>, v: Value, m: Meaning)
    ensures Joined(ms).None? ==> InAny(v, ms, m)
    ensures Joined(ms).Some? ==> (InAny(v, Joined(ms).value, m) <==> InAny(v, ms, m))
  {
    hide Member;
    hide Exposed;
    AtEveryNode(v, m);
    if ms != [] {
      InSplit(v, ms, m);
      JoinedDenotes(ms[1..], v, m);
      if Joined(ms).Some? {
        var rest := Joined(ms[1..]).value;
        if ms[0].Union? {
          InConcatenation(v, ms[0].members, rest, m);
        } else {
          InConcatenation(v, [ms[0]], rest, m);
          assert ms[0] in [ms[0]];
        }
      }
    }
  }

  lemma {:induction false} MetDenotes(ms: seq<Schema>, v: Value, m: Meaning)
    ensures Met(ms).None? ==> !InAll(v, ms, m)
    ensures Met(ms).Some? ==> (InAll(v, Met(ms).value, m) <==> InAll(v, ms, m))
  {
    hide Member;
    hide Exposed;
    AtEveryNode(v, m);
    if ms != [] {
      InSplit(v, ms, m);
      MetDenotes(ms[1..], v, m);
      if Met(ms).Some? {
        var rest := Met(ms[1..]).value;
        if ms[0].Intersection? {
          InConcatenation(v, ms[0].members, rest, m);
        } else {
          InConcatenation(v, [ms[0]], rest, m);
          assert ms[0] in [ms[0]];
        }
      }
    }
  }

  /** The join denotes the union of its members' sets, whichever laws it folds. */
  lemma UnionDenotes(ms: seq<Schema>, gate: Gate, within: bool, v: Value, m: Meaning)
    ensures Member(v, UnionWithin(ms, gate, within), m) <==> InAny(v, ms, m)
  {
    hide Member;
    hide Exposed;
    hide HasComplementaryPair;
    hide Joined;
    JoinedDenotes(ms, v, m);
    AtEveryNode(v, m);
    if Joined(ms).Some? {
      var members := CanonicalMembers(Joined(ms).value);
      SameMembers(members, Joined(ms).value, v, m);
      if HasComplementaryPair(members, Join, gate, Asked(false, within)) {
        ComplementaryPairIsEverything(members, gate, Asked(false, within), v, m);
      } else if |members| == 1 {
        InSplit(v, members, m);
      }
    }
  }

  lemma MeetDenotes(ms: seq<Schema>, gate: Gate, within: bool, v: Value, m: Meaning)
    ensures Member(v, MeetWithin(ms, gate, within), m) <==> InAll(v, ms, m)
  {
    hide Member;
    hide Exposed;
    hide HasComplementaryPair;
    hide Met;
    MetDenotes(ms, v, m);
    AtEveryNode(v, m);
    if Met(ms).Some? {
      var members := CanonicalMembers(Met(ms).value);
      SameMembers(members, Met(ms).value, v, m);
      if HasComplementaryPair(members, Meet, gate, Asked(false, within)) {
        ComplementaryPairIsEmpty(members, gate, Asked(false, within), v, m);
      } else if |members| == 1 {
        InSplit(v, members, m);
      }
    }
  }

  lemma SameMembers(a: seq<Schema>, b: seq<Schema>, v: Value, m: Meaning)
    requires (forall t :: t in a <==> t in b)
    ensures InAny(v, a, m) <==> InAny(v, b, m)
    ensures InAll(v, a, m) <==> InAll(v, b, m)
  {
    hide Member;
    hide Exposed;
  }

  /** A set beside its complement joins to everything, and meets in nothing. */
  lemma ComplementaryPairIsEverything(members: seq<Schema>, gate: Gate, asked: Asked, v: Value, m: Meaning)
    requires HasComplementaryPair(members, Join, gate, asked)
    ensures InAny(v, members, m)
  {
    hide Member;
    hide Exposed;
    AtEveryNode(v, m);
    var c :| c in members && c.Complement? && Paired(c.inner, members, Join);
    if Member(v, c.inner, m) && c.inner !in members {
      var part :| part in c.inner.members && Member(v, part, m);
      assert part in members;
    }
  }

  lemma ComplementaryPairIsEmpty(members: seq<Schema>, gate: Gate, asked: Asked, v: Value, m: Meaning)
    requires HasComplementaryPair(members, Meet, gate, asked)
    ensures !InAll(v, members, m)
  {
    hide Member;
    hide Exposed;
    AtEveryNode(v, m);
    var c :| c in members && c.Complement? && Paired(c.inner, members, Meet);
    if !Member(v, c.inner, m) && c.inner !in members {
      var part :| part in c.inner.members && !Member(v, part, m);
      assert part in members;
    }
  }

  lemma ComplementedDenotes(s: Schema, v: Value, m: Meaning)
    ensures Member(v, Complemented(s), m) <==> !Member(v, s, m)
  {
    hide Member;
    hide Exposed;
    AtEveryNode(v, m);
  }

  lemma {:induction false} ConjunctsDenote(s: Schema, v: Value, m: Meaning)
    ensures Member(v, s, m) <==> InAll(v, Conjuncts(s), m)
    decreases s, 1
  {
    hide Member;
    hide Exposed;
    AtEveryNode(v, m);
    if s.Intersection? {
      ConjunctsOfAllDenote(s.members, v, m);
    } else {
      assert s in [s];
    }
  }

  lemma {:induction false} ConjunctsOfAllDenote(ms: seq<Schema>, v: Value, m: Meaning)
    ensures InAll(v, ms, m) <==> InAll(v, ConjunctsOfAll(ms), m)
    decreases ms, 0
  {
    hide Member;
    hide Exposed;
    if ms != [] {
      InSplit(v, ms, m);
      ConjunctsDenote(ms[0], v, m);
      ConjunctsOfAllDenote(ms[1..], v, m);
      InConcatenation(v, Conjuncts(ms[0]), ConjunctsOfAll(ms[1..]), m);
    }
  }

  // ---- And expose no more than their members do.

  lemma {:induction false} ExposedBelow(ms: seq<Schema>, rank: seq<nat>, bound: nat)
    requires ExposeAtMost(ms, rank, bound)
    ensures ExposedByAny(ms, rank) <= bound
  {
    if ms != [] { ExposedBelow(ms[1..], rank, bound); }
  }

  ghost predicate ExposeAtMost(ms: seq<Schema>, rank: seq<nat>, bound: nat) {
    forall t <- ms :: Exposed(t, rank) <= bound
  }

  lemma {:induction false} JoinedExposes(ms: seq<Schema>, rank: seq<nat>, bound: nat)
    requires ExposeAtMost(ms, rank, bound)
    ensures Joined(ms).Some? ==> ExposeAtMost(Joined(ms).value, rank, bound)
  {
    if ms != [] {
      assert ExposeAtMost(ms[1..], rank, bound);
      JoinedExposes(ms[1..], rank, bound);
      assert ms[0] in ms;
      if ms[0].Union? { assert ExposeAtMost(ms[0].members, rank, bound); }
    }
  }

  lemma {:induction false} MetExposes(ms: seq<Schema>, rank: seq<nat>, bound: nat)
    requires ExposeAtMost(ms, rank, bound)
    ensures Met(ms).Some? ==> ExposeAtMost(Met(ms).value, rank, bound)
  {
    if ms != [] {
      assert ExposeAtMost(ms[1..], rank, bound);
      MetExposes(ms[1..], rank, bound);
      assert ms[0] in ms;
      if ms[0].Intersection? { assert ExposeAtMost(ms[0].members, rank, bound); }
    }
  }

  lemma UnionExposes(ms: seq<Schema>, gate: Gate, within: bool, rank: seq<nat>, bound: nat)
    requires ExposeAtMost(ms, rank, bound)
    ensures Exposed(UnionWithin(ms, gate, within), rank) <= bound
  {
    JoinedExposes(ms, rank, bound);
    if Joined(ms).Some? { ExposedBelow(CanonicalMembers(Joined(ms).value), rank, bound); }
  }

  lemma MeetExposes(ms: seq<Schema>, gate: Gate, within: bool, rank: seq<nat>, bound: nat)
    requires ExposeAtMost(ms, rank, bound)
    ensures Exposed(MeetWithin(ms, gate, within), rank) <= bound
  {
    MetExposes(ms, rank, bound);
    if Met(ms).Some? { ExposedBelow(CanonicalMembers(Met(ms).value), rank, bound); }
  }

  lemma {:induction false} ConjunctsExpose(s: Schema, rank: seq<nat>)
    ensures forall t <- Conjuncts(s) :: Exposed(t, rank) <= Exposed(s, rank)
    decreases s, 1
  {
    if s.Intersection? { ConjunctsOfAllExpose(s.members, rank); }
  }

  lemma {:induction false} ConjunctsOfAllExpose(ms: seq<Schema>, rank: seq<nat>)
    ensures forall t <- ConjunctsOfAll(ms) :: Exposed(t, rank) <= ExposedByAny(ms, rank)
    decreases ms, 0
  {
    if ms != [] {
      ConjunctsExpose(ms[0], rank);
      ConjunctsOfAllExpose(ms[1..], rank);
    }
  }
}
