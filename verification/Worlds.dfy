/** A small world drawn from bytes, and the oracle that answers about it: three
    tables -- operands, constants, classes -- each answer read off one of them. */
module Worlds {
  import opened Verdicts
  import opened Kinds
  import opened Schemas
  import opened Values
  import opened Oracles

  /** A bound: an integer, or a float that is a sum of halves. */
  datatype Number = IntNumber(n: int) | FloatNumber(x: real)

  function RealOf(number: Number): real {
    match number
    case IntNumber(n) => n as real
    case FloatNumber(x) => x
  }

  datatype Constant =
    | NoneConstant | BoolConstant(b: bool) | IntConstant(n: int) | FloatConstant(x: real)
    | StrConstant(text: string) | BytesConstant(octets: seq<bv8>)

  function ConstantKind(c: Constant): Kind {
    match c
    case NoneConstant => Kind.NoneType
    case BoolConstant(_) => Kind.Bool
    case IntConstant(_) => Kind.Int
    case FloatConstant(_) => Kind.Float
    case StrConstant(_) => Kind.Str
    case BytesConstant(_) => Kind.Bytes
  }

  /** A scalar atom has the constant; `int` has the booleans too. */
  predicate InKind(c: Constant, kind: Kind) {
    ConstantKind(c) == kind || (kind.Int? && ConstantKind(c).Bool?)
  }

  function ValueOf(c: Constant): Value {
    match c
    case NoneConstant => VNone
    case BoolConstant(b) => VBool(b)
    case IntConstant(n) => VInt(n)
    case FloatConstant(x) => VFloat(x)
    case StrConstant(t) => VStr(t)
    case BytesConstant(t) => VBytes(t)
  }

  /** What is drawn of a class: its parent, its builtin layout, and whether its
      `isinstance` runs a hook. */
  datatype ClassFacts = ClassFacts(parent: Option<nat>, builtin: Option<Kind>, hooked: bool)

  const PLAIN: ClassFacts := ClassFacts(None, None, false)

  const LAYOUTS: seq<Kind> := [Kind.Int, Kind.Str, Kind.Bytes, Kind.Float, Kind.Tuple, Kind.FrozenSet, Kind.List, Kind.Set, Kind.Dict]

  datatype World = World(operands: seq<Number>, constants: seq<Constant>, classes: seq<ClassFacts>)

  // ---- Drawing the class table.

  /** The class two bytes draw after the classes before it. */
  function Drawn(before: seq<ClassFacts>, shape: bv8, body: bv8): ClassFacts
  {
    var parent := if before != [] && shape & 1 == 1 then Some((shape >> 1) as nat % |before|) else None;
    var inherited := if parent.Some? then before[parent.value] else PLAIN;
    var builtin := if inherited.builtin.Some? then inherited.builtin
                   else if shape & 0x18 == 0x08 then Some(LAYOUTS[(body >> 4) as nat % |LAYOUTS|])
                   else None;
    ClassFacts(parent, builtin, inherited.hooked || shape & 0xe0 == 0xe0)
  }

  /** A class derives from one before it, and keeps its layout and its hook. */
  ghost predicate Inherits(classes: seq<ClassFacts>) {
    forall at :: 0 <= at < |classes| && classes[at].parent.Some? ==>
      var parent := classes[at].parent.value;
      && parent < at
      && (classes[parent].builtin.Some? ==> classes[at].builtin == classes[parent].builtin)
      && (classes[parent].hooked ==> classes[at].hooked)
  }

  /** The table filled in place, a class at a time. */
  method DrawClasses(bytes: seq<(bv8, bv8)>) returns (classes: array<ClassFacts>)
    ensures fresh(classes) && classes.Length == |bytes|
    ensures forall at :: 0 <= at < |bytes| ==> classes[at] == Drawn(classes[..at], bytes[at].0, bytes[at].1)
    ensures Inherits(classes[..])
  {
    classes := new ClassFacts[|bytes|](_ => PLAIN);
    for at := 0 to |bytes|
      invariant forall k :: 0 <= k < at ==> classes[k] == Drawn(classes[..k], bytes[k].0, bytes[k].1)
      invariant Inherits(classes[..at])
    {
      var (shape, body) := bytes[at];
      var parent := if at > 0 && shape & 1 == 1 then Some((shape >> 1) as nat % at) else None;
      var inherited := if parent.Some? then classes[parent.value] else PLAIN;
      var builtin := inherited.builtin;
      if builtin.None? && shape & 0x18 == 0x08 {
        builtin := Some(LAYOUTS[(body >> 4) as nat % |LAYOUTS|]);
      }
      ghost var before := classes[..at];
      classes[at] := ClassFacts(parent, builtin, inherited.hooked || shape & 0xe0 == 0xe0);
      assert classes[..at] == before && classes[at] == Drawn(before, shape, body);
      assert classes[..at + 1] == before + [classes[at]];
      forall k | 0 <= k < at ensures classes[k] == Drawn(classes[..k], bytes[k].0, bytes[k].1) {
        assert classes[..k] == before[..k];
      }
    }
    assert classes[..] == classes[..|bytes|];
  }

  // ---- The lineage.

  /** The chain of ancestors from the class itself upwards. */
  function Lineage(classes: seq<ClassFacts>, at: nat): (chain: seq<nat>)
    requires Inherits(classes) && at < |classes|
    ensures chain != [] && chain[0] == at
    ensures forall k <- chain :: k <= at && k < |classes|
    decreases at
  {
    if classes[at].parent.None? then [at] else [at] + Lineage(classes, classes[at].parent.value)
  }

  /** The chain grown a parent at a time. */
  method LineageOf(classes: seq<ClassFacts>, at: nat) returns (chain: seq<nat>)
    requires Inherits(classes) && at < |classes|
    ensures chain == Lineage(classes, at)
  {
    chain := [at];
    var last := at;
    while classes[last].parent.Some?
      invariant last < |classes| && chain != [] && chain[|chain| - 1] == last
      invariant chain[..|chain| - 1] + Lineage(classes, last) == Lineage(classes, at)
      decreases last
    {
      var parent := classes[last].parent.value;
      assert chain == chain[..|chain| - 1] + [last];
      chain := chain + [parent];
      last := parent;
    }
    assert chain == chain[..|chain| - 1] + [last];
  }

  predicate DerivesFrom(classes: seq<ClassFacts>, sub: nat, above: nat)
    requires Inherits(classes)
  {
    sub < |classes| && above in Lineage(classes, sub)
  }

  /** Derivation is a partial order, and a class keeps what it derives from. */
  lemma {:induction false} DerivationIsAnOrder(classes: seq<ClassFacts>, a: nat, b: nat, c: nat)
    requires Inherits(classes) && a < |classes|
    ensures DerivesFrom(classes, a, a)
    ensures DerivesFrom(classes, a, b) && DerivesFrom(classes, b, c) ==> DerivesFrom(classes, a, c)
    ensures DerivesFrom(classes, a, b) && DerivesFrom(classes, b, a) ==> a == b
    ensures DerivesFrom(classes, a, b) && classes[b].hooked ==> classes[a].hooked
    ensures DerivesFrom(classes, a, b) && classes[b].builtin.Some? ==> classes[a].builtin == classes[b].builtin
    decreases a
  {
    if classes[a].parent.Some? {
      DerivationIsAnOrder(classes, classes[a].parent.value, b, c);
    }
  }

  // ---- The answers.

  function ConstantAt(w: World, c: nat): Option<Constant> { if c < |w.constants| then Some(w.constants[c]) else None }

  function NumberAt(w: World, i: nat): Option<Number> { if i < |w.operands| then Some(w.operands[i]) else None }

  /** A class the decision may reason about: one whose `isinstance` runs no code. */
  predicate Pure(w: World, k: nat) { k < |w.classes| && !w.classes[k].hooked }

  function LeafSubtype(w: World, sub: Schema, sup: Schema): Option<bool>
    requires Inherits(w.classes)
  {
    match sub
    case Literal(c) =>
      if ConstantAt(w, c).None? then None else
      var constant := ConstantAt(w, c).value;
      (match sup
       case Anything => Some(true)
       case Nothing => Some(false)
       case NoneType => Some(InKind(constant, Kind.NoneType))
       case Bool => Some(InKind(constant, Kind.Bool))
       case Int => Some(InKind(constant, Kind.Int))
       case Float => Some(InKind(constant, Kind.Float))
       case Str => Some(InKind(constant, Kind.Str))
       case Bytes => Some(InKind(constant, Kind.Bytes))
       case Literal(d) => if ConstantAt(w, d).None? then None else Some(ConstantAt(w, d).value == constant)
       case Instance(k) => if Pure(w, k) then Some(false) else None
       case _ => None)
    case Instance(a) =>
      if sup.Instance? && Pure(w, a) && Pure(w, sup.class_) then Some(DerivesFrom(w.classes, a, sup.class_)) else None
    case _ => None
  }

  function Compared(a: real, b: real): Ordering { if a < b then Less else if a == b then Equal else Greater }

  function Compare(w: World, left: nat, right: nat): Option<Ordering> {
    if NumberAt(w, left).None? || NumberAt(w, right).None? then None
    else
      match (NumberAt(w, left).value, NumberAt(w, right).value)
      case (IntNumber(a), IntNumber(b)) => Some(if a < b then Less else if a == b then Equal else Greater)
      case (a, b) => Some(Compared(RealOf(a), RealOf(b)))
  }

  function Ceiling(x: real): int { -((-x).Floor) }

  function NoIntBetween(w: World, lo: nat, loStrict: bool, hi: nat, hiStrict: bool): Option<bool> {
    if NumberAt(w, lo).None? || NumberAt(w, hi).None? then None
    else
      var (low, high) := (RealOf(NumberAt(w, lo).value), RealOf(NumberAt(w, hi).value));
      var least := if loStrict then low.Floor + 1 else Ceiling(low);
      var greatest := if hiStrict then Ceiling(high) - 1 else high.Floor;
      Some(least > greatest)
  }

  function LiteralsDisjoint(w: World, l: nat, r: nat): Option<bool> {
    if ConstantAt(w, l).None? || ConstantAt(w, r).None? then None
    else Some(ConstantAt(w, l).value != ConstantAt(w, r).value)
  }

  /** Whether two tables share no value: declined where a pair of them is. */
  function LiteralSetsDisjoint(w: World, left: seq<nat>, right: seq<nat>): Option<bool> {
    if exists l <- left, r <- right :: LiteralsDisjoint(w, l, r).None? then None
    else Some(forall l <- left, r <- right :: LiteralsDisjoint(w, l, r) == Some(true))
  }

  /** Every pair asked in turn, and what any of them shares kept. */
  method AskedPairwise(w: World, left: seq<nat>, right: seq<nat>) returns (apart: Option<bool>)
    ensures apart == LiteralSetsDisjoint(w, left, right)
  {
    var shared := false;
    for i := 0 to |left|
      invariant forall l <- left[..i], r <- right :: LiteralsDisjoint(w, l, r).Some?
      invariant shared <==> exists l <- left[..i], r <- right :: LiteralsDisjoint(w, l, r) == Some(false)
    {
      for j := 0 to |right|
        invariant forall l <- left[..i], r <- right :: LiteralsDisjoint(w, l, r).Some?
        invariant forall r <- right[..j] :: LiteralsDisjoint(w, left[i], r).Some?
        invariant shared <==>
          || (exists l <- left[..i], r <- right :: LiteralsDisjoint(w, l, r) == Some(false))
          || (exists r <- right[..j] :: LiteralsDisjoint(w, left[i], r) == Some(false))
      {
        var answer := LiteralsDisjoint(w, left[i], right[j]);
        if answer.None? {
          assert left[i] in left && right[j] in right;
          return None;
        }
        assert right[..j + 1] == right[..j] + [right[j]];
        shared := shared || !answer.value;
      }
      assert right[..|right|] == right && left[..i + 1] == left[..i] + [left[i]];
    }
    assert left[..|left|] == left;
    return Some(!shared);
  }

  function OracleOf(w: World): Oracle
    requires Inherits(w.classes)
  {
    Oracle(
      (sub: Schema, sup: Schema) => LeafSubtype(w, sub, sup),
      (l: nat, r: nat) => LiteralsDisjoint(w, l, r),
      (left: seq<nat>, right: seq<nat>) => LiteralSetsDisjoint(w, left, right),
      (c: nat) => if ConstantAt(w, c).Some? then Some(ConstantKind(ConstantAt(w, c).value)) else None,
      (k: nat, kind: Kind) =>
        if Pure(w, k) && w.classes[k].builtin.Some? then Some(w.classes[k].builtin == Some(kind)) else None,
      (kind: Kind, k: nat) => if Pure(w, k) && !kind.NoneType? then Some(false) else None,
      (k: nat) => if k < |w.classes| then Some(!w.classes[k].hooked) else None,
      (l: nat, r: nat) => Compare(w, l, r),
      (lo: nat, ls: bool, hi: nat, hs: bool) => NoIntBetween(w, lo, ls, hi, hs))
  }

  // ---- The world the answers are facts about.

  /** A number a bound orders a value as: booleans are the integers 0 and 1. */
  function Numeric(v: Value): Option<real> {
    match v
    case VBool(b) => Some(if b then 1.0 else 0.0)
    case VInt(i) => Some(i as real)
    case VFloat(r) => Some(r)
    case _ => None
  }

  function Placed(w: World, i: nat, v: Value): Option<Side> {
    if NumberAt(w, i).None? || Numeric(v).None? then None
    else
      match Compared(Numeric(v).value, RealOf(NumberAt(w, i).value))
      case Less => Some(Short)
      case Equal => Some(Level)
      case Greater => Some(Past)
  }

  /** An object is a direct instance of the class its identity numbers; a hooked
      class holds whatever its metaclass answers. */
  predicate IsInstance(w: World, hook: (nat, Value) -> bool, k: nat, v: Value)
    requires Inherits(w.classes)
  {
    if Pure(w, k) then v.VObject? && DerivesFrom(w.classes, v.identity, k) else hook(k, v)
  }

  /** `m` reads its indices in the tables of `w`. */
  ghost predicate Describes(w: World, m: Meaning, hook: (nat, Value) -> bool)
    requires Inherits(w.classes)
  {
    && (forall c :: m.literal(c) == if ConstantAt(w, c).Some? then {ValueOf(ConstantAt(w, c).value)} else {})
    && (forall k, v :: m.instance(k, v) == IsInstance(w, hook, k, v))
    && (forall i, v :: m.place(i, v) == Placed(w, i, v))
  }

  lemma ConstantsAreTheirValues(c: Constant, d: Constant)
    ensures ValueOf(c) == ValueOf(d) <==> c == d
    ensures KindOf(ValueOf(c)) == Some(ConstantKind(c))
  {
  }

  lemma ALiteralsAnswersAreFacts(w: World, m: Meaning, hook: (nat, Value) -> bool, c: nat, sup: Schema)
    requires Inherits(w.classes) && Describes(w, m, hook)
    ensures LeafSubtype(w, Literal(c), sup) == Some(true) ==> Included(Literal(c), sup, m)
    ensures LeafSubtype(w, Literal(c), sup) == Some(false) ==> Spills(Literal(c), sup, m)
  {
    hide Exposed;
    if LeafSubtype(w, Literal(c), sup).Some? {
      var v := ValueOf(w.constants[c]);
      assert Member(v, Literal(c), m);
      assert forall u :: Member(u, Literal(c), m) <==> u == v;
      if sup.Literal? { ConstantsAreTheirValues(w.constants[c], w.constants[sup.constant]); }
      assert LeafSubtype(w, Literal(c), sup).value <==> Member(v, sup, m);
    }
  }

  lemma AClassesAnswersAreFacts(w: World, m: Meaning, hook: (nat, Value) -> bool, a: nat, b: nat)
    requires Inherits(w.classes) && Describes(w, m, hook) && Pure(w, a) && Pure(w, b)
    ensures DerivesFrom(w.classes, a, b) <==> Included(Instance(a), Instance(b), m)
    ensures !DerivesFrom(w.classes, a, b) ==> Spills(Instance(a), Instance(b), m)
  {
    hide Exposed;
    DerivationIsAnOrder(w.classes, a, a, a);
    assert Member(VObject(a), Instance(a), m);
    assert Member(VObject(a), Instance(b), m) <==> DerivesFrom(w.classes, a, b);
    if DerivesFrom(w.classes, a, b) {
      forall v | Member(v, Instance(a), m) ensures Member(v, Instance(b), m) {
        DerivationIsAnOrder(w.classes, v.identity, a, b);
      }
    }
  }

  /** The order between operands is the order their bounds cut the values in, and
      the integer gap is exact. */
  lemma TheOrderIsTheNumbers(w: World, m: Meaning, hook: (nat, Value) -> bool)
    requires Inherits(w.classes) && Describes(w, m, hook)
    ensures Ordered(OracleOf(w), m)
  {
    hide Describes, Inherits, AtLeast, AtMost, Compare, NoIntBetween;
    TheComparisonIsTheNumbers(w, m, hook);
    forall i: nat, s, j: nat, t, v | NoIntBetween(w, i, s, j, t) == Some(true) && OfKind(v, Kind.Int)
      ensures !(AtLeast(i, s, v, m) && AtMost(j, t, v, m))
    {
      NoIntegersValueIsBetween(w, i, s, j, t, v, m, hook);
    }
  }

  lemma TheComparisonIsTheNumbers(w: World, m: Meaning, hook: (nat, Value) -> bool)
    requires Inherits(w.classes) && Describes(w, m, hook)
    ensures forall i, j, v :: Compare(w, i, j) == Some(Equal) ==> m.place(i, v) == m.place(j, v)
    ensures forall i, j, v :: Compare(w, i, j) == Some(Greater) && AtLeast(i, false, v, m) ==> AtLeast(j, true, v, m)
    ensures forall i, j, v :: Compare(w, i, j) == Some(Greater) && AtMost(j, false, v, m) ==> AtMost(i, true, v, m)
    ensures forall i, j, v :: Compare(w, i, j) == Some(Less) && AtLeast(j, false, v, m) ==> AtLeast(i, true, v, m)
    ensures forall i, j, v :: Compare(w, i, j) == Some(Less) && AtMost(i, false, v, m) ==> AtMost(j, true, v, m)
  {
    hide Member, DerivesFrom;
  }

  lemma NoIntegersValueIsBetween(w: World, i: nat, s: bool, j: nat, t: bool, v: Value, m: Meaning, hook: (nat, Value) -> bool)
    requires Inherits(w.classes) && Describes(w, m, hook) && OfKind(v, Kind.Int)
    requires NoIntBetween(w, i, s, j, t) == Some(true)
    ensures !(AtLeast(i, s, v, m) && AtMost(j, t, v, m))
  {
    hide Member, DerivesFrom;
    NoIntegerIsBetween(w, i, s, j, t);
    var n := if v.VInt? then v.i else if v.b then 1 else 0;
    assert !Between(RealOf(w.operands[i]), s, n, RealOf(w.operands[j]), t);
    assert Numeric(v) == Some(n as real);
  }

  /** The integers past an end, and short of one, by its floor and its ceiling. */
  lemma IntegersPast(x: real, n: int)
    ensures x < n as real <==> x.Floor + 1 <= n
    ensures x <= n as real <==> Ceiling(x) <= n
    ensures (n as real) < x <==> n <= Ceiling(x) - 1
    ensures n as real <= x <==> n <= x.Floor
  {
  }

  ghost predicate Between(low: real, s: bool, n: int, high: real, t: bool) {
    && (if s then low < n as real else low <= n as real)
    && (if t then (n as real) < high else n as real <= high)
  }

  /** The least and the greatest integer an interval admits cross exactly where it
      holds no integer. */
  lemma NoIntegerIsBetween(w: World, lo: nat, s: bool, hi: nat, t: bool)
    requires NoIntBetween(w, lo, s, hi, t).Some?
    ensures NoIntBetween(w, lo, s, hi, t).value <==>
      !exists n :: Between(RealOf(w.operands[lo]), s, n, RealOf(w.operands[hi]), t)
  {
    var low, high := RealOf(w.operands[lo]), RealOf(w.operands[hi]);
    var least := if s then low.Floor + 1 else Ceiling(low);
    forall n ensures Between(low, s, n, high, t) <==> least <= n <= (if t then Ceiling(high) - 1 else high.Floor) {
      IntegersPast(low, n);
      IntegersPast(high, n);
    }
    if !NoIntBetween(w, lo, s, hi, t).value { assert Between(low, s, least, high, t); }
  }

  /** Every answer the world gives is a fact about it. */
  lemma TheWorldIsTruthful(w: World, m: Meaning, hook: (nat, Value) -> bool)
    requires Inherits(w.classes) && Describes(w, m, hook)
    ensures Truthful(OracleOf(w), m)
  {
    hide Exposed;
    hide Member;
    hide Ordered;
    var o := OracleOf(w);
    TheOrderIsTheNumbers(w, m, hook);
    forall a, b
      ensures o.leafSubtype(a, b) == Some(true) ==> Included(a, b, m)
      ensures o.leafSubtype(a, b) == Some(false) ==> Spills(a, b, m)
    {
      if a.Literal? { ALiteralsAnswersAreFacts(w, m, hook, a.constant, b); }
      if a.Instance? && b.Instance? && Pure(w, a.class_) && Pure(w, b.class_) { AClassesAnswersAreFacts(w, m, hook, a.class_, b.class_); }
    }
    TheLiteralsAreFacts(w, m, hook);
    forall k | o.classIsASet(k) == Some(true) ensures exists v :: m.instance(k, v) {
      DerivationIsAnOrder(w.classes, k, k, k);
      assert m.instance(k, VObject(k));
    }
  }

  lemma TheLiteralsAreFacts(w: World, m: Meaning, hook: (nat, Value) -> bool)
    requires Inherits(w.classes) && Describes(w, m, hook)
    ensures forall l, r :: LiteralsDisjoint(w, l, r).Some? ==> (LiteralsDisjoint(w, l, r).value <==> m.literal(l) !! m.literal(r))
    ensures forall left, right :: LiteralSetsDisjoint(w, left, right) == Some(true) ==>
              forall v :: !(ListedIn(v, left, m) && ListedIn(v, right, m))
    ensures forall left, right :: LiteralSetsDisjoint(w, left, right) == Some(false) ==>
              exists v :: ListedIn(v, left, m) && ListedIn(v, right, m)
  {
    forall l: nat, r: nat | LiteralsDisjoint(w, l, r).Some? ensures LiteralsDisjoint(w, l, r).value <==> m.literal(l) !! m.literal(r) {
      ConstantsAreTheirValues(w.constants[l], w.constants[r]);
      assert ValueOf(w.constants[l]) in m.literal(l);
    }
    forall left, right | LiteralSetsDisjoint(w, left, right) == Some(false)
      ensures exists v :: ListedIn(v, left, m) && ListedIn(v, right, m)
    {
      var l, r :| l in left && r in right && LiteralsDisjoint(w, l, r) != Some(true);
      assert LiteralsDisjoint(w, l, r).Some?;
      var v := ValueOf(w.constants[l]);
      assert ListedIn(v, left, m) && ListedIn(v, right, m);
    }
  }
}
