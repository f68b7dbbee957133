/** The schema terms, and the structural order their member sets are kept in. */
module Schemas {
  import opened Verdicts

  datatype SeqKind = ListSeq | TupleSeq
  datatype CollKind = SetColl | FrozenSetColl

  /** The atoms of a refinement. Operands and predicates are pool slots. */
  datatype Constraint =
    | Ge(operand: nat) | Gt(operand: nat) | Le(operand: nat) | Lt(operand: nat)
    | MinLen(length: nat) | MaxLen(length: nat)
    | MultipleOf(operand: nat) | Predicate(callable: nat) | Regex(pattern: string)

  datatype Schema =
    | Anything | Nothing | NoneType | Bool | Int | Float | Str | Bytes
    | Literal(constant: nat)
    | Seq(container: SeqKind, prefix: seq<Schema>, tail: Option<Schema>)
    | Coll(kind: CollKind, element: Schema)
    | Union(members: seq<Schema>)
    | Intersection(members: seq<Schema>)
    | Complement(inner: Schema)
    | Instance(class_: nat)
    | Refine(base: Schema, constraints: seq<Constraint>)
    | Ref(definition: nat)

  /** The nodes of a term, a sequence counted twice. */
  function Size(s: Schema): (r: nat)
    ensures r > 0
    decreases s, 1
  {
    match s
    case Seq(_, prefix, tail) => 2 + SizeOfAll(prefix) + (if tail.Some? then Size(tail.value) else 0)
    case Coll(_, element) => 1 + Size(element)
    case Union(ms) => 1 + SizeOfAll(ms)
    case Intersection(ms) => 1 + SizeOfAll(ms)
    case Complement(t) => 1 + Size(t)
    case Refine(t, _) => 1 + Size(t)
    case _ => 1
  }

  function SizeOfAll(ms: seq<Schema>): (r: nat)
    ensures forall t <- ms :: Size(t) <= r
    decreases ms, 0
  {
    if ms == [] then 0 else Size(ms[0]) + SizeOfAll(ms[1..])
  }

  lemma {:induction false} SizesAdd(a: seq<Schema>, b: seq<Schema>)
    ensures SizeOfAll(a + b) == SizeOfAll(a) + SizeOfAll(b)
  {
    if a == [] {
      assert a + b == b;
    } else {
      assert (a + b)[1..] == a[1..] + b;
      SizesAdd(a[1..], b);
    }
  }

  // ---- The derived order: the variant first, then the fields in order, a list
  // ---- before every longer list it begins.

  function Tag(s: Schema): nat {
    match s
    case Anything => 0 case Nothing => 1 case NoneType => 2 case Bool => 3 case Int => 4
    case Float => 5 case Str => 6 case Bytes => 7 case Literal(_) => 8 case Seq(_, _, _) => 9
    case Coll(_, _) => 10 case Union(_) => 12 case Intersection(_) => 13 case Complement(_) => 14
    case Instance(_) => 15 case Refine(_, _) => 17 case Ref(_) => 18
  }

  function ConstraintTag(c: Constraint): nat {
    match c
    case Ge(_) => 0 case Gt(_) => 1 case Le(_) => 2 case Lt(_) => 3 case MinLen(_) => 4
    case MaxLen(_) => 5 case MultipleOf(_) => 6 case Predicate(_) => 7 case Regex(_) => 8
  }

  predicate TextPrecedes(a: string, b: string) {
    b != [] && (a == [] || a[0] < b[0] || (a[0] == b[0] && TextPrecedes(a[1..], b[1..])))
  }

  /** The number a constraint is written for; a pattern carries its text instead. */
  function Carried(c: Constraint): nat {
    if c.MinLen? || c.MaxLen? then c.length
    else if c.Predicate? then c.callable
    else if c.Regex? then 0
    else c.operand
  }

  predicate ConstraintPrecedes(a: Constraint, b: Constraint) {
    || ConstraintTag(a) < ConstraintTag(b)
    || (ConstraintTag(a) == ConstraintTag(b)
        && if a.Regex? && b.Regex? then TextPrecedes(a.pattern, b.pattern) else Carried(a) < Carried(b))
  }

  predicate ConstraintsPrecede(a: seq<Constraint>, b: seq<Constraint>) {
    b != [] && (a == [] || ConstraintPrecedes(a[0], b[0]) || (a[0] == b[0] && ConstraintsPrecede(a[1..], b[1..])))
  }

  predicate Precedes(a: Schema, b: Schema)
    decreases a, 1
  {
    if Tag(a) != Tag(b) then Tag(a) < Tag(b)
    else if a.Literal? && b.Literal? then a.constant < b.constant
    else if a.Seq? && b.Seq? then
      (a.container.ListSeq? && b.container.TupleSeq?) ||
      (a.container == b.container
       && (AllPrecede(a.prefix, b.prefix)
           || (a.prefix == b.prefix && b.tail.Some? && (a.tail.None? || Precedes(a.tail.value, b.tail.value)))))
    else if a.Coll? && b.Coll? then
      (a.kind.SetColl? && b.kind.FrozenSetColl?) || (a.kind == b.kind && Precedes(a.element, b.element))
    else if (a.Union? && b.Union?) || (a.Intersection? && b.Intersection?) then AllPrecede(a.members, b.members)
    else if a.Complement? && b.Complement? then Precedes(a.inner, b.inner)
    else if a.Instance? && b.Instance? then a.class_ < b.class_
    else if a.Refine? && b.Refine? then
      Precedes(a.base, b.base) || (a.base == b.base && ConstraintsPrecede(a.constraints, b.constraints))
    else if a.Ref? && b.Ref? then a.definition < b.definition
    else false
  }

  predicate AllPrecede(a: seq<Schema>, b: seq<Schema>)
    decreases a, 0
  {
    b != [] && (a == [] || Precedes(a[0], b[0]) || (a[0] == b[0] && AllPrecede(a[1..], b[1..])))
  }

  lemma {:induction false} TextOrder(a: string, b: string, c: string)
    ensures TextPrecedes(a, b) && TextPrecedes(b, c) ==> TextPrecedes(a, c)
    ensures TextPrecedes(a, b) || TextPrecedes(b, a) || a == b
    ensures !TextPrecedes(a, a)
  {
    if a != [] {
      if b != [] {
        TextOrder(a[1..], b[1..], if c == [] then [] else c[1..]);
        assert a == [a[0]] + a[1..] && b == [b[0]] + b[1..];
      } else {
        TextOrder(a[1..], [], []);
      }
    }
  }

  lemma ConstraintOrder(a: Constraint, b: Constraint, c: Constraint)
    ensures ConstraintPrecedes(a, b) && ConstraintPrecedes(b, c) ==> ConstraintPrecedes(a, c)
    ensures ConstraintPrecedes(a, b) || ConstraintPrecedes(b, a) || a == b
    ensures !ConstraintPrecedes(a, a)
  {
    if a.Regex? {
      TextOrder(a.pattern, if b.Regex? then b.pattern else "", if c.Regex? then c.pattern else "");
    }
  }

  lemma {:induction false} ConstraintsOrder(a: seq<Constraint>, b: seq<Constraint>, c: seq<Constraint>)
    ensures ConstraintsPrecede(a, b) && ConstraintsPrecede(b, c) ==> ConstraintsPrecede(a, c)
    ensures ConstraintsPrecede(a, b) || ConstraintsPrecede(b, a) || a == b
    ensures !ConstraintsPrecede(a, a)
  {
    if a != [] {
      ConstraintOrder(a[0], a[0], a[0]);
      if b != [] {
        ConstraintOrder(a[0], b[0], if c == [] then a[0] else c[0]);
        ConstraintsOrder(a[1..], b[1..], if c == [] then [] else c[1..]);
        assert a == [a[0]] + a[1..] && b == [b[0]] + b[1..];
      } else {
        ConstraintsOrder(a[1..], [], []);
      }
    }
  }

  /** `Precedes` is a strict total order on the terms. */
  lemma Order(a: Schema, b: Schema, c: Schema)
    ensures Precedes(a, b) && Precedes(b, c) ==> Precedes(a, c)
    ensures Precedes(a, b) || Precedes(b, a) || a == b
    ensures !Precedes(a, a)
  {
    if Precedes(a, b) && Precedes(b, c) { Transitive(a, b, c); }
    Total(a, b);
    Irreflexive(a);
  }

  lemma {:induction false} Irreflexive(a: Schema)
    ensures !Precedes(a, a)
    decreases a, 1
  {
    match a
    case Seq(_, p, t) =>
      AllIrreflexive(p);
      if t.Some? { Irreflexive(t.value); }
    case Coll(_, t) => Irreflexive(t);
    case Union(p) => AllIrreflexive(p);
    case Intersection(p) => AllIrreflexive(p);
    case Complement(t) => Irreflexive(t);
    case Refine(t, cs) =>
      Irreflexive(t);
      ConstraintsOrder(cs, cs, cs);
    case _ =>
  }

  lemma {:induction false} AllIrreflexive(a: seq<Schema>)
    ensures !AllPrecede(a, a)
    decreases a, 0
  {
    if a != [] {
      Irreflexive(a[0]);
      AllIrreflexive(a[1..]);
    }
  }

  lemma {:induction false} Total(a: Schema, b: Schema)
    ensures Precedes(a, b) || Precedes(b, a) || a == b
    decreases a, 1
  {
    if Tag(a) == Tag(b) {
      match a
      case Seq(_, p, t) =>
        AllTotal(p, b.prefix);
        if t.Some? && b.tail.Some? { Total(t.value, b.tail.value); }
      case Coll(_, t) => Total(t, b.element);
      case Union(p) => AllTotal(p, b.members);
      case Intersection(p) => AllTotal(p, b.members);
      case Complement(t) => Total(t, b.inner);
      case Refine(t, cs) =>
        Total(t, b.base);
        ConstraintsOrder(cs, b.constraints, []);
      case Literal(_) =>
      case Instance(_) =>
      case Ref(_) =>
      case _ => assert a == b;
    }
  }

  lemma {:induction false} AllTotal(a: seq<Schema>, b: seq<Schema>)
    ensures AllPrecede(a, b) || AllPrecede(b, a) || a == b
    decreases a, 0
  {
    if a != [] && b != [] {
      Total(a[0], b[0]);
      AllTotal(a[1..], b[1..]);
      assert a == [a[0]] + a[1..] && b == [b[0]] + b[1..];
    }
  }

  lemma TagsAscend(a: Schema, b: Schema)
    requires Precedes(a, b)
    ensures Tag(a) <= Tag(b)
  {
  }

  lemma {:induction false} Transitive(a: Schema, b: Schema, c: Schema)
    requires Precedes(a, b) && Precedes(b, c)
    ensures Precedes(a, c)
    decreases a, 1
  {
    TagsAscend(a, b);
    TagsAscend(b, c);
    if Tag(a) == Tag(c) {
      match a
      case Seq(_, _, _) => SequencesTransitive(a, b, c);
      case Coll(_, t) => if Precedes(t, b.element) && Precedes(b.element, c.element) { Transitive(t, b.element, c.element); }
      case Union(p) => AllTransitive(p, b.members, c.members);
      case Intersection(p) => AllTransitive(p, b.members, c.members);
      case Complement(t) => Transitive(t, b.inner, c.inner);
      case Refine(t, cs) =>
        if Precedes(t, b.base) && Precedes(b.base, c.base) { Transitive(t, b.base, c.base); }
        ConstraintsOrder(cs, b.constraints, c.constraints);
      case _ =>
    }
  }

  lemma {:induction false} SequencesTransitive(a: Schema, b: Schema, c: Schema)
    requires a.Seq? && b.Seq? && c.Seq? && Precedes(a, b) && Precedes(b, c)
    ensures Precedes(a, c)
    decreases a, 0
  {
    if AllPrecede(a.prefix, b.prefix) && AllPrecede(b.prefix, c.prefix) { AllTransitive(a.prefix, b.prefix, c.prefix); }
    if a.tail.Some? && b.tail.Some? && c.tail.Some? && Precedes(a.tail.value, b.tail.value) && Precedes(b.tail.value, c.tail.value) {
      Transitive(a.tail.value, b.tail.value, c.tail.value);
    }
  }

  lemma {:induction false} AllTransitive(a: seq<Schema>, b: seq<Schema>, c: seq<Schema>)
    requires AllPrecede(a, b) && AllPrecede(b, c)
    ensures AllPrecede(a, c)
    decreases a, 0
  {
    if a != [] {
      if Precedes(a[0], b[0]) && Precedes(b[0], c[0]) { Transitive(a[0], b[0], c[0]); }
      if AllPrecede(a[1..], b[1..]) && AllPrecede(b[1..], c[1..]) { AllTransitive(a[1..], b[1..], c[1..]); }
    }
  }
}
