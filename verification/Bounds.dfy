/** The algebra of a refinement's bounds: which conjunctions hold of nothing, and
    which bound entails another. */
module Bounds {
  import opened Verdicts
  import opened Kinds
  import opened Schemas
  import opened SortedLists
  import opened Values
  import opened Oracles
  import opened KindWalk

  ghost predicate AllSatisfied(cs: seq<Constraint>, v: Value, m: Meaning) {
    forall c <- cs :: Satisfied(c, v, m)
  }

  lemma SatisfiedSplit(cs: seq<Constraint>, v: Value, m: Meaning)
    requires cs != []
    ensures AllSatisfied(cs, v, m) <==> Satisfied(cs[0], v, m) && AllSatisfied(cs[1..], v, m)
  {
    assert cs == [cs[0]] + cs[1..];
    assert forall c :: c in cs <==> c == cs[0] || c in cs[1..];
  }

  // ---- Lengths.

  /** The largest `MinLen`, and zero where none is written. */
  function Shortest(cs: seq<Constraint>): nat {
    if cs == [] then 0
    else
      var rest := Shortest(cs[1..]);
      if cs[0].MinLen? && cs[0].length > rest then cs[0].length else rest
  }

  /** The smallest `MaxLen`, or `None` where none is written. */
  function Longest(cs: seq<Constraint>): Option<nat> {
    if cs == [] then None
    else
      var rest := Longest(cs[1..]);
      if cs[0].MaxLen? && (rest.None? || cs[0].length < rest.value) then Some(cs[0].length) else rest
  }

  lemma {:induction false} LengthsAreBounded(cs: seq<Constraint>, v: Value, m: Meaning)
    requires AllSatisfied(cs, v, m)
    ensures Shortest(cs) > 0 ==> Length(v).Some?
    ensures Length(v).Some? ==> Shortest(cs) <= Length(v).value
    ensures Longest(cs).Some? ==> Length(v).Some? && Length(v).value <= Longest(cs).value
  {
    if cs != [] {
      SatisfiedSplit(cs, v, m);
      LengthsAreBounded(cs[1..], v, m);
    }
  }

  // ---- Order bounds.

  /** One end of an order bound: the operand, and whether the end is strict. */
  datatype Bound = Bound(operand: nat, strict: bool)

  function LowerEnd(c: Constraint): Option<Bound> {
    match c
    case Ge(i) => Some(Bound(i, false))
    case Gt(i) => Some(Bound(i, true))
    case _ => None
  }

  function UpperEnd(c: Constraint): Option<Bound> {
    match c
    case Le(i) => Some(Bound(i, false))
    case Lt(i) => Some(Bound(i, true))
    case _ => None
  }

  function Tighter(current: Option<Bound>, candidate: Bound, lower: bool, o: Oracle): Bound {
    if current.None? then candidate
    else
      match o.compare(candidate.operand, current.value.operand)
      case Some(Equal) => Bound(current.value.operand, current.value.strict || candidate.strict)
      case Some(Greater) => if lower then candidate else current.value
      case Some(Less) => if lower then current.value else candidate
      case None => current.value
  }

  function TightestLower(cs: seq<Constraint>, current: Option<Bound>, o: Oracle): Option<Bound> {
    if cs == [] then current
    else
      var end := LowerEnd(cs[0]);
      TightestLower(cs[1..], if end.None? then current else Some(Tighter(current, end.value, true, o)), o)
  }

  function TightestUpper(cs: seq<Constraint>, current: Option<Bound>, o: Oracle): Option<Bound> {
    if cs == [] then current
    else
      var end := UpperEnd(cs[0]);
      TightestUpper(cs[1..], if end.None? then current else Some(Tighter(current, end.value, false, o)), o)
  }

  lemma {:induction false} TheLowerEndHolds(cs: seq<Constraint>, current: Option<Bound>, o: Oracle, v: Value, m: Meaning)
    requires Ordered(o, m) && AllSatisfied(cs, v, m)
    requires current.Some? ==> AtLeast(current.value.operand, current.value.strict, v, m)
    ensures var lower := TightestLower(cs, current, o); lower.Some? ==> AtLeast(lower.value.operand, lower.value.strict, v, m)
  {
    hide Exposed;
    if cs != [] {
      SatisfiedSplit(cs, v, m);
      var end := LowerEnd(cs[0]);
      TheLowerEndHolds(cs[1..], if end.None? then current else Some(Tighter(current, end.value, true, o)), o, v, m);
    }
  }

  lemma {:induction false} TheUpperEndHolds(cs: seq<Constraint>, current: Option<Bound>, o: Oracle, v: Value, m: Meaning)
    requires Ordered(o, m) && AllSatisfied(cs, v, m)
    requires current.Some? ==> AtMost(current.value.operand, current.value.strict, v, m)
    ensures var upper := TightestUpper(cs, current, o); upper.Some? ==> AtMost(upper.value.operand, upper.value.strict, v, m)
  {
    if cs != [] {
      SatisfiedSplit(cs, v, m);
      var end := UpperEnd(cs[0]);
      TheUpperEndHolds(cs[1..], if end.None? then current else Some(Tighter(current, end.value, false, o)), o, v, m);
    }
  }

  /** Some base admits integers alone, so that the values between two bounds are
      countable. */
  predicate CountsIntegers(bases: seq<Schema>) {
    exists t <- bases :: TypeTag(t, SILENT) == Some(Kind.Int) || TypeTag(t, SILENT) == Some(Kind.Bool)
  }

  /** The bounds cannot hold together of any value. */
  predicate Unsatisfiable(cs: seq<Constraint>, o: Oracle, integers: bool) {
    (Longest(cs).Some? && Shortest(cs) > Longest(cs).value) ||
    var lower, upper := TightestLower(cs, None, o), TightestUpper(cs, None, o);
    lower.Some? && upper.Some? &&
    var order := o.compare(lower.value.operand, upper.value.operand);
    if order == Some(Greater) then true
    else if order == Some(Equal) then lower.value.strict || upper.value.strict
    else
      integers
      && o.noIntBetween(lower.value.operand, lower.value.strict, upper.value.operand, upper.value.strict) == Some(true)
  }

  /** Two ends the oracle orders apart hold of no value together. */
  lemma CrossedEnds(lower: Bound, upper: Bound, o: Oracle, v: Value, m: Meaning)
    requires Ordered(o, m)
    requires AtLeast(lower.operand, lower.strict, v, m)
    ensures o.compare(lower.operand, upper.operand) == Some(Greater) ==> !AtMost(upper.operand, upper.strict, v, m)
    ensures o.compare(lower.operand, upper.operand) == Some(Equal) && (lower.strict || upper.strict) ==>
      !AtMost(upper.operand, upper.strict, v, m)
  {
    assert AtLeast(lower.operand, false, v, m);
    if o.compare(lower.operand, upper.operand) == Some(Greater) {
      assert AtLeast(upper.operand, true, v, m);
    }
  }

  lemma UnsatisfiableHoldsNothing(cs: seq<Constraint>, o: Oracle, integers: bool, v: Value, m: Meaning)
    requires Ordered(o, m) && Unsatisfiable(cs, o, integers)
    requires integers ==> OfKind(v, Kind.Int)
    ensures !AllSatisfied(cs, v, m)
  {
    if AllSatisfied(cs, v, m) {
      LengthsAreBounded(cs, v, m);
      TheLowerEndHolds(cs, None, o, v, m);
      TheUpperEndHolds(cs, None, o, v, m);
      var lower, upper := TightestLower(cs, None, o), TightestUpper(cs, None, o);
      if lower.Some? && upper.Some? { CrossedEnds(lower.value, upper.value, o, v, m); }
    }
  }

  // ---- One bound inside another.

  predicate OrderedAtLeast(order: Option<Ordering>) { order == Some(Greater) || order == Some(Equal) }

  predicate OrderedAtMost(order: Option<Ordering>) { order == Some(Less) || order == Some(Equal) }

  predicate EntailedBy(wide: Constraint, narrow: Constraint, o: Oracle) {
    if wide.MinLen? then narrow.MinLen? && narrow.length >= wide.length
    else if wide.MaxLen? then narrow.MaxLen? && narrow.length <= wide.length
    else if (wide.Ge? || wide.Gt?) && (narrow.Ge? || narrow.Gt?) then
      var order := o.compare(narrow.operand, wide.operand);
      if wide.Gt? && narrow.Ge? then order == Some(Greater) else OrderedAtLeast(order)
    else if (wide.Le? || wide.Lt?) && (narrow.Le? || narrow.Lt?) then
      var order := o.compare(narrow.operand, wide.operand);
      if wide.Lt? && narrow.Le? then order == Some(Less) else OrderedAtMost(order)
    else false
  }

  predicate Entailed(wide: Constraint, narrow: seq<Constraint>, o: Oracle) {
    wide in narrow || exists c <- narrow :: EntailedBy(wide, c, o)
  }

  lemma EntailedIsSatisfied(wide: Constraint, narrow: seq<Constraint>, o: Oracle, v: Value, m: Meaning)
    requires Ordered(o, m) && Entailed(wide, narrow, o) && AllSatisfied(narrow, v, m)
    ensures Satisfied(wide, v, m)
  {
    if wide !in narrow {
      var c :| c in narrow && EntailedBy(wide, c, o);
      assert Satisfied(c, v, m);
      assert c.Gt? ==> AtLeast(c.operand, true, v, m) && AtLeast(c.operand, false, v, m);
      assert c.Ge? ==> AtLeast(c.operand, false, v, m);
      assert c.Lt? ==> AtMost(c.operand, true, v, m) && AtMost(c.operand, false, v, m);
      assert c.Le? ==> AtMost(c.operand, false, v, m);
      assert wide.Ge? ==> AtLeast(wide.operand, true, v, m) || AtLeast(wide.operand, false, v, m);
      assert wide.Gt? ==> AtLeast(wide.operand, true, v, m);
      assert wide.Le? ==> AtMost(wide.operand, true, v, m) || AtMost(wide.operand, false, v, m);
      assert wide.Lt? ==> AtMost(wide.operand, true, v, m);
    }
  }

  // ---- A refinement of a refinement is one.

  function Refined(base: Schema, cs: seq<Constraint>): Schema {
    var (inner, all) := if base.Refine? then (base.base, cs + base.constraints) else (base, cs);
    var held := Canonical(all, ConstraintPrecedes);
    if held == [] then inner else Refine(inner, held)
  }

  lemma RefinedDenotes(base: Schema, cs: seq<Constraint>, v: Value, m: Meaning)
    ensures Member(v, Refined(base, cs), m) <==> Member(v, base, m) && AllSatisfied(cs, v, m)
  {
    hide Canonical;
    hide Exposed;
    hide ConstraintPrecedes;
    hide Satisfied;
    if base.Refine? {
      assert AllSatisfied(cs + base.constraints, v, m) <==> AllSatisfied(cs, v, m) && AllSatisfied(base.constraints, v, m);
    }
  }
}
