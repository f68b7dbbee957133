/** The cheap disjointness of two terms: kinds that cannot overlap, tables of
    constants apart, and repeated elements that share nothing. */
module Disjointness {
  import opened Verdicts
  import opened Kinds
  import opened Schemas
  import opened Values
  import opened Oracles
  import opened KindWalk

  /** The constants of a literal, or of a union of nothing but literals. */
  function LiteralConstants(s: Schema): Option<seq<nat>> {
    match s
    case Literal(c) => Some([c])
    case Union(ms) => if ms == [] then None else ListedConstants(ms)
    case _ => None
  }

  function ListedConstants(ms: seq<Schema>): Option<seq<nat>> {
    if ms == [] then Some([])
    else
      var rest := ListedConstants(ms[1..]);
      if ms[0].Literal? && rest.Some? then Some([ms[0].constant] + rest.value) else None
  }

  lemma {:induction false} ConstantsAreTheMembers(ms: seq<Schema>, v: Value, m: Meaning)
    requires ListedConstants(ms).Some?
    ensures InAny(v, ms, m) <==> ListedIn(v, ListedConstants(ms).value, m)
  {
    if ms != [] {
      InSplit(v, ms, m);
      ConstantsAreTheMembers(ms[1..], v, m);
      var all, rest := ListedConstants(ms).value, ListedConstants(ms[1..]).value;
      assert all == [ms[0].constant] + rest;
      if ListedIn(v, rest, m) {
        var c :| c in rest && v in m.literal(c);
        assert c in all;
      }
      assert ms[0].constant in all;
    }
  }

  lemma LiteralConstantsAreTheValues(s: Schema, v: Value, m: Meaning)
    requires LiteralConstants(s).Some?
    ensures Member(v, s, m) <==> ListedIn(v, LiteralConstants(s).value, m)
  {
    if s.Literal? {
      assert s.constant in [s.constant];
    } else {
      ConstantsAreTheMembers(s.members, v, m);
    }
  }

  /** The oracle's word on two lists of constants, given in one question: `Some(true)`
      is that no constant of one denotes a value of the other's. */
  function TablesDisjoint(a: Schema, b: Schema, o: Oracle): Option<bool> {
    var mine, theirs := LiteralConstants(a), LiteralConstants(b);
    if mine.Some? && theirs.Some? then o.literalSetsDisjoint(mine.value, theirs.value) else None
  }

  lemma TablesAreRead(a: Schema, b: Schema, o: Oracle, m: Meaning)
    requires Truthful(o, m)
    ensures TablesDisjoint(a, b, o) == Some(true) ==> forall v :: !(Member(v, a, m) && Member(v, b, m))
    ensures TablesDisjoint(a, b, o) == Some(false) ==> exists v :: Member(v, a, m) && Member(v, b, m)
  {
    hide Member;
    if TablesDisjoint(a, b, o).Some? {
      forall v
        ensures Member(v, a, m) <==> ListedIn(v, LiteralConstants(a).value, m)
        ensures Member(v, b, m) <==> ListedIn(v, LiteralConstants(b).value, m)
      {
        LiteralConstantsAreTheValues(a, v, m);
        LiteralConstantsAreTheValues(b, v, m);
      }
    }
  }

  /** What every item of a star's values belongs to. */
  function StarElement(s: Schema): (r: Option<Schema>)
    ensures r.Some? ==> Size(r.value) < Size(s)
  {
    match s
    case Refine(base, _) => StarElement(base)
    case Seq(_, prefix, tail) => if prefix == [] then tail else None
    case Coll(_, element) => Some(element)
    case _ => None
  }

  /** A length bound puts an element in every value. */
  predicate HoldsAnElement(s: Schema) {
    s.Refine? && ((exists c <- s.constraints :: c.MinLen? && c.length > 0) || HoldsAnElement(s.base))
  }

  /** A kind can be read of the member, or of each branch of a union. */
  predicate ReadByKind(s: Schema) {
    || TypeTag(s, SILENT).Some?
    || (s.Union? && forall branch <- s.members :: TypeTag(branch, SILENT).Some?)
  }

  /** `a` and `b` are proved to share no value; `false` proves nothing. */
  predicate DisjointWith(a: Schema, b: Schema, o: Oracle)
    decreases Size(a) + Size(b)
  {
    if a.Nothing? || b.Nothing? then true
    else if TablesDisjoint(a, b, o).Some? then TablesDisjoint(a, b, o).value
    else if a.Union? then a.members != [] && forall i | 0 <= i < |a.members| :: DisjointWith(a.members[i], b, o)
    else if b.Union? then b.members != [] && forall i | 0 <= i < |b.members| :: DisjointWith(a, b.members[i], o)
    else if a.Literal? && b.Literal? then o.literalsDisjoint(a.constant, b.constant) == Some(true)
    else
      var mine, theirs := TypeTag(a, o), TypeTag(b, o);
      if (HoldsAnElement(a) || HoldsAnElement(b)) && mine == theirs && StarElement(a).Some? && StarElement(b).Some?
        && DisjointWith(StarElement(a).value, StarElement(b).value, o) then true
      else
        if mine.Some? && theirs.Some? then !SharesValuesWith(mine.value, theirs.value)
        else if mine.None? && theirs.None? then false
        else
          var (untagged, tagged, kind) := if mine.None? then (a, b, theirs.value) else (b, a, mine.value);
          if untagged.Instance? then o.classAdmitsKind(untagged.class_, kind) == Some(false)
          else untagged.Intersection? && exists i | 0 <= i < |untagged.members| ::
            ReadByKind(untagged.members[i]) && DisjointWith(untagged.members[i], tagged, o)
  }

  predicate Inside(x: Value, v: Value) {
    match v
    case VList(items) => x in items
    case VTuple(items) => x in items
    case VSet(elements) => x in elements
    case VFrozenSet(elements) => x in elements
    case _ => false
  }

  ghost predicate HoldsEachElement(v: Value, element: Schema, m: Meaning)
  {
    (v.VList? || v.VTuple? || v.VSet? || v.VFrozenSet?) && forall x :: Inside(x, v) ==> Member(x, element, m)
  }

  lemma SomeElement(v: Value) returns (x: Value)
    requires v.VList? || v.VTuple? || v.VSet? || v.VFrozenSet?
    requires Length(v).value > 0
    ensures Inside(x, v)
  {
    match v
    case VList(items) => x := items[0];
    case VTuple(items) => x := items[0];
    case VSet(elements) => x :| x in elements;
    case VFrozenSet(elements) => x :| x in elements;
  }

  lemma {:induction false} StarsHoldTheirElements(s: Schema, v: Value, m: Meaning)
    requires StarElement(s).Some? && Member(v, s, m)
    ensures HoldsEachElement(v, StarElement(s).value, m)
    decreases s
  {
    hide Exposed;
    match s
    case Refine(base, _) => StarsHoldTheirElements(base, v, m);
    case Seq(_, _, _) =>
      forall x | x in v.items ensures Member(x, s.tail.value, m) {
        var j :| 0 <= j < |v.items| && v.items[j] == x;
        assert Member(v.items[j], ElementAt(s.prefix, s.tail, j), m);
      }
    case _ =>
  }

  lemma {:induction false} AnElementIsHeld(s: Schema, v: Value, m: Meaning)
    requires HoldsAnElement(s) && Member(v, s, m)
    ensures Length(v).Some? && Length(v).value > 0
    decreases s
  {
    if c :| c in s.constraints && c.MinLen? && c.length > 0 {
      assert Satisfied(c, v, m);
    } else {
      AnElementIsHeld(s.base, v, m);
    }
  }

  lemma DisjointElements(a: Schema, b: Schema, v: Value, m: Meaning)
    requires StarElement(a).Some? && StarElement(b).Some?
    requires HoldsAnElement(a) || HoldsAnElement(b)
    requires forall x :: !(Member(x, StarElement(a).value, m) && Member(x, StarElement(b).value, m))
    ensures !(Member(v, a, m) && Member(v, b, m))
  {
    hide Member;
    if Member(v, a, m) && Member(v, b, m) {
      StarsHoldTheirElements(a, v, m);
      StarsHoldTheirElements(b, v, m);
      if HoldsAnElement(a) { AnElementIsHeld(a, v, m); } else { AnElementIsHeld(b, v, m); }
      var x := SomeElement(v);
    }
  }

  ghost predicate Apart(a: Schema, b: Schema, m: Meaning)
  {
    forall v :: !(Member(v, a, m) && Member(v, b, m))
  }

  lemma EachApart(ms: seq<Schema>, b: Schema, m: Meaning)
    requires forall i :: 0 <= i < |ms| ==> Apart(ms[i], b, m)
    ensures Apart(Union(ms), b, m)
  {
  }

  lemma Swapped(a: Schema, b: Schema, m: Meaning)
    requires Apart(a, b, m)
    ensures Apart(b, a, m)
  {
  }

  lemma {:induction false} DisjointIsApart(a: Schema, b: Schema, o: Oracle, m: Meaning)
    requires Truthful(o, m) && DisjointWith(a, b, o)
    ensures Apart(a, b, m)
    decreases Size(a) + Size(b)
  {
    hide Exposed;
    hide Satisfied;
    TablesAreRead(a, b, o, m);
    if a.Nothing? || b.Nothing? || TablesDisjoint(a, b, o).Some? {
    } else if a.Union? {
      forall i | 0 <= i < |a.members| ensures Apart(a.members[i], b, m) { DisjointIsApart(a.members[i], b, o, m); }
      EachApart(a.members, b, m);
    } else if b.Union? {
      forall i | 0 <= i < |b.members| ensures Apart(b.members[i], a, m) {
        DisjointIsApart(a, b.members[i], o, m);
        Swapped(a, b.members[i], m);
      }
      EachApart(b.members, a, m);
      Swapped(b, a, m);
    } else if !(a.Literal? && b.Literal?) {
      StructuresApart(a, b, o, m);
    }
  }

  lemma {:induction false} StructuresApart(a: Schema, b: Schema, o: Oracle, m: Meaning)
    requires Truthful(o, m) && DisjointWith(a, b, o)
    requires !a.Nothing? && !b.Nothing? && TablesDisjoint(a, b, o).None?
    requires !a.Union? && !b.Union? && !(a.Literal? && b.Literal?)
    ensures Apart(a, b, m)
    decreases Size(a) + Size(b), 1
  {
    hide Member;
    hide Exposed;
    hide Truthful;
    var mine, theirs := TypeTag(a, o), TypeTag(b, o);
    if (HoldsAnElement(a) || HoldsAnElement(b)) && mine == theirs && StarElement(a).Some? && StarElement(b).Some?
      && DisjointWith(StarElement(a).value, StarElement(b).value, o)
    {
      DisjointIsApart(StarElement(a).value, StarElement(b).value, o, m);
      forall v ensures !(Member(v, a, m) && Member(v, b, m)) { DisjointElements(a, b, v, m); }
    } else {
      TagsApart(a, b, o, m);
    }
  }

  lemma {:induction false} TagsApart(a: Schema, b: Schema, o: Oracle, m: Meaning)
    requires Truthful(o, m)
    requires match (TypeTag(a, o), TypeTag(b, o))
      case (Some(x), Some(y)) => !SharesValuesWith(x, y)
      case (None, Some(kind)) =>
        if a.Instance? then o.classAdmitsKind(a.class_, kind) == Some(false)
        else a.Intersection? && exists i | 0 <= i < |a.members| ::
          ReadByKind(a.members[i]) && DisjointWith(a.members[i], b, o)
      case (Some(kind), None) =>
        if b.Instance? then o.classAdmitsKind(b.class_, kind) == Some(false)
        else b.Intersection? && exists i | 0 <= i < |b.members| ::
          ReadByKind(b.members[i]) && DisjointWith(b.members[i], a, o)
      case (None, None) => false
    ensures Apart(a, b, m)
    decreases Size(a) + Size(b), 0
  {
    hide Exposed;
    hide Truthful;
    hide DisjointWith;
    var mine, theirs := TypeTag(a, o), TypeTag(b, o);
    if mine.None? && a.Intersection? {
      var i :| 0 <= i < |a.members| && DisjointWith(a.members[i], b, o);
      DisjointIsApart(a.members[i], b, o, m);
    } else if theirs.None? && b.Intersection? {
      var i :| 0 <= i < |b.members| && DisjointWith(b.members[i], a, o);
      DisjointIsApart(b.members[i], a, o, m);
    } else {
      forall v ensures !(Member(v, a, m) && Member(v, b, m)) { TagsShareNoValue(a, b, o, v, m); }
    }
  }

  lemma TagsShareNoValue(a: Schema, b: Schema, o: Oracle, v: Value, m: Meaning)
    requires Truthful(o, m)
    requires match (TypeTag(a, o), TypeTag(b, o))
      case (Some(x), Some(y)) => !SharesValuesWith(x, y)
      case (None, Some(kind)) => a.Instance? && o.classAdmitsKind(a.class_, kind) == Some(false)
      case (Some(kind), None) => b.Instance? && o.classAdmitsKind(b.class_, kind) == Some(false)
      case (None, None) => false
    ensures !(Member(v, a, m) && Member(v, b, m))
  {
    if Member(v, a, m) && Member(v, b, m) {
      if TypeTag(a, o).Some? { TagIsSound(a, o, v, m); }
      if TypeTag(b, o).Some? { TagIsSound(b, o, v, m); }
    }
  }
}
