/** A recursive schema cut to a finite one: what an unfolding with its references
    cut to a bound proves, and what it refutes. */
module Polarity {
  import opened Verdicts
  import opened Kinds
  import opened Schemas
  import opened Constructors
  import opened Values

  /** Which bound a cut reference becomes: the top, or the bottom. */
  datatype Side = Widen | Narrow {
    function Flipped(): Side { if Widen? then Narrow else Widen }

    function Cut(): Schema { if Widen? then Anything else Nothing }
  }

  /** The schema with its references unfolded so many times, and the cut bounded
      for the side it stands on; a complement alone turns the side. */
  function Unfolded(s: Schema, defs: seq<Schema>, unfolds: nat, side: Side): Schema
    decreases unfolds, s, 1
  {
    match s
    case Ref(i) => if i < |defs| && unfolds > 0 then Unfolded(defs[i], defs, unfolds - 1, side) else side.Cut()
    case Complement(t) => Complement(Unfolded(t, defs, unfolds, side.Flipped()))
    case Union(ms) => Union(CanonicalMembers(UnfoldedAll(ms, defs, unfolds, side)))
    case Intersection(ms) => Intersection(CanonicalMembers(UnfoldedAll(ms, defs, unfolds, side)))
    case Seq(k, prefix, tail) =>
      Seq(k, UnfoldedAll(prefix, defs, unfolds, side),
          if tail.Some? then Some(Unfolded(tail.value, defs, unfolds, side)) else None)
    case Coll(k, element) => Coll(k, Unfolded(element, defs, unfolds, side))
    case Refine(base, cs) => Refine(Unfolded(base, defs, unfolds, side), cs)
    case _ => s
  }

  function UnfoldedAll(ms: seq<Schema>, defs: seq<Schema>, unfolds: nat, side: Side): (r: seq<Schema>)
    ensures |r| == |ms|
    decreases unfolds, ms, 0
  {
    if ms == [] then [] else [Unfolded(ms[0], defs, unfolds, side)] + UnfoldedAll(ms[1..], defs, unfolds, side)
  }

  /** The value is on the side's side: in the widened reading where it is in the
      schema, or in the schema where it is in the narrowed reading. */
  ghost predicate Bounds(s: Schema, read: Schema, side: Side, v: Value, m: Meaning) {
    if side.Widen? then Member(v, s, m) ==> Member(v, read, m) else Member(v, read, m) ==> Member(v, s, m)
  }

  /** Narrowed within real within widened, at every value and every depth. */
  lemma {:induction false} UnfoldingBrackets(s: Schema, unfolds: nat, side: Side, v: Value, m: Meaning)
    ensures Bounds(s, Unfolded(s, m.defs, unfolds, side), side, v, m)
    decreases unfolds, s, 1
  {
    hide InAny;
    if s.Union? || s.Intersection? {
      MembersBracket(s.members, unfolds, side, v, m);
    } else if s.Seq? {
      ASequenceBrackets(s, unfolds, side, v, m);
    } else if s.Coll? || s.Refine? || s.Complement? {
      ATermBrackets(s, unfolds, side, v, m);
    } else if s.Ref? && s.definition < |m.defs| && unfolds > 0 {
      UnfoldingBrackets(m.defs[s.definition], unfolds - 1, side, v, m);
    }
  }

  lemma {:induction false} ATermBrackets(s: Schema, unfolds: nat, side: Side, v: Value, m: Meaning)
    requires s.Coll? || s.Refine? || s.Complement?
    ensures Bounds(s, Unfolded(s, m.defs, unfolds, side), side, v, m)
    decreases unfolds, s, 0
  {
    hide InAny;
    if s.Complement? {
      UnfoldingBrackets(s.inner, unfolds, side.Flipped(), v, m);
    } else if s.Refine? {
      UnfoldingBrackets(s.base, unfolds, side, v, m);
    } else if v.VSet? || v.VFrozenSet? {
      forall e | e in v.elements ensures Bounds(s.element, Unfolded(s.element, m.defs, unfolds, side), side, e, m) {
        UnfoldingBrackets(s.element, unfolds, side, e, m);
      }
    }
  }

  lemma {:induction false} MembersBracket(ms: seq<Schema>, unfolds: nat, side: Side, v: Value, m: Meaning)
    ensures var read := CanonicalMembers(UnfoldedAll(ms, m.defs, unfolds, side));
      && Bounds(Union(ms), Union(read), side, v, m)
      && Bounds(Intersection(ms), Intersection(read), side, v, m)
    decreases unfolds, ms, 1
  {
    hide Member;
    var all := UnfoldedAll(ms, m.defs, unfolds, side);
    EachBrackets(ms, unfolds, side, v, m);
    SameMembers(CanonicalMembers(all), all, v, m);
    InConnectives(v, ms, Nothing, m);
    InConnectives(v, CanonicalMembers(all), Nothing, m);
  }

  lemma {:induction false} EachBrackets(ms: seq<Schema>, unfolds: nat, side: Side, v: Value, m: Meaning)
    ensures var all := UnfoldedAll(ms, m.defs, unfolds, side);
      if side.Widen? then (InAny(v, ms, m) ==> InAny(v, all, m)) && (InAll(v, ms, m) ==> InAll(v, all, m))
      else (InAny(v, all, m) ==> InAny(v, ms, m)) && (InAll(v, all, m) ==> InAll(v, ms, m))
    decreases unfolds, ms, 0
  {
    if ms != [] {
      var all := UnfoldedAll(ms, m.defs, unfolds, side);
      assert all[1..] == UnfoldedAll(ms[1..], m.defs, unfolds, side);
      InSplit(v, ms, m);
      InSplit(v, all, m);
      UnfoldingBrackets(ms[0], unfolds, side, v, m);
      EachBrackets(ms[1..], unfolds, side, v, m);
    }
  }

  lemma {:induction false} UnfoldedAt(ms: seq<Schema>, defs: seq<Schema>, unfolds: nat, side: Side, j: nat)
    requires j < |ms|
    ensures UnfoldedAll(ms, defs, unfolds, side)[j] == Unfolded(ms[j], defs, unfolds, side)
  {
    if j > 0 { UnfoldedAt(ms[1..], defs, unfolds, side, j - 1); }
  }

  lemma {:induction false} ASequenceBrackets(s: Schema, unfolds: nat, side: Side, v: Value, m: Meaning)
    requires s.Seq?
    ensures Bounds(s, Unfolded(s, m.defs, unfolds, side), side, v, m)
    decreases unfolds, s, 0
  {
    var read := Unfolded(s, m.defs, unfolds, side);
    if v.VList? || v.VTuple? {
      forall j | 0 <= j < |v.items|
        ensures Bounds(ElementAt(s.prefix, s.tail, j), ElementAt(read.prefix, read.tail, j), side, v.items[j], m)
      {
        if j < |s.prefix| {
          UnfoldedAt(s.prefix, m.defs, unfolds, side, j);
          UnfoldingBrackets(s.prefix[j], unfolds, side, v.items[j], m);
        } else if s.tail.Some? {
          UnfoldingBrackets(s.tail.value, unfolds, side, v.items[j], m);
        }
      }
    }
  }

  // ---- What the difference of two readings says of the inclusion.

  /** The term stood for a supertype and its side: what a complement complements is
      widened, anything else narrowed as it is. */
  function ReadAsASupertype(b: Schema): (Schema, Side) {
    if b.Complement? then (b.inner, Widen) else (b, Narrow)
  }

  /** `v` is in the subject's reading and outside the supertype's. */
  ghost predicate InTheDifference(v: Value, a: Schema, b: Schema, unfolds: nat, side: Side, m: Meaning) {
    var (read, stands) := ReadAsASupertype(b);
    var theirs := Unfolded(read, m.defs, unfolds, if side.Widen? then stands else stands.Flipped());
    && Member(v, Unfolded(a, m.defs, unfolds, side), m)
    && (if b.Complement? then Member(v, theirs, m) else !Member(v, theirs, m))
  }

  /** The real difference lies within the widened one, and holds the narrowed. */
  lemma TheDifferenceIsBracketed(v: Value, a: Schema, b: Schema, unfolds: nat, m: Meaning)
    ensures Member(v, a, m) && !Member(v, b, m) ==> InTheDifference(v, a, b, unfolds, Widen, m)
    ensures InTheDifference(v, a, b, unfolds, Narrow, m) ==> Member(v, a, m) && !Member(v, b, m)
  {
    hide Unfolded;
    hide Exposed;
    hide Member;
    AtEveryNode(v, m);
    var (read, stands) := ReadAsASupertype(b);
    UnfoldingBrackets(a, unfolds, Widen, v, m);
    UnfoldingBrackets(a, unfolds, Narrow, v, m);
    UnfoldingBrackets(read, unfolds, stands, v, m);
    UnfoldingBrackets(read, unfolds, stands.Flipped(), v, m);
  }

  // ---- The kinds no cut reaches.

  /** The values a cut may have changed: all of them, or those of some kinds. */
  datatype Reach = Reach(every: bool, kinds: set<Kind>) {
    function And(other: Reach): Reach { Reach(every || other.every, kinds + other.kinds) }

    predicate Reaches(v: Value) { every || (KindOf(v).Some? && KindOf(v).value in kinds) }
  }

  const NOWHERE: Reach := Reach(false, {})

  /** The kind of values a constructor builds; a connective leaves it to the nodes
      beneath. */
  function BuiltBy(s: Schema): Option<Kind> {
    match s
    case Seq(k, _, _) => Some(if k.ListSeq? then Kind.List else Kind.Tuple)
    case Coll(k, _) => Some(if k.SetColl? then Kind.Set else Kind.FrozenSet)
    case _ => None
  }

  function CutBeneath(under: Option<Kind>): Reach {
    if under.Some? then Reach(false, {under.value}) else Reach(true, {})
  }

  /** For each cut, the kind the constructor nearest the root above it builds, or
      everything where none stands above. */
  function CutReaches(s: Schema, defs: seq<Schema>, unfolds: nat, under: Option<Kind>): Reach
    decreases unfolds, s, 1
  {
    var below := if under.Some? then under else BuiltBy(s);
    match s
    case Ref(i) => if i < |defs| && unfolds > 0 then CutReaches(defs[i], defs, unfolds - 1, under) else CutBeneath(under)
    case Complement(t) => CutReaches(t, defs, unfolds, under)
    case Union(ms) => CutReachesAny(ms, defs, unfolds, under)
    case Intersection(ms) => CutReachesAny(ms, defs, unfolds, under)
    case Seq(_, prefix, tail) =>
      CutReachesAny(prefix, defs, unfolds, below).And(
        if tail.Some? then CutReaches(tail.value, defs, unfolds, below) else NOWHERE)
    case Coll(_, element) => CutReaches(element, defs, unfolds, below)
    case Refine(base, _) => CutReaches(base, defs, unfolds, under)
    case _ => NOWHERE
  }

  function CutReachesAny(ms: seq<Schema>, defs: seq<Schema>, unfolds: nat, under: Option<Kind>): Reach
    decreases unfolds, ms, 0
  {
    if ms == [] then NOWHERE
    else CutReaches(ms[0], defs, unfolds, under).And(CutReachesAny(ms[1..], defs, unfolds, under))
  }

  /** A term beneath a constructor either holds no cut, or reaches its kind. */
  lemma {:induction false} BeneathAConstructor(s: Schema, defs: seq<Schema>, unfolds: nat, kind: Kind)
    ensures CutReaches(s, defs, unfolds, Some(kind)) == NOWHERE || CutReaches(s, defs, unfolds, Some(kind)) == Reach(false, {kind})
    decreases unfolds, s, 1
  {
    match s
    case Ref(i) => if i < |defs| && unfolds > 0 { BeneathAConstructor(defs[i], defs, unfolds - 1, kind); }
    case Complement(t) => BeneathAConstructor(t, defs, unfolds, kind);
    case Union(ms) => AllBeneathAConstructor(ms, defs, unfolds, kind);
    case Intersection(ms) => AllBeneathAConstructor(ms, defs, unfolds, kind);
    case Seq(_, prefix, tail) =>
      AllBeneathAConstructor(prefix, defs, unfolds, kind);
      if tail.Some? { BeneathAConstructor(tail.value, defs, unfolds, kind); }
    case Coll(_, element) => BeneathAConstructor(element, defs, unfolds, kind);
    case Refine(base, _) => BeneathAConstructor(base, defs, unfolds, kind);
    case _ =>
  }

  lemma {:induction false} AllBeneathAConstructor(ms: seq<Schema>, defs: seq<Schema>, unfolds: nat, kind: Kind)
    ensures CutReachesAny(ms, defs, unfolds, Some(kind)) == NOWHERE || CutReachesAny(ms, defs, unfolds, Some(kind)) == Reach(false, {kind})
    ensures CutReachesAny(ms, defs, unfolds, Some(kind)) == NOWHERE ==>
      forall t <- ms :: CutReaches(t, defs, unfolds, Some(kind)) == NOWHERE
    decreases unfolds, ms, 0
  {
    if ms != [] {
      BeneathAConstructor(ms[0], defs, unfolds, kind);
      AllBeneathAConstructor(ms[1..], defs, unfolds, kind);
    }
  }

  /** Where no cut reaches a value, both readings and the schema agree on it. */
  lemma {:induction false} UncutValuesAgree(s: Schema, unfolds: nat, side: Side, under: Option<Kind>, v: Value, m: Meaning)
    requires if under.None? then !CutReaches(s, m.defs, unfolds, None).Reaches(v) else CutReaches(s, m.defs, unfolds, under) == NOWHERE
    ensures Member(v, Unfolded(s, m.defs, unfolds, side), m) <==> Member(v, s, m)
    decreases unfolds, s, 1
  {
    hide BuiltBy, UnfoldedAll, Exposed;
    hide CanonicalMembers;
    match s
    case Ref(i) => if i < |m.defs| && unfolds > 0 { UncutValuesAgree(m.defs[i], unfolds - 1, side, under, v, m); }
    case Complement(t) => UncutValuesAgree(t, unfolds, side.Flipped(), under, v, m);
    case Union(ms) => UncutMembersAgree(ms, unfolds, side, under, v, m);
    case Intersection(ms) => UncutMembersAgree(ms, unfolds, side, under, v, m);
    case Seq(_, _, _) => UncutSequencesAgree(s, unfolds, side, under, v, m);
    case Coll(_, element) => UncutSetsAgree(s, unfolds, side, under, v, m);
    case Refine(base, _) => UncutValuesAgree(base, unfolds, side, under, v, m);
    case _ =>
  }

  lemma {:induction false} UncutMembersAgree(ms: seq<Schema>, unfolds: nat, side: Side, under: Option<Kind>, v: Value, m: Meaning)
    requires if under.None? then !CutReachesAny(ms, m.defs, unfolds, None).Reaches(v) else CutReachesAny(ms, m.defs, unfolds, under) == NOWHERE
    ensures var read := CanonicalMembers(UnfoldedAll(ms, m.defs, unfolds, side));
      && (Member(v, Union(read), m) <==> Member(v, Union(ms), m))
      && (Member(v, Intersection(read), m) <==> Member(v, Intersection(ms), m))
    decreases unfolds, ms, 1
  {
    hide Member;
    var all := UnfoldedAll(ms, m.defs, unfolds, side);
    UncutEachAgree(ms, unfolds, side, under, v, m);
    SameMembers(CanonicalMembers(all), all, v, m);
    InConnectives(v, ms, Nothing, m);
    InConnectives(v, CanonicalMembers(all), Nothing, m);
  }

  lemma {:induction false} UncutEachAgree(ms: seq<Schema>, unfolds: nat, side: Side, under: Option<Kind>, v: Value, m: Meaning)
    requires if under.None? then !CutReachesAny(ms, m.defs, unfolds, None).Reaches(v) else CutReachesAny(ms, m.defs, unfolds, under) == NOWHERE
    ensures InAny(v, UnfoldedAll(ms, m.defs, unfolds, side), m) <==> InAny(v, ms, m)
    ensures InAll(v, UnfoldedAll(ms, m.defs, unfolds, side), m) <==> InAll(v, ms, m)
    decreases unfolds, ms, 0
  {
    if ms != [] {
      var all := UnfoldedAll(ms, m.defs, unfolds, side);
      assert all[1..] == UnfoldedAll(ms[1..], m.defs, unfolds, side);
      InSplit(v, ms, m);
      InSplit(v, all, m);
      if under.Some? {
        BeneathAConstructor(ms[0], m.defs, unfolds, under.value);
        AllBeneathAConstructor(ms[1..], m.defs, unfolds, under.value);
      }
      UncutValuesAgree(ms[0], unfolds, side, under, v, m);
      UncutEachAgree(ms[1..], unfolds, side, under, v, m);
    }
  }

  /** A constructor a value's kind names holds no cut beneath it, where none
      reaches the value. */
  lemma NothingCutBeneath(s: Schema, unfolds: nat, under: Option<Kind>, v: Value, m: Meaning)
    requires s.Seq? || s.Coll?
    requires if under.None? then !CutReaches(s, m.defs, unfolds, None).Reaches(v) else CutReaches(s, m.defs, unfolds, under) == NOWHERE
    requires KindOf(v) == BuiltBy(s)
    ensures var below := if under.Some? then under else BuiltBy(s);
      && below.Some?
      && (s.Coll? ==> CutReaches(s.element, m.defs, unfolds, below) == NOWHERE)
      && (s.Seq? ==> forall t <- s.prefix :: CutReaches(t, m.defs, unfolds, below) == NOWHERE)
      && (s.Seq? && s.tail.Some? ==> CutReaches(s.tail.value, m.defs, unfolds, below) == NOWHERE)
  {
    var kind := if under.Some? then under.value else BuiltBy(s).value;
    if s.Coll? {
      BeneathAConstructor(s.element, m.defs, unfolds, kind);
    } else {
      AllBeneathAConstructor(s.prefix, m.defs, unfolds, kind);
      if s.tail.Some? { BeneathAConstructor(s.tail.value, m.defs, unfolds, kind); }
    }
  }

  lemma {:induction false} UncutSequencesAgree(s: Schema, unfolds: nat, side: Side, under: Option<Kind>, v: Value, m: Meaning)
    requires s.Seq?
    requires if under.None? then !CutReaches(s, m.defs, unfolds, None).Reaches(v) else CutReaches(s, m.defs, unfolds, under) == NOWHERE
    ensures Member(v, Unfolded(s, m.defs, unfolds, side), m) <==> Member(v, s, m)
    decreases unfolds, s, 0
  {
    if KindOf(v) == BuiltBy(s) {
      var read, below := Unfolded(s, m.defs, unfolds, side), if under.Some? then under else BuiltBy(s);
      NothingCutBeneath(s, unfolds, under, v, m);
      forall j | 0 <= j < |v.items|
        ensures Member(v.items[j], ElementAt(read.prefix, read.tail, j), m) <==> Member(v.items[j], ElementAt(s.prefix, s.tail, j), m)
      {
        if j < |s.prefix| {
          UnfoldedAt(s.prefix, m.defs, unfolds, side, j);
          assert s.prefix[j] in s.prefix;
          UncutValuesAgree(s.prefix[j], unfolds, side, below, v.items[j], m);
        } else if s.tail.Some? {
          UncutValuesAgree(s.tail.value, unfolds, side, below, v.items[j], m);
        }
      }
    }
  }

  lemma {:induction false} UncutSetsAgree(s: Schema, unfolds: nat, side: Side, under: Option<Kind>, v: Value, m: Meaning)
    requires s.Coll?
    requires if under.None? then !CutReaches(s, m.defs, unfolds, None).Reaches(v) else CutReaches(s, m.defs, unfolds, under) == NOWHERE
    ensures Member(v, Unfolded(s, m.defs, unfolds, side), m) <==> Member(v, s, m)
    decreases unfolds, s, 0
  {
    if KindOf(v) == BuiltBy(s) {
      var read, below := Unfolded(s, m.defs, unfolds, side), if under.Some? then under else BuiltBy(s);
      NothingCutBeneath(s, unfolds, under, v, m);
      forall e | e in v.elements ensures Member(e, read.element, m) <==> Member(e, s.element, m) {
        UncutValuesAgree(s.element, unfolds, side, below, e, m);
      }
    }
  }

  /** The parts a cut reaches on either side of a pair. */
  function PairReach(a: Schema, b: Schema, defs: seq<Schema>, unfolds: nat): Reach {
    CutReaches(a, defs, unfolds, None).And(CutReaches(ReadAsASupertype(b).0, defs, unfolds, None))
  }

  /** A value of the widened difference at a kind no cut reaches is a value of
      the real one. */
  lemma AnUncutValueRefutes(v: Value, a: Schema, b: Schema, unfolds: nat, m: Meaning)
    requires InTheDifference(v, a, b, unfolds, Widen, m) && !PairReach(a, b, m.defs, unfolds).Reaches(v)
    ensures Member(v, a, m) && !Member(v, b, m)
  {
    var (read, stands) := ReadAsASupertype(b);
    UncutValuesAgree(a, unfolds, Widen, None, v, m);
    UncutValuesAgree(read, unfolds, stands, None, v, m);
  }

  // ---- The reading of a pair by its two differences.

  /** What the set representation found of a difference: the verdict, and whether
      it names a value past the cut. */
  datatype Difference = Difference(verdict: Verdict, uncut: bool)

  /** The widened difference first, and the narrowed one where that one is
      inhabited at a kind a cut reaches. */
  function ContainedIn(widened: Difference, narrowed: Difference): Relation {
    match widened.verdict
    case Empty => Relation.Holds
    case Unknown => Relation.Unknown
    case Inhabited => if widened.uncut || narrowed.verdict.Inhabited? then Relation.Fails else Relation.Unknown
  }

  ghost predicate ReadsTheDifference(d: Difference, a: Schema, b: Schema, unfolds: nat, side: Side, m: Meaning) {
    && (d.verdict.Empty? ==> forall v :: !InTheDifference(v, a, b, unfolds, side, m))
    && (d.verdict.Inhabited? ==> exists v :: InTheDifference(v, a, b, unfolds, side, m))
    && (d.uncut ==> exists v :: InTheDifference(v, a, b, unfolds, side, m) && !PairReach(a, b, m.defs, unfolds).Reaches(v))
  }

  /** Whatever stands the two differences rightly decides the inclusion soundly. */
  lemma TheDifferencesDecide(widened: Difference, narrowed: Difference, a: Schema, b: Schema, unfolds: nat, m: Meaning)
    requires ReadsTheDifference(widened, a, b, unfolds, Widen, m)
    requires ReadsTheDifference(narrowed, a, b, unfolds, Narrow, m)
    ensures ContainedIn(widened, narrowed).Holds? ==> Included(a, b, m)
    ensures ContainedIn(widened, narrowed).Fails? ==> Spills(a, b, m)
  {
    hide Member, InTheDifference, PairReach;
    forall v
      ensures Member(v, a, m) && !Member(v, b, m) ==> InTheDifference(v, a, b, unfolds, Widen, m)
      ensures InTheDifference(v, a, b, unfolds, Narrow, m) ==> Member(v, a, m) && !Member(v, b, m)
    {
      TheDifferenceIsBracketed(v, a, b, unfolds, m);
    }
    if widened.uncut {
      var v :| InTheDifference(v, a, b, unfolds, Widen, m) && !PairReach(a, b, m.defs, unfolds).Reaches(v);
      AnUncutValueRefutes(v, a, b, unfolds, m);
    }
  }
}
