/** Readings taken off the constructors of two terms, with no goal asked: the
    placements, the empty containers, the lengths, and the values a shape names. */
module Shapes {
  import opened Verdicts
  import opened Kinds
  import opened Schemas
  import opened Constructors
  import opened Values
  import opened Oracles
  import opened Readings
  import opened KindWalk
  import opened Disjointness

  // ---- A value by the shape alone.

  predicate HoldsAValueShallowly(s: Schema) {
    match s
    case Anything | NoneType | Bool | Int | Float | Str | Bytes | Coll(_, _) => true
    case Seq(_, prefix, _) => prefix == []
    case Union(ms) => exists i | 0 <= i < |ms| :: HoldsAValueShallowly(ms[i])
    case _ => false
  }

  lemma {:induction false} AShapeHoldsAValue(s: Schema, m: Meaning)
    requires HoldsAValueShallowly(s)
    ensures HasValue(s, m)
  {
    if s.Union? {
      var i :| 0 <= i < |s.members| && HoldsAValueShallowly(s.members[i]);
      AShapeHoldsAValue(s.members[i], m);
      var v :| Member(v, s.members[i], m);
      assert s.members[i] in s.members && Member(v, s, m);
    } else {
      var v := match s
        case Bool => VBool(false)
        case Int => VInt(0)
        case Float => VFloat(0.0)
        case Str => VStr("")
        case Bytes => VBytes([])
        case Coll(k, _) => if k.SetColl? then VSet({}) else VFrozenSet({})
        case Seq(k, _, _) => if k.ListSeq? then VList([]) else VTuple([])
        case _ => VNone;
      assert Member(v, s, m);
    }
  }

  /** The complement of a meet holds what the set one of its members complements
      holds by its shape. */
  function AComplementedMemberHoldsAValue(inner: Schema): Verdict {
    if inner.Intersection?
      && (exists t <- inner.members :: t.Complement? && HoldsAValueShallowly(t.inner))
    then Verdict.Inhabited
    else Verdict.Unknown
  }

  lemma AComplementedMemberIsRead(inner: Schema, m: Meaning)
    requires AComplementedMemberHoldsAValue(inner).Inhabited?
    ensures HasValue(Complement(inner), m)
  {
    var t :| t in inner.members && t.Complement? && HoldsAValueShallowly(t.inner);
    AShapeHoldsAValue(t.inner, m);
    var v :| Member(v, t.inner, m);
    assert !Member(v, t, m);
    assert Member(v, Complement(inner), m);
  }

  // ---- The empty container of a kind, exactly.

  predicate IsContainer(kind: Kind) {
    kind in {Kind.List, Kind.Tuple, Kind.Set, Kind.FrozenSet, Kind.Dict}
  }

  function HoldsTheExactEmpty(s: Schema, kind: Kind): Option<bool> {
    if s.Anything? then Some(true)
    else if s.Nothing? || s.NoneType? || s.Bool? || s.Int? || s.Float? || s.Str? || s.Bytes? then Some(false)
    else if s.Seq? || s.Coll? then Some(TypeTag(s, SILENT) == Some(kind) && (s.Coll? || s.prefix == []))
    else if s.Refine? then
      var held := HoldsTheExactEmpty(s.base, kind);
      if held != Some(true) then held
      else if exists c <- s.constraints :: c.MinLen? && c.length > 0 then Some(false)
      else if forall c <- s.constraints :: c.MinLen? || c.MaxLen? then Some(true)
      else None
    else if s.Complement? then
      var held := HoldsTheExactEmpty(s.inner, kind);
      if held.None? then None else Some(!held.value)
    else if s.Union? || s.Intersection? then
      if exists i | 0 <= i < |s.members| :: HoldsTheExactEmpty(s.members[i], kind) == Some(s.Union?) then Some(s.Union?)
      else if exists i | 0 <= i < |s.members| :: HoldsTheExactEmpty(s.members[i], kind) == None then None
      else Some(s.Intersection?)
    else None
  }

  lemma {:induction false} TheExactEmptyIsRead(s: Schema, kind: Kind, m: Meaning)
    requires IsContainer(kind) && HoldsTheExactEmpty(s, kind).Some?
    ensures Member(Sample(kind), s, m) <==> HoldsTheExactEmpty(s, kind).value
  {
    hide KindOf;
    if s.Union? {
      forall i | 0 <= i < |s.members| && HoldsTheExactEmpty(s.members[i], kind).Some?
        ensures Member(Sample(kind), s.members[i], m) <==> HoldsTheExactEmpty(s.members[i], kind).value
      {
        TheExactEmptyIsRead(s.members[i], kind, m);
      }
    } else if s.Intersection? {
      forall i | 0 <= i < |s.members| && HoldsTheExactEmpty(s.members[i], kind).Some?
        ensures Member(Sample(kind), s.members[i], m) <==> HoldsTheExactEmpty(s.members[i], kind).value
      {
        TheExactEmptyIsRead(s.members[i], kind, m);
      }
    } else if s.Complement? {
      TheExactEmptyIsRead(s.inner, kind, m);
    } else if s.Refine? {
      TheExactEmptyIsRead(s.base, kind, m);
      ALengthOfZero(s.constraints, kind, m);
    }
  }

  lemma ALengthOfZero(cs: seq<Constraint>, kind: Kind, m: Meaning)
    requires IsContainer(kind)
    ensures Length(Sample(kind)) == Some(0)
    ensures (exists c <- cs :: c.MinLen? && c.length > 0) ==> !(forall c <- cs :: Satisfied(c, Sample(kind), m))
    ensures (forall c <- cs :: c.MaxLen? || (c.MinLen? && c.length == 0)) ==> forall c <- cs :: Satisfied(c, Sample(kind), m)
  {
    assert Length(Sample(kind)) == Some(0);
  }

  /** The empty container of a kind some member names, held by every member. */
  predicate AnEmptyContainerInEveryMember(ms: seq<Schema>) {
    exists t <- ms ::
      TypeTag(t, SILENT).Some? && IsContainer(TypeTag(t, SILENT).value)
      && forall u <- ms :: HoldsTheExactEmpty(u, TypeTag(t, SILENT).value) == Some(true)
  }

  lemma AnEmptyContainerIsShared(ms: seq<Schema>, m: Meaning)
    requires AnEmptyContainerInEveryMember(ms)
    ensures HasValue(Intersection(ms), m)
  {
    var t :| t in ms && TypeTag(t, SILENT).Some? && IsContainer(TypeTag(t, SILENT).value)
      && forall u <- ms :: HoldsTheExactEmpty(u, TypeTag(t, SILENT).value) == Some(true);
    var kind := TypeTag(t, SILENT).value;
    forall u | u in ms ensures Member(Sample(kind), u, m) { TheExactEmptyIsRead(u, kind, m); }
    assert Member(Sample(kind), Intersection(ms), m);
  }

  /** The empty container is a value of the subject and none of the supertype's. */
  predicate TheEmptyRefused(a: Schema, b: Schema) {
    var kind := TypeTag(a, SILENT);
    kind.Some? && IsContainer(kind.value)
    && HoldsTheExactEmpty(a, kind.value) == Some(true) && HoldsTheExactEmpty(b, kind.value) == Some(false)
  }

  lemma TheEmptyIsOutside(a: Schema, b: Schema, m: Meaning)
    requires TheEmptyRefused(a, b)
    ensures Spills(a, b, m)
  {
    hide Member;
    var kind := TypeTag(a, SILENT).value;
    TheExactEmptyIsRead(a, kind, m);
    TheExactEmptyIsRead(b, kind, m);
  }

  /** The kind's empty container is surely admitted. */
  predicate AdmitsTheEmpty(s: Schema, kind: Kind) {
    if s.Seq? || s.Coll? then TypeTag(s, SILENT) == Some(kind) && (s.Coll? || s.prefix == [])
    else s.Refine? && AdmitsTheEmpty(s.base, kind) && forall c <- s.constraints :: c == MinLen(0) || c.MaxLen?
  }

  lemma {:induction false} TheEmptyIsAdmitted(s: Schema, kind: Kind, m: Meaning)
    requires AdmitsTheEmpty(s, kind)
    ensures IsContainer(kind) && Member(Sample(kind), s, m)
    ensures forall v :: Member(v, s, m) ==> KindOf(v) == Some(kind)
  {
    if s.Refine? { TheEmptyIsAdmitted(s.base, kind, m); }
  }

  lemma OnlyTheEmptyHasNoLength(v: Value, kind: Kind)
    requires KindOf(v) == Some(kind) && IsContainer(kind) && Length(v) == Some(0)
    ensures v == Sample(kind)
  {
    match v
    case VList(t) => assert t == [];
    case VTuple(t) => assert t == [];
    case VSet(t) => assert t == {};
    case VFrozenSet(t) => assert t == {};
    case VDict(t) => assert t == [];
  }

  /** The subject is cut to the empty container, and the supertype surely admits
      it. */
  predicate EmptyBelow(a: Schema, b: Schema) {
    a.Refine? && TypeTag(a.base, SILENT).Some?
    && AdmitsTheEmpty(a.base, TypeTag(a.base, SILENT).value)
    && MaxLen(0) in a.constraints
    && AdmitsTheEmpty(b, TypeTag(a.base, SILENT).value)
  }

  lemma TheEmptyAloneIsBelow(a: Schema, b: Schema, v: Value, m: Meaning)
    requires EmptyBelow(a, b)
    ensures Member(v, a, m) ==> Member(v, b, m)
  {
    var kind := TypeTag(a.base, SILENT).value;
    TheEmptyIsAdmitted(a.base, kind, m);
    TheEmptyIsAdmitted(b, kind, m);
    if Member(v, a, m) {
      assert Satisfied(MaxLen(0), v, m);
      OnlyTheEmptyHasNoLength(v, kind);
    }
  }

  // ---- Refutations a value by shape stands on.

  /** The empty sequence or set, which the supertype's least length refuses. */
  predicate ShorterThan(a: Schema, b: Schema) {
    HoldsAnElement(b) && (a.Seq? || a.Coll?) && StarElement(a).Some?
  }

  function EmptyOf(a: Schema): Value
    requires a.Seq? || a.Coll?
  {
    if a.Seq? then (if a.container.ListSeq? then VList([]) else VTuple([]))
    else if a.kind.SetColl? then VSet({}) else VFrozenSet({})
  }

  lemma TheEmptyIsTooShort(a: Schema, b: Schema, m: Meaning)
    requires ShorterThan(a, b)
    ensures Spills(a, b, m)
  {
    var v := EmptyOf(a);
    assert Member(v, a, m);
    if Member(v, b, m) { AnElementIsHeld(b, v, m); }
  }

  /** A region the subject reaches past the ones the supertype's kind admits. */
  predicate SpillsPast(a: Schema, b: Schema, o: Oracle) {
    RegionSet(a).Known? && TypeTag(b, o).Some?
    && !RegionSet(a).region.SubsetOf(AdmittedRegions(TypeTag(b, o).value))
  }

  lemma ARegionPastIsOutside(a: Schema, b: Schema, o: Oracle, m: Meaning)
    requires Truthful(o, m) && SpillsPast(a, b, o)
    ensures Spills(a, b, m)
  {
    var mine, kind := RegionSet(a).region, TypeTag(b, o).value;
    RegionsAreExact(a, VNone, m);
    AdmittedAreTheKinds(kind, NonePart);
    RegionInclusion(mine, AdmittedRegions(kind));
    var part :| mine.Has(part) && !AdmittedRegions(kind).Has(part);
    var v := PartSample(part);
    RegionsAreExact(a, v, m);
    if Member(v, b, m) {
      TagIsSound(b, o, v, m);
      AdmittedAreTheKinds(kind, part);
    }
  }

  /** Every part a value of the kind may be in is admitted. */
  lemma AdmittedAreTheKinds(kind: Kind, part: Part)
    ensures AdmittedRegions(kind).Valid()
    ensures forall v :: PartOf(v) == part && OfKind(v, kind) ==> AdmittedRegions(kind).Has(part)
  {
    KindRegionHas(kind, part);
    if kind.Int? {
      KindRegionHas(Kind.Bool, part);
      RegionOperations(KindRegion(Kind.Bool), KindRegion(Kind.Int), part);
    }
  }

  /** The supertype is a class, and the subject reaches a kind outside it. */
  predicate OutsideTheClass(a: Schema, b: Schema, o: Oracle) {
    b.Instance? &&
    (if a.Complement? then
       TypeTag(a.inner, o).Some?
       && exists kind <- EVERY_KIND ::
            !SharesValuesWith(kind, TypeTag(a.inner, o).value) && o.kindDerivesFrom(kind, b.class_) == Some(false)
     else TypeTag(a, o).Some? && o.kindDerivesFrom(TypeTag(a, o).value, b.class_) == Some(false))
  }

  lemma AKindIsOutsideTheClass(a: Schema, b: Schema, o: Oracle, m: Meaning)
    requires Truthful(o, m) && OutsideTheClass(a, b, o) && HasValue(a, m)
    ensures Spills(a, b, m)
  {
    hide Truthful, TypeTag;
    if a.Complement? {
      var excluded := TypeTag(a.inner, o).value;
      var kind :| kind in EVERY_KIND && !SharesValuesWith(kind, excluded) && o.kindDerivesFrom(kind, b.class_) == Some(false);
      if Member(Sample(kind), a.inner, m) { TagIsSound(a.inner, o, Sample(kind), m); }
      assert Member(Sample(kind), a, m);
      NoneOfTheKindIsAnInstance(kind, b.class_, Sample(kind), o, m);
    } else {
      var v :| Member(v, a, m);
      TagIsSound(a, o, v, m);
      NoneOfTheKindIsAnInstance(TypeTag(a, o).value, b.class_, v, o, m);
    }
  }

  lemma NoneOfTheKindIsAnInstance(kind: Kind, k: nat, v: Value, o: Oracle, m: Meaning)
    requires Truthful(o, m) && o.kindDerivesFrom(kind, k) == Some(false) && OfKind(v, kind)
    ensures !m.instance(k, v)
  {
  }

  // ---- Placements, which cost no step.

  /** The subject is a branch of the supertype, or the supertype a member of the
      subject's meet. */
  predicate PlacedByMembership(a: Schema, b: Schema) {
    (b.Union? && a in b.members) || (a.Intersection? && b in a.members)
  }

  lemma APlacementHolds(a: Schema, b: Schema, v: Value, m: Meaning)
    requires PlacedByMembership(a, b)
    ensures Member(v, a, m) ==> Member(v, b, m)
  {
    hide Exposed;
  }

  function Pushed(inner: Schema, gate: Gate): Option<Schema> {
    if inner.Union? then Some(MeetWithin(ComplementedAll(inner.members), gate, true))
    else if inner.Intersection? then Some(UnionWithin(ComplementedAll(inner.members), gate, true))
    else None
  }

  predicate PushedComplementIsPlaced(inner: Schema, b: Schema, gate: Gate) {
    var pushed := Pushed(inner, gate);
    pushed.Some? && (pushed.value == b || PlacedByMembership(pushed.value, b))
  }

  lemma {:induction false} ComplementedAllDenote(ms: seq<Schema>, v: Value, m: Meaning)
    ensures InAll(v, ComplementedAll(ms), m) <==> !InAny(v, ms, m)
    ensures InAny(v, ComplementedAll(ms), m) <==> !InAll(v, ms, m)
  {
    if ms != [] {
      var cs := ComplementedAll(ms);
      assert cs[1..] == ComplementedAll(ms[1..]);
      InSplit(v, ms, m);
      InSplit(v, cs, m);
      ComplementedDenotes(ms[0], v, m);
      ComplementedAllDenote(ms[1..], v, m);
    }
  }

  /** A complement pushed one level in is the same set. */
  lemma PushedDenotes(inner: Schema, gate: Gate, v: Value, m: Meaning)
    requires Pushed(inner, gate).Some?
    ensures Member(v, Pushed(inner, gate).value, m) <==> !Member(v, inner, m)
  {
    ComplementedAllDenote(inner.members, v, m);
    if inner.Union? {
      MeetDenotes(ComplementedAll(inner.members), gate, true, v, m);
    } else {
      UnionDenotes(ComplementedAll(inner.members), gate, true, v, m);
    }
  }

  lemma APushedPlacementHolds(inner: Schema, b: Schema, gate: Gate, v: Value, m: Meaning)
    requires PushedComplementIsPlaced(inner, b, gate)
    ensures Member(v, Complement(inner), m) ==> Member(v, b, m)
  {
    hide Member;
    hide Pushed;
    hide PlacedByMembership;
    InConnectives(v, [], inner, m);
    PushedDenotes(inner, gate, v, m);
    if PlacedByMembership(Pushed(inner, gate).value, b) { APlacementHolds(Pushed(inner, gate).value, b, v, m); }
  }

  // ---- `S & T` beside `S & ~T` is `S`.

  function Without(ms: seq<Schema>, gone: Schema): (r: seq<Schema>)
    ensures forall t :: t in r <==> t in ms && t != gone
  {
    if ms == [] then [] else (if ms[0] == gone then [] else [ms[0]]) + Without(ms[1..], gone)
  }

  function OtherThan(ms: seq<Schema>, at: nat, paired: nat): (r: seq<Schema>)
    requires at < |ms| && paired < |ms|
    ensures forall t <- r :: t in ms
    ensures forall i :: 0 <= i < |ms| && i != at && i != paired ==> ms[i] in r
  {
    if at < paired then OtherThanBoth(ms, at, paired)
    else if paired < at then OtherThanBoth(ms, paired, at)
    else ms[..at] + ms[at + 1..]
  }

  function OtherThanBoth(ms: seq<Schema>, low: nat, high: nat): seq<Schema>
    requires low < high < |ms|
  {
    ms[..low] + ms[low + 1..high] + ms[high + 1..]
  }

  predicate Splits(other: Schema, shared: seq<Schema>, parts: seq<Schema>) {
    other.Intersection? &&
    var held := Conjuncts(other);
    && (forall t <- held :: t in shared || t in parts)
    && (forall t <- shared :: t in held)
    && (forall t <- parts :: t in held)
  }

  function PairedAt(ms: seq<Schema>, at: nat, shared: seq<Schema>, parts: seq<Schema>, from: nat): (r: Option<nat>)
    requires from <= |ms|
    ensures r.Some? ==> r.value < |ms| && r.value != at && Splits(ms[r.value], shared, parts)
    decreases |ms| - from
  {
    if from == |ms| then None
    else if from != at && Splits(ms[from], shared, parts) then Some(from)
    else PairedAt(ms, at, shared, parts, from + 1)
  }

  function SplitFrom(ms: seq<Schema>, at: nat, holding: seq<Schema>, from: nat, gate: Gate): Option<Schema>
    requires at < |ms| && from <= |holding|
    decreases |holding| - from
  {
    if from == |holding| then None
    else if !holding[from].Complement? then SplitFrom(ms, at, holding, from + 1, gate)
    else
      var shared := Without(holding, holding[from]);
      var paired := PairedAt(ms, at, shared, Conjuncts(holding[from].inner), 0);
      if paired.None? || !gate(Asked(true, true), holding[from].inner) then SplitFrom(ms, at, holding, from + 1, gate)
      else Some(UnionWithin(OtherThan(ms, at, paired.value) + [MeetWithin(shared, gate, true)], gate, true))
  }

  predicate MayHoldASplit(s: Schema) {
    s.Intersection? && exists t <- s.members :: t.Complement? || t.Intersection?
  }

  function MergedFrom(ms: seq<Schema>, at: nat, gate: Gate): Option<Schema>
    requires at <= |ms|
    decreases |ms| - at
  {
    if at == |ms| then None
    else
      var found := if MayHoldASplit(ms[at]) then SplitFrom(ms, at, Conjuncts(ms[at]), 0, gate) else None;
      if found.Some? then found else MergedFrom(ms, at + 1, gate)
  }

  /** The union the members denote with two branches merged, or `None`. */
  function MergedSplit(ms: seq<Schema>, gate: Gate): Option<Schema> { MergedFrom(ms, 0, gate) }

  lemma {:induction false} SplitFromDenotes(ms: seq<Schema>, at: nat, from: nat, gate: Gate, v: Value, m: Meaning)
    requires at < |ms| && from <= |Conjuncts(ms[at])|
    ensures var r := SplitFrom(ms, at, Conjuncts(ms[at]), from, gate);
      r.Some? ==> (Member(v, r.value, m) <==> InAny(v, ms, m))
    decreases |Conjuncts(ms[at])| - from
  {
    hide Splits, UnionWithin, MeetWithin, Exposed, Without, OtherThan, PairedAt, ConjunctsOfAll;
    hide Member;
    var holding := Conjuncts(ms[at]);
    if from < |holding| {
      SplitFromDenotes(ms, at, from + 1, gate, v, m);
      if holding[from].Complement? {
        var shared, parts := Without(holding, holding[from]), Conjuncts(holding[from].inner);
        var paired := PairedAt(ms, at, shared, parts, 0);
        if paired.Some? { MergingDenotes(ms, at, paired.value, holding[from], gate, v, m); }
      }
    }
  }

  lemma MergingDenotes(ms: seq<Schema>, at: nat, paired: nat, complement: Schema, gate: Gate, v: Value, m: Meaning)
    requires at < |ms| && paired < |ms| && at != paired
    requires complement in Conjuncts(ms[at]) && complement.Complement?
    requires Splits(ms[paired], Without(Conjuncts(ms[at]), complement), Conjuncts(complement.inner))
    ensures var merged := MeetWithin(Without(Conjuncts(ms[at]), complement), gate, true);
      Member(v, UnionWithin(OtherThan(ms, at, paired) + [merged], gate, true), m) <==> InAny(v, ms, m)
  {
    hide Member;
    var shared, parts := Without(Conjuncts(ms[at]), complement), Conjuncts(complement.inner);
    var merged, rest := MeetWithin(shared, gate, true), OtherThan(ms, at, paired);
    UnionDenotes(rest + [merged], gate, true, v, m);
    InConcatenation(v, rest, [merged], m);
    assert merged in [merged];
    MeetDenotes(shared, gate, true, v, m);
    ConjunctsDenote(ms[at], v, m);
    ConjunctsDenote(ms[paired], v, m);
    ConjunctsDenote(complement.inner, v, m);
    TheSplitIsTheSet(Conjuncts(ms[at]), Conjuncts(ms[paired]), shared, parts, complement, v, m);
    TwoAndTheRest(ms, at, paired, v, m);
  }

  lemma TheSplitIsTheSet(holding: seq<Schema>, other: seq<Schema>, shared: seq<Schema>, parts: seq<Schema>, complement: Schema, v: Value, m: Meaning)
    requires complement.Complement? && complement in holding
    requires forall t :: t in shared <==> t in holding && t != complement
    requires forall t :: t in other <==> t in shared || t in parts
    requires InAll(v, parts, m) <==> Member(v, complement.inner, m)
    ensures InAll(v, shared, m) <==> InAll(v, holding, m) || InAll(v, other, m)
  {
    assert InAll(v, holding, m) <==> InAll(v, shared, m) && Member(v, complement, m);
    assert InAll(v, other, m) <==> InAll(v, shared, m) && InAll(v, parts, m);
  }

  lemma TwoAndTheRest(ms: seq<Schema>, at: nat, paired: nat, v: Value, m: Meaning)
    requires at < |ms| && paired < |ms|
    ensures InAny(v, ms, m) <==>
      InAny(v, OtherThan(ms, at, paired), m) || Member(v, ms[at], m) || Member(v, ms[paired], m)
  {
    var rest := OtherThan(ms, at, paired);
    forall t | t in ms ensures t in rest || t == ms[at] || t == ms[paired] {
      var i :| 0 <= i < |ms| && ms[i] == t;
      assert i != at && i != paired ==> ms[i] in rest;
    }
    SameMembers(ms, rest + [ms[at], ms[paired]], v, m);
    InConcatenation(v, rest, [ms[at], ms[paired]], m);
    InSplit(v, [ms[at], ms[paired]], m);
    InSplit(v, [ms[at], ms[paired]][1..], m);
  }

  /** The merged term denotes the union of the members, in every case. */
  lemma {:induction false} MergedFromDenotes(ms: seq<Schema>, at: nat, gate: Gate, v: Value, m: Meaning)
    requires at <= |ms|
    ensures MergedFrom(ms, at, gate).Some? ==> (Member(v, MergedFrom(ms, at, gate).value, m) <==> InAny(v, ms, m))
    decreases |ms| - at
  {
    if at < |ms| {
      if MayHoldASplit(ms[at]) { SplitFromDenotes(ms, at, 0, gate, v, m); }
      MergedFromDenotes(ms, at + 1, gate, v, m);
    }
  }

  lemma MergedSplitDenotes(ms: seq<Schema>, gate: Gate, v: Value, m: Meaning)
    requires MergedSplit(ms, gate).Some?
    ensures Member(v, MergedSplit(ms, gate).value, m) <==> InAny(v, ms, m)
  {
    MergedFromDenotes(ms, 0, gate, v, m);
  }

  lemma {:induction false} SplitFromExposes(ms: seq<Schema>, at: nat, from: nat, gate: Gate, rank: seq<nat>, bound: nat)
    requires at < |ms| && from <= |Conjuncts(ms[at])| && ExposeAtMost(ms, rank, bound)
    ensures var r := SplitFrom(ms, at, Conjuncts(ms[at]), from, gate); r.Some? ==> Exposed(r.value, rank) <= bound
    decreases |Conjuncts(ms[at])| - from
  {
    var holding := Conjuncts(ms[at]);
    if from < |holding| {
      SplitFromExposes(ms, at, from + 1, gate, rank, bound);
      if holding[from].Complement? {
        var shared := Without(holding, holding[from]);
        var paired := PairedAt(ms, at, shared, Conjuncts(holding[from].inner), 0);
        if paired.Some? {
          ConjunctsExpose(ms[at], rank);
          assert ms[at] in ms;
          assert ExposeAtMost(shared, rank, bound);
          MeetExposes(shared, gate, true, rank, bound);
          UnionExposes(OtherThan(ms, at, paired.value) + [MeetWithin(shared, gate, true)], gate, true, rank, bound);
        }
      }
    }
  }

  lemma {:induction false} MergedFromExposes(ms: seq<Schema>, at: nat, gate: Gate, rank: seq<nat>, bound: nat)
    requires at <= |ms| && ExposeAtMost(ms, rank, bound)
    ensures MergedFrom(ms, at, gate).Some? ==> Exposed(MergedFrom(ms, at, gate).value, rank) <= bound
    decreases |ms| - at
  {
    if at < |ms| {
      if MayHoldASplit(ms[at]) { SplitFromExposes(ms, at, 0, gate, rank, bound); }
      MergedFromExposes(ms, at + 1, gate, rank, bound);
    }
  }
}
