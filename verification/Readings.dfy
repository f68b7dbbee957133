/** What is read off two terms with no goal asked: the regions, the kinds, the
    lengths and the disjointness of a pair. */
module Readings {
  import opened Verdicts
  import opened Kinds
  import opened Schemas
  import opened Values

  // ---- Every kind holds a value.

  function Sample(kind: Kind): (v: Value)
    ensures KindOf(v) == Some(kind)
  {
    match kind
    case NoneType => VNone
    case Bool => VBool(false)
    case Int => VInt(0)
    case Float => VFloat(0.0)
    case Str => VStr("")
    case Bytes => VBytes([])
    case List => VList([])
    case Tuple => VTuple([])
    case Set => VSet({})
    case FrozenSet => VFrozenSet({})
    case Dict => VDict([])
  }

  function PartSample(part: Part): (v: Value)
    ensures PartOf(v) == part
  {
    match part
    case NonePart => VNone
    case BoolPart => VBool(false)
    case IntPart => VInt(0)
    case FloatPart => VFloat(0.0)
    case StrPart => VStr("")
    case BytesPart => VBytes([])
    case OtherPart => VList([])
  }

  // ---- Regions.

  function AtomRegion(s: Schema): Option<Region> {
    match s
    case NoneType => Some(KindRegion(Kind.NoneType))
    case Bool => Some(KindRegion(Kind.Bool))
    case Int => Some(KindRegion(Kind.Bool).Union(KindRegion(Kind.Int)))
    case Float => Some(KindRegion(Kind.Float))
    case Str => Some(KindRegion(Kind.Str))
    case Bytes => Some(KindRegion(Kind.Bytes))
    case _ => None
  }

  /** The regions a term denotes exactly, or `Unknown` off the scalar fragment. */
  function RegionSet(s: Schema): Regions
    decreases s, 1
  {
    if AtomRegion(s).Some? then Known(AtomRegion(s).value) else
    match s
    case Nothing => Known(EMPTY)
    case Anything => Known(ALL)
    case Union(ms) => RegionJoin(ms, UNION_UNIT)
    case Intersection(ms) => RegionMeet(ms, MEET_UNIT)
    case Complement(t) => RegionSet(t).Complement()
    case Refine(t, cs) => if cs == [] then RegionSet(t) else Regions.Unknown
    case _ => Regions.Unknown
  }

  /** The fold over a union's members, stopped at the absorbing `Unknown`. */
  function RegionJoin(ms: seq<Schema>, acc: Regions): Regions
    decreases ms, 0
  {
    if ms == [] then acc else
    var next := acc.Union(RegionSet(ms[0]));
    if next.Unknown? then next else RegionJoin(ms[1..], next)
  }

  function RegionMeet(ms: seq<Schema>, acc: Regions): Regions
    decreases ms, 0
  {
    if ms == [] then acc else
    var next := acc.Intersect(RegionSet(ms[0]));
    if next.Unknown? then next else RegionMeet(ms[1..], next)
  }

  /** Exactly the values whose part the region set has. */
  ghost predicate Denotes(r: Regions, s: Schema, v: Value, m: Meaning)
  {
    r.Known? ==> r.region.Valid() && (Member(v, s, m) <==> r.region.Has(PartOf(v)))
  }

  /** The region fold is exact on every scalar Boolean combination. */
  lemma {:induction false} RegionsAreExact(s: Schema, v: Value, m: Meaning)
    ensures Denotes(RegionSet(s), s, v, m)
    decreases s, 1
  {
    if AtomRegion(s).Some? {
      AtomRegionsAreExact(s, v, m);
    } else {
      EveryPartIsHeld(PartOf(v));
      match s
      case Union(ms) => JoinIsExact(ms, UNION_UNIT, v, m);
      case Intersection(ms) => MeetIsExact(ms, MEET_UNIT, v, m);
      case Complement(t) =>
        RegionsAreExact(t, v, m);
        if RegionSet(t).Known? { RegionOperations(RegionSet(t).region, EMPTY, PartOf(v)); }
      case Refine(t, cs) => if cs == [] { RegionsAreExact(t, v, m); }
      case _ =>
    }
  }

  lemma EveryPartIsHeld(part: Part)
    ensures ALL.Has(part) && !EMPTY.Has(part)
  {
    HasBits(ALL);
    match part
    case NonePart =>
    case BoolPart =>
    case IntPart =>
    case FloatPart =>
    case StrPart =>
    case BytesPart =>
    case OtherPart =>
  }

  lemma KindRegionHas(kind: Kind, part: Part)
    ensures KindRegion(kind).Valid()
    ensures KindRegion(kind).Has(part) <==> part == PartOf(Sample(kind))
  {
    HasBits(KindRegion(kind));
    match part
    case NonePart =>
    case BoolPart =>
    case IntPart =>
    case FloatPart =>
    case StrPart =>
    case BytesPart =>
    case OtherPart =>
  }

  lemma AtomRegionsAreExact(s: Schema, v: Value, m: Meaning)
    ensures AtomRegion(s).Some? ==> Denotes(Known(AtomRegion(s).value), s, v, m)
  {
    hide Exposed;
    hide Satisfied;
    forall kind ensures KindRegion(kind).Valid()
      && (KindRegion(kind).Has(PartOf(v)) <==> PartOf(v) == PartOf(Sample(kind)))
    {
      KindRegionHas(kind, PartOf(v));
    }
    RegionOperations(KindRegion(Kind.Bool), KindRegion(Kind.Int), PartOf(v));
  }

  lemma {:induction false} JoinIsExact(ms: seq<Schema>, acc: Regions, v: Value, m: Meaning)
    requires acc.Known? && acc.region.Valid()
    ensures RegionJoin(ms, acc).Known? ==> RegionJoin(ms, acc).region.Valid()
    ensures RegionJoin(ms, acc).Known? ==>
      (RegionJoin(ms, acc).region.Has(PartOf(v)) <==> acc.region.Has(PartOf(v)) || InAny(v, ms, m))
    decreases ms, 0
  {
    hide Member;
    if ms != [] {
      InSplit(v, ms, m);
      RegionsAreExact(ms[0], v, m);
      var next := acc.Union(RegionSet(ms[0]));
      if next.Known? {
        RegionOperations(acc.region, RegionSet(ms[0]).region, PartOf(v));
        JoinIsExact(ms[1..], next, v, m);
      }
    }
  }

  lemma {:induction false} MeetIsExact(ms: seq<Schema>, acc: Regions, v: Value, m: Meaning)
    requires acc.Known? && acc.region.Valid()
    ensures RegionMeet(ms, acc).Known? ==> RegionMeet(ms, acc).region.Valid()
    ensures RegionMeet(ms, acc).Known? ==>
      (RegionMeet(ms, acc).region.Has(PartOf(v)) <==> acc.region.Has(PartOf(v)) && InAll(v, ms, m))
    decreases ms, 0
  {
    hide Exposed;
    if ms != [] {
      InSplit(v, ms, m);
      RegionsAreExact(ms[0], v, m);
      var next := acc.Intersect(RegionSet(ms[0]));
      if next.Known? {
        RegionOperations(acc.region, RegionSet(ms[0]).region, PartOf(v));
        MeetIsExact(ms[1..], next, v, m);
      }
    }
  }

  /** On the scalar fragment inclusion of the region sets is inclusion of the
      schemas, both ways. */
  lemma RegionsDecideInclusion(a: Schema, b: Schema, m: Meaning)
    requires RegionSet(a).Known? && RegionSet(b).Known?
    ensures RegionSet(a).region.SubsetOf(RegionSet(b).region) <==> Included(a, b, m)
  {
    if Included(a, b, m) {
      InclusionBoundsRegions(a, b, m);
    } else {
      var v :| Member(v, a, m) && !Member(v, b, m);
      if RegionSet(a).region.SubsetOf(RegionSet(b).region) { RegionsBoundMembers(a, b, v, m); }
    }
  }

  lemma InclusionBoundsRegions(a: Schema, b: Schema, m: Meaning)
    requires RegionSet(a).Known? && RegionSet(b).Known? && Included(a, b, m)
    ensures RegionSet(a).region.SubsetOf(RegionSet(b).region)
  {
    forall part: Part ensures RegionSet(a).region.Has(part) ==> RegionSet(b).region.Has(part) {
      RegionsAreExact(a, PartSample(part), m);
      RegionsAreExact(b, PartSample(part), m);
    }
    RegionsAreExact(a, VNone, m);
    RegionsAreExact(b, VNone, m);
    RegionInclusion(RegionSet(a).region, RegionSet(b).region);
  }

  lemma RegionsBoundMembers(a: Schema, b: Schema, v: Value, m: Meaning)
    requires RegionSet(a).Known? && RegionSet(b).Known?
    requires RegionSet(a).region.SubsetOf(RegionSet(b).region)
    ensures Member(v, a, m) ==> Member(v, b, m)
  {
    RegionsAreExact(a, v, m);
    RegionsAreExact(b, v, m);
    RegionInclusion(RegionSet(a).region, RegionSet(b).region);
  }

  /** A known region set settles emptiness, both ways. */
  lemma RegionsDecideEmptiness(s: Schema, m: Meaning)
    requires RegionSet(s).Known?
    ensures RegionSet(s).region.IsEmpty() <==> !HasValue(s, m)
  {
    hide Member;
    var x := RegionSet(s).region;
    RegionsAreExact(s, VNone, m);
    RegionInclusion(x, EMPTY);
    if !x.IsEmpty() {
      var part :| x.Has(part);
      RegionsAreExact(s, PartSample(part), m);
    } else {
      forall v ensures !Member(v, s, m) { RegionsAreExact(s, v, m); }
    }
  }

  /** Stopping the fold at `Unknown` never changes its result: it is the fold that
      reads every member. */
  ghost function JoinOfAll(ms: seq<Schema>, acc: Regions): Regions {
    if ms == [] then acc else JoinOfAll(ms[1..], acc.Union(RegionSet(ms[0])))
  }

  lemma {:induction false} StoppingChangesNothing(ms: seq<Schema>, acc: Regions)
    ensures RegionJoin(ms, acc) == JoinOfAll(ms, acc) || (acc.Unknown? && JoinOfAll(ms, acc).Unknown?)
    ensures acc.Unknown? ==> JoinOfAll(ms, acc).Unknown?
  {
    if ms != [] { StoppingChangesNothing(ms[1..], acc.Union(RegionSet(ms[0]))); }
  }

  /** The regions of the members that have them, read past the others. */
  function Covered(ms: seq<Schema>, acc: Region): Region {
    if ms == [] then acc
    else if RegionSet(ms[0]).Unknown? then Covered(ms[1..], acc)
    else
      var next := acc.Union(RegionSet(ms[0]).region);
      if next == ALL then next else Covered(ms[1..], next)
  }

  predicate CoversTheUniverse(s: Schema) {
    if s.Union? then Covered(s.members, EMPTY) == ALL else RegionSet(s) == Known(ALL)
  }

  lemma {:induction false} CoveredIsHeld(ms: seq<Schema>, acc: Region, v: Value, m: Meaning)
    requires acc.Valid()
    ensures Covered(ms, acc).Valid()
    ensures Covered(ms, acc).Has(PartOf(v)) ==> acc.Has(PartOf(v)) || InAny(v, ms, m)
  {
    if ms != [] {
      InSplit(v, ms, m);
      RegionsAreExact(ms[0], v, m);
      if RegionSet(ms[0]).Known? {
        RegionOperations(acc, RegionSet(ms[0]).region, PartOf(v));
        CoveredIsHeld(ms[1..], acc.Union(RegionSet(ms[0]).region), v, m);
      } else {
        CoveredIsHeld(ms[1..], acc, v, m);
      }
    }
  }

  lemma TheUniverseIsCovered(s: Schema, v: Value, m: Meaning)
    requires CoversTheUniverse(s)
    ensures Member(v, s, m)
  {
    EveryPartIsHeld(PartOf(v));
    if s.Union? {
      CoveredIsHeld(s.members, EMPTY, v, m);
    } else {
      RegionsAreExact(s, v, m);
    }
  }
}
