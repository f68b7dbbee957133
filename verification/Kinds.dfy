/** The builtin kinds, and sets of the seven parts they cut the universe into, a bit
    for each. */
module Kinds {
  import opened Verdicts

  datatype Kind =
    | NoneType | Bool | Int | Float | Str | Bytes
    | List | Tuple | Set | FrozenSet | Dict

  const EVERY_KIND: set<Kind> := {Kind.NoneType, Kind.Bool, Kind.Int, Kind.Float, Kind.Str,
                                  Kind.Bytes, Kind.List, Kind.Tuple, Kind.Set, Kind.FrozenSet, Kind.Dict}

  /** The kinds are apart, save that each truth value is an integer. */
  predicate SharesValuesWith(a: Kind, b: Kind) {
    a == b || (a.Bool? && b.Int?) || (a.Int? && b.Bool?)
  }

  /** Every kind that has some value of this one. */
  function Sharing(kind: Kind): set<Kind> {
    if kind.Bool? || kind.Int? then {Kind.Bool, Kind.Int} else {kind}
  }

  /** The seven parts the universe is cut into: one a scalar kind, and one for
      everything else. */
  datatype Part = NonePart | BoolPart | IntPart | FloatPart | StrPart | BytesPart | OtherPart

  function Bit(part: Part): bv8 {
    match part
    case NonePart => 1
    case BoolPart => 2
    case IntPart => 4
    case FloatPart => 8
    case StrPart => 16
    case BytesPart => 32
    case OtherPart => 64
  }

  /** A set of parts, one bit each; the eighth bit is unused. */
  datatype Region = Region(bits: bv8) {

    predicate Valid() { bits & 128 == 0 }

    predicate Has(part: Part) { bits & Bit(part) != 0 }

    function Union(other: Region): Region { Region(bits | other.bits) }

    function Intersect(other: Region): Region { Region(bits & other.bits) }

    function Complement(): Region { Region(ALL.bits & !bits) }

    predicate IsEmpty() { bits == 0 }

    predicate SubsetOf(other: Region) { Intersect(other.Complement()).IsEmpty() }
  }

  const EMPTY: Region := Region(0)
  const ALL: Region := Region(127)

  function KindRegion(kind: Kind): Region {
    match kind
    case NoneType => Region(1)
    case Bool => Region(2)
    case Int => Region(4)
    case Float => Region(8)
    case Str => Region(16)
    case Bytes => Region(32)
    case List | Tuple | Set | FrozenSet | Dict => Region(64)
  }

  /** Where a value can lie when its schema has this tag. */
  function AdmittedRegions(kind: Kind): Region {
    if kind.Int? then KindRegion(Kind.Bool).Union(KindRegion(Kind.Int)) else KindRegion(kind)
  }

  /** A region set, or `Unknown` where the schema is not scalar-decidable. */
  datatype Regions = Known(region: Region) | Unknown {

    function Union(other: Regions): Regions {
      if Known? && other.Known? then Known(region.Union(other.region)) else Regions.Unknown
    }

    function Intersect(other: Regions): Regions {
      if Known? && other.Known? then Known(region.Intersect(other.region)) else Regions.Unknown
    }

    function Complement(): Regions {
      if Known? then Known(region.Complement()) else Regions.Unknown
    }

    predicate Valid() { Known? ==> region.Valid() }

    function Settles(): Verdict {
      if Unknown? then Verdict.Unknown else if region.IsEmpty() then Verdict.Empty else Verdict.Inhabited
    }
  }

  const UNION_UNIT: Regions := Known(EMPTY)
  const MEET_UNIT: Regions := Known(ALL)

  /** The bit operations are the set operations on the parts. */
  lemma RegionOperations(a: Region, b: Region, part: Part)
    ensures a.Union(b).Has(part) <==> a.Has(part) || b.Has(part)
    ensures a.Intersect(b).Has(part) <==> a.Has(part) && b.Has(part)
    ensures a.Complement().Has(part) <==> !a.Has(part)
    ensures a.Valid() && b.Valid() ==> a.Union(b).Valid() && a.Intersect(b).Valid()
    ensures a.Complement().Valid()
  {
    match part
    case NonePart =>
    case BoolPart =>
    case IntPart =>
    case FloatPart =>
    case StrPart =>
    case BytesPart =>
    case OtherPart =>
  }

  /** `SubsetOf` and `IsEmpty` decide inclusion and emptiness of the sets of
      parts, exactly. */
  lemma RegionInclusion(a: Region, b: Region)
    requires a.Valid() && b.Valid()
    ensures a.SubsetOf(b) <==> forall part: Part :: a.Has(part) ==> b.Has(part)
    ensures a.IsEmpty() <==> forall part: Part :: !a.Has(part)
    ensures a == b <==> forall part: Part :: a.Has(part) <==> b.Has(part)
  {
    HasBits(a);
    HasBits(b);
    forall part: Part ensures a.SubsetOf(b) && a.Has(part) ==> b.Has(part) {
      match part
      case NonePart =>
      case BoolPart =>
      case IntPart =>
      case FloatPart =>
      case StrPart =>
      case BytesPart =>
      case OtherPart =>
    }
  }

  lemma HasBits(r: Region)
    ensures r.Has(NonePart) <==> r.bits & 1 != 0
    ensures r.Has(BoolPart) <==> r.bits & 2 != 0
    ensures r.Has(IntPart) <==> r.bits & 4 != 0
    ensures r.Has(FloatPart) <==> r.bits & 8 != 0
    ensures r.Has(StrPart) <==> r.bits & 16 != 0
    ensures r.Has(BytesPart) <==> r.bits & 32 != 0
    ensures r.Has(OtherPart) <==> r.bits & 64 != 0
  {
  }
}
