/** The two three-valued answers: what is established about a relation between
    two schemas, and what is established about one schema's set. */
module Verdicts {

  datatype Option<+T> = None | Some(value: T)

  /** A proof of inclusion, a proof that some value spills, or nothing proved. */
  datatype Relation = Holds | Fails | Unknown

  datatype Verdict = Empty | Inhabited | Unknown

  /** The verdict for a value of both, and of either. */
  function Both(a: Verdict, b: Verdict): Verdict {
    if a.Empty? || b.Empty? then Verdict.Empty
    else if a.Unknown? || b.Unknown? then Verdict.Unknown
    else Verdict.Inhabited
  }

  function Either(a: Verdict, b: Verdict): Verdict {
    if a.Inhabited? || b.Inhabited? then Verdict.Inhabited
    else if a.Unknown? || b.Unknown? then Verdict.Unknown
    else Verdict.Empty
  }

  function Decided(held: bool): Relation {
    if held then Relation.Holds else Relation.Fails
  }

  function Proven(held: bool): Relation {
    if held then Relation.Holds else Relation.Unknown
  }

  /** What a mismatch comes to: a refutation of an inhabited subject, and a proof of
      an empty one. */
  function OfMismatch(subject: Verdict): Relation {
    match subject
    case Empty => Relation.Holds
    case Inhabited => Relation.Fails
    case Unknown => Relation.Unknown
  }

  /** Kleene's strong conjunction, read off the answers with no order among them. */
  ghost function Conjunction(items: seq<Relation>): Relation {
    if Relation.Fails in items then Relation.Fails
    else if Relation.Unknown in items then Relation.Unknown
    else Relation.Holds
  }

  /** Kleene's strong disjunction. */
  ghost function Disjunction(items: seq<Relation>): Relation {
    if Relation.Holds in items then Relation.Holds
    else if Relation.Unknown in items then Relation.Unknown
    else Relation.Fails
  }

  /** All of the parts at once, in no order. */
  ghost function EveryPart(parts: seq<Verdict>): Verdict {
    if Verdict.Empty in parts then Verdict.Empty
    else if Verdict.Unknown in parts then Verdict.Unknown
    else Verdict.Inhabited
  }

  /** One of the parts at least, in no order. */
  ghost function AnyPart(parts: seq<Verdict>): Verdict {
    if Verdict.Inhabited in parts then Verdict.Inhabited
    else if Verdict.Unknown in parts then Verdict.Unknown
    else Verdict.Empty
  }

  method All(items: seq<Relation>) returns (answer: Relation)
    ensures answer == Conjunction(items)
  {
    var declined := false;
    for i := 0 to |items|
      invariant Relation.Fails !in items[..i]
      invariant declined <==> Relation.Unknown in items[..i]
    {
      match items[i] {
        case Holds =>
        case Unknown => declined := true;
        case Fails => return Relation.Fails;
      }
    }
    return if declined then Relation.Unknown else Relation.Holds;
  }

  method Any(items: seq<Relation>) returns (answer: Relation)
    ensures answer == Disjunction(items)
  {
    var declined := false;
    for i := 0 to |items|
      invariant Relation.Holds !in items[..i]
      invariant declined <==> Relation.Unknown in items[..i]
    {
      match items[i] {
        case Holds => return Relation.Holds;
        case Unknown => declined := true;
        case Fails =>
      }
    }
    return if declined then Relation.Unknown else Relation.Fails;
  }

  method Every(parts: seq<Verdict>) returns (verdict: Verdict)
    ensures verdict == EveryPart(parts)
  {
    verdict := Verdict.Inhabited;
    for i := 0 to |parts|
      invariant verdict == EveryPart(parts[..i]) && Verdict.Empty !in parts[..i]
    {
      match parts[i] {
        case Empty => return Verdict.Empty;
        case Unknown => verdict := Verdict.Unknown;
        case Inhabited =>
      }
    }
    assert parts[..|parts|] == parts;
  }

  method AnyOf(parts: seq<Verdict>) returns (verdict: Verdict)
    ensures verdict == AnyPart(parts)
  {
    verdict := Verdict.Empty;
    for i := 0 to |parts|
      invariant verdict == AnyPart(parts[..i]) && Verdict.Inhabited !in parts[..i]
    {
      match parts[i] {
        case Inhabited => return Verdict.Inhabited;
        case Unknown => verdict := Verdict.Unknown;
        case Empty =>
      }
    }
    assert parts[..|parts|] == parts;
  }
}
