/** The kinds a term holds whole and the kinds it may hold a value of, read on
    one walk of bounded length. */
module KindWalk {
  import opened Verdicts
  import opened Kinds
  import opened Schemas
  import opened Values
  import opened Oracles
  import opened Readings

  const KIND_WALK: nat := 64

  /** The kinds read, and the nodes the walk has left. */
  datatype Walked = Walked(kinds: set<Kind>, left: nat)

  /** The kind of a node whose disjointness the core decides; a refinement has
      its base's. */
  function TypeTag(s: Schema, oracle: Oracle): Option<Kind> {
    if s.Literal? then oracle.literalKind(s.constant)
    else if s.NoneType? then Some(Kind.NoneType)
    else if s.Bool? then Some(Kind.Bool)
    else if s.Int? then Some(Kind.Int)
    else if s.Float? then Some(Kind.Float)
    else if s.Str? then Some(Kind.Str)
    else if s.Bytes? then Some(Kind.Bytes)
    else if s.Seq? then Some(if s.container.ListSeq? then Kind.List else Kind.Tuple)
    else if s.Coll? then Some(if s.kind.SetColl? then Kind.Set else Kind.FrozenSet)
    else if s.Refine? then TypeTag(s.base, oracle)
    else None
  }

  /** The kinds a node with no member of its own holds every value of. */
  function AtomWhole(s: Schema): set<Kind> {
    match s
    case Anything => EVERY_KIND
    case NoneType => {Kind.NoneType}
    case Bool => {Kind.Bool}
    case Int => Sharing(Kind.Int)
    case Float => {Kind.Float}
    case Str => {Kind.Str}
    case Bytes => {Kind.Bytes}
    case Seq(k, prefix, tail) => if k.TupleSeq? && prefix == [] && tail == Some(Anything) then {Kind.Tuple} else {}
    case Coll(k, element) => if k.FrozenSetColl? && element.Anything? then {Kind.FrozenSet} else {}
    case _ => {}
  }

  /** The kinds every value of which `s` holds. */
  function Whole(s: Schema, q: Setting, left: nat): (r: Walked)
    ensures r.left <= left
    decreases left, 0, 0
  {
    if left == 0 || s.Literal? then Walked({}, left)
    else if s.Union? then WholeOfUnion(s.members, {}, q, left - 1)
    else if s.Intersection? then WholeOfMeet(s.members, EVERY_KIND, q, left - 1)
    else if s.Complement? then
      var inner := Possibly(s.inner, q, left - 1);
      Walked(EVERY_KIND - inner.kinds, inner.left)
    else if s.Ref? && s.definition < |q.defs| then Whole(q.defs[s.definition], q, left - 1)
    else Walked(AtomWhole(s), left - 1)
  }

  function WholeOfUnion(ms: seq<Schema>, held: set<Kind>, q: Setting, left: nat): (r: Walked)
    ensures r.left <= left
    decreases left, 1, |ms|
  {
    if ms == [] then Walked(held, left) else
    var first := Whole(ms[0], q, left);
    WholeOfUnion(ms[1..], held + first.kinds, q, first.left)
  }

  function WholeOfMeet(ms: seq<Schema>, held: set<Kind>, q: Setting, left: nat): (r: Walked)
    ensures r.left <= left
    decreases left, 1, |ms|
  {
    if ms == [] then Walked(held, left) else
    var first := Whole(ms[0], q, left);
    WholeOfMeet(ms[1..], held * first.kinds, q, first.left)
  }

  /** The kinds that share a value with the node's own, and every kind where it has
      none. */
  function TaggedKinds(s: Schema, oracle: Oracle): set<Kind> {
    var tag := TypeTag(s, oracle);
    if tag.Some? then Sharing(tag.value) else EVERY_KIND
  }

  /** The kinds `s` may hold a value of. */
  function Possibly(s: Schema, q: Setting, left: nat): (r: Walked)
    ensures r.left <= left
    decreases left, 0, 0
  {
    if s.Literal? then Walked(TaggedKinds(s, q.oracle), left)
    else if left == 0 then Walked(EVERY_KIND, left)
    else if s.Nothing? then Walked({}, left - 1)
    else if s.Union? then PossiblyOfUnion(s.members, {}, q, left - 1)
    else if s.Intersection? then PossiblyOfMeet(s.members, EVERY_KIND, q, left - 1)
    else if s.Complement? then
      var inner := Whole(s.inner, q, left - 1);
      Walked(EVERY_KIND - inner.kinds, inner.left)
    else if s.Refine? then Possibly(s.base, q, left - 1)
    else if s.Ref? && s.definition < |q.defs| then Possibly(q.defs[s.definition], q, left - 1)
    else Walked(TaggedKinds(s, q.oracle), left - 1)
  }

  function PossiblyOfUnion(ms: seq<Schema>, held: set<Kind>, q: Setting, left: nat): (r: Walked)
    ensures r.left <= left
    decreases left, 1, |ms|
  {
    if ms == [] then Walked(held, left) else
    var first := Possibly(ms[0], q, left);
    PossiblyOfUnion(ms[1..], held + first.kinds, q, first.left)
  }

  function PossiblyOfMeet(ms: seq<Schema>, held: set<Kind>, q: Setting, left: nat): (r: Walked)
    ensures r.left <= left
    decreases left, 1, |ms|
  {
    if ms == [] then Walked(held, left) else
    var first := Possibly(ms[0], q, left);
    PossiblyOfMeet(ms[1..], held * first.kinds, q, first.left)
  }

  function KindsHeldWhole(s: Schema, q: Setting): set<Kind> { Whole(s, q, KIND_WALK).kinds }

  function KindsPossiblyHeld(s: Schema, q: Setting): set<Kind> { Possibly(s, q, KIND_WALK).kinds }

  /** The kinds no walk reads whole off a bare container, so a term read as
      holding one whole holds every value of no kind too. */
  const UNREAD: set<Kind> := {Kind.List, Kind.Set, Kind.Dict}

  ghost predicate HeldWhole(kinds: set<Kind>, s: Schema, v: Value, m: Meaning)
  {
    match KindOf(v)
    case Some(kind) => kind in kinds ==> Member(v, s, m)
    case None => kinds * UNREAD != {} ==> Member(v, s, m)
  }

  ghost predicate HeldPossibly(kinds: set<Kind>, s: Schema, v: Value, m: Meaning)
  {
    match KindOf(v)
    case Some(kind) => Member(v, s, m) ==> kind in kinds
    case None => Member(v, s, m) ==> UNREAD <= kinds
  }

  lemma TagIsSound(s: Schema, oracle: Oracle, v: Value, m: Meaning)
    requires Truthful(oracle, m) && TypeTag(s, oracle).Some? && Member(v, s, m)
    ensures OfKind(v, TypeTag(s, oracle).value)
  {
  }

  /** The two readings are sound of every value, those of no kind included. */
  lemma AnAtomHoldsItsKindWhole(s: Schema, v: Value, m: Meaning)
    ensures KindOf(v).Some? && KindOf(v).value in AtomWhole(s) ==> Member(v, s, m)
    ensures AtomWhole(s) * UNREAD != {} ==> s.Anything?
  {
    hide Exposed;
    if s.Seq? && s.container.TupleSeq? && s.prefix == [] && s.tail == Some(Anything) && v.VTuple? {
      assert forall j :: 0 <= j < |v.items| ==> Member(v.items[j], ElementAt(s.prefix, s.tail, j), m);
    }
  }

  lemma {:induction false} WholeIsSound(s: Schema, q: Setting, left: nat, v: Value, m: Meaning)
    requires Reads(q, m)
    ensures HeldWhole(Whole(s, q, left).kinds, s, v, m)
    decreases left, 1, 0
  {
    hide Truthful;
    hide Exposed;
    if left > 0 {
      if s.Union? {
        WholeOfUnionIsSound(s.members, {}, q, left - 1, v, m);
        assert Member(v, s, m) <==> InAny(v, s.members, m);
      } else if s.Intersection? {
        WholeOfMeetIsSound(s.members, EVERY_KIND, q, left - 1, v, m);
      } else if s.Complement? {
        WholeOfAComplementIsSound(s.inner, q, left, v, m);
      } else if s.Ref? {
        if s.definition < |q.defs| { WholeIsSound(q.defs[s.definition], q, left - 1, v, m); }
      } else {
        AnAtomHoldsItsKindWhole(s, v, m);
      }
    }
  }

  lemma WholeOfAComplementIsSound(inner: Schema, q: Setting, left: nat, v: Value, m: Meaning)
    requires Reads(q, m) && left > 0
    ensures HeldWhole(Whole(Complement(inner), q, left).kinds, Complement(inner), v, m)
    decreases left, 0, 0
  {
    hide Truthful;
    hide Satisfied;
    PossiblyIsSound(inner, q, left - 1, v, m);
    var held := Possibly(inner, q, left - 1).kinds;
    assert (EVERY_KIND - held) * UNREAD != {} ==> !(UNREAD <= held);
  }

  lemma {:induction false} WholeOfUnionIsSound(ms: seq<Schema>, held: set<Kind>, q: Setting, left: nat, v: Value, m: Meaning)
    requires Reads(q, m)
    ensures match KindOf(v)
      case Some(kind) => kind in WholeOfUnion(ms, held, q, left).kinds ==> kind in held || InAny(v, ms, m)
      case None => WholeOfUnion(ms, held, q, left).kinds * UNREAD != {} ==> held * UNREAD != {} || InAny(v, ms, m)
    decreases left, 1, |ms|
  {
    hide Member;
    hide Truthful;
    if ms != [] {
      InSplit(v, ms, m);
      WholeIsSound(ms[0], q, left, v, m);
      var first := Whole(ms[0], q, left);
      WholeOfUnionIsSound(ms[1..], held + first.kinds, q, first.left, v, m);
      assert (held + first.kinds) * UNREAD == held * UNREAD + first.kinds * UNREAD;
    }
  }

  lemma {:induction false} WholeOfMeetIsSound(ms: seq<Schema>, held: set<Kind>, q: Setting, left: nat, v: Value, m: Meaning)
    requires Reads(q, m)
    ensures WholeOfMeet(ms, held, q, left).kinds <= held
    ensures HeldWhole(WholeOfMeet(ms, held, q, left).kinds, Intersection(ms), v, m)
    decreases left, 1, |ms|
  {
    hide KindOf, Satisfied, Whole;
    hide Exposed;
    hide Truthful;
    hide InAny;
    if ms != [] {
      InSplit(v, ms, m);
      WholeIsSound(ms[0], q, left, v, m);
      var first := Whole(ms[0], q, left);
      WholeOfMeetIsSound(ms[1..], held * first.kinds, q, first.left, v, m);
      var all := WholeOfMeet(ms, held, q, left).kinds;
      assert all <= held * first.kinds;
      assert all * UNREAD <= first.kinds * UNREAD;
      assert Member(v, Intersection(ms[1..]), m) <==> InAll(v, ms[1..], m);
    }
  }

  lemma ATagHoldsItsKinds(s: Schema, q: Setting, left: nat, v: Value, m: Meaning)
    requires Reads(q, m) && (s.Literal? || left > 0)
    requires !s.Union? && !s.Intersection? && !s.Complement? && !s.Refine? && !s.Ref?
    ensures HeldPossibly(Possibly(s, q, left).kinds, s, v, m)
  {
    hide Truthful;
    if Member(v, s, m) && TypeTag(s, q.oracle).Some? {
      TagIsSound(s, q.oracle, v, m);
      assert KindOf(v).Some? && KindOf(v).value in Sharing(TypeTag(s, q.oracle).value);
    }
    EveryKindIsListed();
  }

  lemma {:induction false} PossiblyIsSound(s: Schema, q: Setting, left: nat, v: Value, m: Meaning)
    requires Reads(q, m)
    ensures HeldPossibly(Possibly(s, q, left).kinds, s, v, m)
    decreases left, 1, 0
  {
    hide PossiblyOfUnion, KindOf;
    hide Exposed;
    hide Truthful;
    EveryKindIsListed();
    if !s.Literal? && left > 0 {
      if s.Union? {
        PossiblyOfUnionIsSound(s.members, {}, q, left - 1, v, m);
      } else if s.Intersection? {
        PossiblyOfMeetIsSound(s.members, EVERY_KIND, q, left - 1, v, m);
        assert Member(v, s, m) <==> InAll(v, s.members, m);
      } else if s.Complement? {
        PossiblyOfAComplementIsSound(s.inner, q, left, v, m);
      } else if s.Refine? {
        PossiblyIsSound(s.base, q, left - 1, v, m);
      } else if s.Ref? {
        if s.definition < |q.defs| { PossiblyIsSound(q.defs[s.definition], q, left - 1, v, m); }
      } else {
        ATagHoldsItsKinds(s, q, left, v, m);
      }
    } else if s.Literal? {
      ATagHoldsItsKinds(s, q, left, v, m);
    }
  }

  lemma PossiblyOfAComplementIsSound(inner: Schema, q: Setting, left: nat, v: Value, m: Meaning)
    requires Reads(q, m) && left > 0
    ensures HeldPossibly(Possibly(Complement(inner), q, left).kinds, Complement(inner), v, m)
    decreases left, 0, 0
  {
    hide Exposed;
    hide Truthful;
    EveryKindIsListed();
    WholeIsSound(inner, q, left - 1, v, m);
    var held := Whole(inner, q, left - 1).kinds;
    forall kind | kind in UNREAD ensures held * UNREAD == {} ==> kind in EVERY_KIND - held {
      assert kind in held ==> kind in held * UNREAD;
    }
  }

  lemma {:induction false} PossiblyOfUnionIsSound(ms: seq<Schema>, held: set<Kind>, q: Setting, left: nat, v: Value, m: Meaning)
    requires Reads(q, m)
    ensures held <= PossiblyOfUnion(ms, held, q, left).kinds
    ensures HeldPossibly(PossiblyOfUnion(ms, held, q, left).kinds, Union(ms), v, m)
    decreases left, 1, |ms|
  {
    hide Truthful;
    hide InAll;
    if ms != [] {
      InSplit(v, ms, m);
      PossiblyIsSound(ms[0], q, left, v, m);
      var first := Possibly(ms[0], q, left);
      PossiblyOfUnionIsSound(ms[1..], held + first.kinds, q, first.left, v, m);
      assert Member(v, Union(ms[1..]), m) <==> InAny(v, ms[1..], m);
    }
  }

  lemma {:induction false} PossiblyOfMeetIsSound(ms: seq<Schema>, held: set<Kind>, q: Setting, left: nat, v: Value, m: Meaning)
    requires Reads(q, m)
    ensures match KindOf(v)
      case Some(kind) => InAll(v, ms, m) && kind in held ==> kind in PossiblyOfMeet(ms, held, q, left).kinds
      case None => InAll(v, ms, m) && UNREAD <= held ==> UNREAD <= PossiblyOfMeet(ms, held, q, left).kinds
    decreases left, 1, |ms|
  {
    hide Truthful;
    if ms != [] {
      InSplit(v, ms, m);
      PossiblyIsSound(ms[0], q, left, v, m);
      var first := Possibly(ms[0], q, left);
      PossiblyOfMeetIsSound(ms[1..], held * first.kinds, q, first.left, v, m);
    }
  }

  /** Where the walk finds no kind possible, nothing is held, not even the kindless. */
  lemma NoKindIsNoValue(s: Schema, q: Setting, m: Meaning)
    requires Reads(q, m) && KindsPossiblyHeld(s, q) == {}
    ensures !HasValue(s, m)
  {
    hide Truthful;
    forall v ensures !Member(v, s, m) {
      PossiblyIsSound(s, q, KIND_WALK, v, m);
      assert Kind.List in UNREAD;
    }
  }

  /** Some kind is whole on the left and impossible on the right. */
  predicate SpillsAKindInto(a: Schema, b: Schema, q: Setting) {
    KindsHeldWhole(a, q) - KindsPossiblyHeld(b, q) != {}
  }

  lemma ASpilledKindRefutes(a: Schema, b: Schema, q: Setting, m: Meaning)
    requires Reads(q, m) && SpillsAKindInto(a, b, q)
    ensures Spills(a, b, m)
  {
    hide Truthful;
    var kind :| kind in KindsHeldWhole(a, q) - KindsPossiblyHeld(b, q);
    WholeIsSound(a, q, KIND_WALK, Sample(kind), m);
    PossiblyIsSound(b, q, KIND_WALK, Sample(kind), m);
  }

  predicate MissesAKind(s: Schema, q: Setting) { KindsPossiblyHeld(s, q) != EVERY_KIND }

  lemma AMissedKindIsComplemented(s: Schema, q: Setting, m: Meaning)
    requires Reads(q, m) && MissesAKind(s, q)
    ensures HasValue(Complement(s), m)
  {
    hide Truthful;
    EveryKindIsListed();
    var kind :| kind !in KindsPossiblyHeld(s, q);
    PossiblyIsSound(s, q, KIND_WALK, Sample(kind), m);
    assert Member(Sample(kind), Complement(s), m);
  }

  lemma EveryKindIsListed()
    ensures forall kind: Kind :: kind in EVERY_KIND
    ensures UNREAD <= EVERY_KIND
  {
    forall kind: Kind ensures kind in EVERY_KIND {
      match kind
      case NoneType => case Bool => case Int => case Float => case Str => case Bytes =>
      case List => case Tuple => case Set => case FrozenSet => case Dict =>
    }
  }
}
