/** Finite sets of constants: inclusion by membership, meets of tables with
    complements of tables, and the values no table lists. */
module Tables {
  import opened Verdicts
  import opened Kinds
  import opened Schemas
  import opened Values
  import opened Oracles
  import opened KindWalk

  /** The members of a literal, or of a union of literals in increasing order. */
  function FiniteSet(s: Schema): Option<seq<Schema>> {
    match s
    case Literal(_) => Some([s])
    case Union(ms) => if ms != [] && Increasing(ms) then Some(ms) else None
    case _ => None
  }

  predicate AllLiterals(ms: seq<Schema>) {
    forall t <- ms :: t.Literal?
  }

  predicate Increasing(ms: seq<Schema>) {
    && AllLiterals(ms)
    && forall i :: 0 < i < |ms| ==> ms[i - 1].constant < ms[i].constant
  }

  lemma FiniteSetDenotes(s: Schema, v: Value, m: Meaning)
    requires FiniteSet(s).Some?
    ensures AllLiterals(FiniteSet(s).value)
    ensures FiniteSet(s).value != []
    ensures Member(v, s, m) <==> InAny(v, FiniteSet(s).value, m)
  {
    if s.Literal? { assert s in [s]; }
  }

  function Indices(ms: seq<Schema>): (r: seq<nat>)
    requires AllLiterals(ms)
    ensures |r| == |ms| && forall i :: 0 <= i < |ms| ==> r[i] == ms[i].constant
  {
    if ms == [] then [] else [ms[0].constant] + Indices(ms[1..])
  }

  lemma IndicesList(ms: seq<Schema>, v: Value, m: Meaning)
    requires AllLiterals(ms)
    ensures ListedIn(v, Indices(ms), m) <==> InAny(v, ms, m)
  {
    hide Exposed;
    if InAny(v, ms, m) {
      var t :| t in ms && Member(v, t, m);
      var i :| 0 <= i < |ms| && ms[i] == t;
      assert Indices(ms)[i] == t.constant;
    }
    if ListedIn(v, Indices(ms), m) {
      var c :| c in Indices(ms) && v in m.literal(c);
      var i :| 0 <= i < |ms| && Indices(ms)[i] == c;
      assert ms[i] in ms && Member(v, ms[i], m);
    }
  }

  /** The oracle says the constant is no constant of the table. */
  predicate ApartFrom(constant: nat, table: seq<Schema>, o: Oracle)
    requires AllLiterals(table)
  {
    o.literalSetsDisjoint([constant], Indices(table)) == Some(true)
  }

  lemma ApartIsOutside(constant: nat, table: seq<Schema>, o: Oracle, v: Value, m: Meaning)
    requires Truthful(o, m) && AllLiterals(table)
    requires ApartFrom(constant, table, o) && v in m.literal(constant)
    ensures !InAny(v, table, m)
  {
    IndicesList(table, v, m);
    assert constant in [constant];
    assert ListedIn(v, [constant], m);
  }

  // ---- One table below another.

  /** The first constant of `subject` missing from `supertype` that denotes a
      value, and whether every missing one before it was read. */
  function Missing(subject: seq<Schema>, supertype: seq<Schema>, o: Oracle, settled: bool): (Option<nat>, bool)
    requires AllLiterals(subject)
  {
    if subject == [] then (None, settled)
    else
      var c := subject[0].constant;
      if subject[0] in supertype then Missing(subject[1..], supertype, o, settled)
      else
        match o.literalsDisjoint(c, c)
        case Some(true) => Missing(subject[1..], supertype, o, settled)
        case Some(false) => (Some(c), settled)
        case None => Missing(subject[1..], supertype, o, false)
  }

  function FiniteSetBelow(subject: seq<Schema>, supertype: seq<Schema>, o: Oracle): Relation
    requires AllLiterals(subject) && AllLiterals(supertype)
  {
    var (missing, settled) := Missing(subject, supertype, o, true);
    match missing
    case None => Proven(settled)
    case Some(c) => if ApartFrom(c, supertype, o) then Relation.Fails else Relation.Unknown
  }

  lemma {:induction false} MissingIsRead(subject: seq<Schema>, supertype: seq<Schema>, o: Oracle, settled: bool, m: Meaning)
    requires Truthful(o, m) && AllLiterals(subject)
    ensures var (missing, read) := Missing(subject, supertype, o, settled);
      && (missing.Some? ==> Literal(missing.value) in subject && exists v :: v in m.literal(missing.value))
      && (missing.None? && read ==> settled && forall v :: InAny(v, subject, m) ==> InAny(v, supertype, m))
  {
    if subject != [] {
      var c := subject[0].constant;
      assert subject[0] == Literal(c);
      forall v ensures InAny(v, subject, m) <==> Member(v, subject[0], m) || InAny(v, subject[1..], m) {
        InSplit(v, subject, m);
      }
      if subject[0] in supertype || o.literalsDisjoint(c, c) != Some(false) {
        MissingIsRead(subject[1..], supertype, o, settled && (subject[0] in supertype || o.literalsDisjoint(c, c).Some?), m);
      } else {
        ASharedValue(c, o, m);
      }
    }
  }

  lemma ASharedValue(c: nat, o: Oracle, m: Meaning)
    requires Truthful(o, m) && o.literalsDisjoint(c, c) == Some(false)
    ensures exists v :: v in m.literal(c)
  {
    assert m.literal(c) == {} ==> m.literal(c) !! m.literal(c);
    var v :| v in m.literal(c);
  }

  /** Inclusion between two tables is membership: exact both ways. */
  lemma TablesBelow(a: Schema, b: Schema, o: Oracle, m: Meaning)
    requires Truthful(o, m) && FiniteSet(a).Some? && FiniteSet(b).Some?
    ensures AllLiterals(FiniteSet(a).value) && AllLiterals(FiniteSet(b).value)
    ensures FiniteSetBelow(FiniteSet(a).value, FiniteSet(b).value, o) == Relation.Holds ==> Included(a, b, m)
    ensures FiniteSetBelow(FiniteSet(a).value, FiniteSet(b).value, o) == Relation.Fails ==> Spills(a, b, m)
  {
    hide Truthful;
    forall v
      ensures Member(v, a, m) <==> InAny(v, FiniteSet(a).value, m)
      ensures Member(v, b, m) <==> InAny(v, FiniteSet(b).value, m)
    {
      FiniteSetDenotes(a, v, m);
      FiniteSetDenotes(b, v, m);
    }
    FiniteSetDenotes(a, VNone, m);
    FiniteSetDenotes(b, VNone, m);
    MissingIsRead(FiniteSet(a).value, FiniteSet(b).value, o, true, m);
    var (missing, _) := Missing(FiniteSet(a).value, FiniteSet(b).value, o, true);
    if missing.Some? && ApartFrom(missing.value, FiniteSet(b).value, o) {
      var v :| v in m.literal(missing.value);
      ApartIsOutside(missing.value, FiniteSet(b).value, o, v, m);
      assert Member(v, Literal(missing.value), m);
    }
  }

  // ---- Tables and complemented tables, met.

  datatype Placed = Out | In | Unread

  datatype FiniteMeet = FiniteMeet(kept: seq<seq<Schema>>, taken: seq<seq<Schema>>)

  function TableOf(member: Schema): Option<seq<Schema>> {
    if member.Complement? then FiniteSet(member.inner) else FiniteSet(member)
  }

  function MeetOfTables(ms: seq<Schema>): (r: Option<FiniteMeet>)
    ensures r.Some? ==> forall t <- ms :: TableOf(t).Some?
  {
    if forall t <- ms :: TableOf(t).Some? then
      var kept, taken := Kept(ms), Taken(ms);
      if kept == [] then None else Some(FiniteMeet(kept, taken))
    else None
  }

  function Kept(ms: seq<Schema>): (r: seq<seq<Schema>>)
    requires forall t <- ms :: TableOf(t).Some?
    ensures OfLiterals(r)
  {
    if ms == [] then []
    else if ms[0].Complement? then Kept(ms[1..])
    else [TableOf(ms[0]).value] + Kept(ms[1..])
  }

  function Taken(ms: seq<Schema>): (r: seq<seq<Schema>>)
    requires forall t <- ms :: TableOf(t).Some?
    ensures OfLiterals(r)
  {
    if ms == [] then []
    else if ms[0].Complement? then [TableOf(ms[0]).value] + Taken(ms[1..])
    else Taken(ms[1..])
  }

  ghost predicate OfLiterals(tables: seq<seq<Schema>>) {
    forall table <- tables :: AllLiterals(table)
  }

  /** Where a constant stands among the kept tables: out of one of them, in
      every one, or neither proved. */
  function AmongKept(c: nat, kept: seq<seq<Schema>>, o: Oracle): Placed
    requires OfLiterals(kept)
  {
    if kept == [] then In
    else if Literal(c) in kept[0] then AmongKept(c, kept[1..], o)
    else if ApartFrom(c, kept[0], o) then Out
    else if AmongKept(c, kept[1..], o).Out? then Out
    else Unread
  }

  function PlacedIn(c: nat, meet: FiniteMeet, o: Oracle): Placed
    requires OfLiterals(meet.kept) && OfLiterals(meet.taken)
  {
    if exists table <- meet.taken :: Literal(c) in table then Out
    else
      match AmongKept(c, meet.kept, o)
      case Out => Out
      case Unread => Unread
      case In =>
        if o.literalsDisjoint(c, c) == Some(false) && forall table <- meet.taken :: ApartFrom(c, table, o) then In
        else Unread
  }

  function FiniteMeetVerdict(first: seq<Schema>, meet: FiniteMeet, o: Oracle, verdict: Verdict): Verdict
    requires OfLiterals(meet.kept) && OfLiterals(meet.taken) && AllLiterals(first)
  {
    if first == [] then verdict
    else
      match PlacedIn(first[0].constant, meet, o)
      case Out => FiniteMeetVerdict(first[1..], meet, o, verdict)
      case In => Verdict.Inhabited
      case Unread => FiniteMeetVerdict(first[1..], meet, o, Verdict.Unknown)
  }

  function FiniteMeetBelow(first: seq<Schema>, meet: FiniteMeet, supertype: seq<Schema>, o: Oracle, answer: Relation): Relation
    requires OfLiterals(meet.kept) && OfLiterals(meet.taken)
    requires AllLiterals(first) && AllLiterals(supertype)
  {
    if first == [] then answer
    else
      var c, place := first[0].constant, PlacedIn(first[0].constant, meet, o);
      if place.Out? || first[0] in supertype then FiniteMeetBelow(first[1..], meet, supertype, o, answer)
      else if place.In? && ApartFrom(c, supertype, o) then Relation.Fails
      else FiniteMeetBelow(first[1..], meet, supertype, o, Relation.Unknown)
  }

  /** What a meet of tables holds, and how it stands below a table. */
  function TheTablesHold(ms: seq<Schema>, o: Oracle): Verdict {
    var meet := MeetOfTables(ms);
    if meet.None? then Verdict.Unknown
    else FiniteMeetVerdict(meet.value.kept[0], meet.value, o, Verdict.Empty)
  }

  function TheTablesBelow(ms: seq<Schema>, b: Schema, o: Oracle): Relation {
    var meet := MeetOfTables(ms);
    if meet.None? || FiniteSet(b).None? then Relation.Unknown
    else FiniteMeetBelow(meet.value.kept[0], meet.value, FiniteSet(b).value, o, Relation.Holds)
  }

  ghost predicate InTheMeet(v: Value, meet: FiniteMeet, m: Meaning)
  {
    && (forall table <- meet.kept :: InAny(v, table, m))
    && (forall table <- meet.taken :: !InAny(v, table, m))
  }

  lemma {:induction false} KeptAndTakenDenote(ms: seq<Schema>, v: Value, m: Meaning)
    requires forall t <- ms :: TableOf(t).Some?
    ensures InAll(v, ms, m) <==> InTheMeet(v, FiniteMeet(Kept(ms), Taken(ms)), m)
  {
    hide Exposed;
    hide FiniteSet;
    hide InAny;
    if ms != [] {
      InSplit(v, ms, m);
      KeptAndTakenDenote(ms[1..], v, m);
      var table := TableOf(ms[0]).value;
      if ms[0].Complement? {
        FiniteSetDenotes(ms[0].inner, v, m);
        assert forall t :: t in Taken(ms) <==> t == table || t in Taken(ms[1..]);
      } else {
        FiniteSetDenotes(ms[0], v, m);
        assert forall t :: t in Kept(ms) <==> t == table || t in Kept(ms[1..]);
      }
    }
  }

  lemma {:induction false} AmongKeptIsRead(c: nat, kept: seq<seq<Schema>>, o: Oracle, v: Value, m: Meaning)
    requires Truthful(o, m) && OfLiterals(kept) && v in m.literal(c)
    ensures AmongKept(c, kept, o).In? ==> forall table <- kept :: InAny(v, table, m)
    ensures AmongKept(c, kept, o).Out? ==> exists table <- kept :: !InAny(v, table, m)
  {
    hide Truthful;
    if kept != [] {
      AmongKeptIsRead(c, kept[1..], o, v, m);
      assert kept == [kept[0]] + kept[1..];
      if Literal(c) in kept[0] {
        assert Member(v, Literal(c), m);
        assert forall table <- kept :: table == kept[0] || table in kept[1..];
      } else if ApartFrom(c, kept[0], o) {
        ApartIsOutside(c, kept[0], o, v, m);
      }
    }
  }

  lemma PlacedIsRead(c: nat, meet: FiniteMeet, o: Oracle, v: Value, m: Meaning)
    requires Truthful(o, m) && OfLiterals(meet.kept) && OfLiterals(meet.taken)
    requires v in m.literal(c)
    ensures PlacedIn(c, meet, o).In? ==> InTheMeet(v, meet, m)
    ensures PlacedIn(c, meet, o).Out? ==> !InTheMeet(v, meet, m)
  {
    hide Truthful;
    AmongKeptIsRead(c, meet.kept, o, v, m);
    if table :| table in meet.taken && Literal(c) in table {
      assert Member(v, Literal(c), m);
    } else if PlacedIn(c, meet, o).In? {
      forall table | table in meet.taken ensures !InAny(v, table, m) { ApartIsOutside(c, table, o, v, m); }
    }
  }

  lemma {:induction false} TheVerdictIsRead(first: seq<Schema>, meet: FiniteMeet, o: Oracle, verdict: Verdict, m: Meaning)
    requires Truthful(o, m) && OfLiterals(meet.kept) && OfLiterals(meet.taken)
    requires AllLiterals(first) && !verdict.Inhabited?
    ensures FiniteMeetVerdict(first, meet, o, verdict) == Verdict.Inhabited ==> exists v :: InTheMeet(v, meet, m)
    ensures FiniteMeetVerdict(first, meet, o, verdict) == Verdict.Empty ==>
      verdict.Empty? && forall v :: InAny(v, first, m) ==> !InTheMeet(v, meet, m)
  {
    hide Truthful;
    if first != [] {
      var c := first[0].constant;
      forall v
        ensures InAny(v, first, m) <==> v in m.literal(c) || InAny(v, first[1..], m)
        ensures v in m.literal(c) && PlacedIn(c, meet, o).In? ==> InTheMeet(v, meet, m)
        ensures v in m.literal(c) && PlacedIn(c, meet, o).Out? ==> !InTheMeet(v, meet, m)
      {
        InSplit(v, first, m);
        if v in m.literal(c) { PlacedIsRead(c, meet, o, v, m); }
      }
      match PlacedIn(c, meet, o)
      case Out => TheVerdictIsRead(first[1..], meet, o, verdict, m);
      case In =>
        ASharedValue(c, o, m);
        var v :| v in m.literal(c);
        assert InTheMeet(v, meet, m);
      case Unread => TheVerdictIsRead(first[1..], meet, o, Verdict.Unknown, m);
    }
  }

  lemma TheTablesAreRead(ms: seq<Schema>, o: Oracle, m: Meaning)
    requires Truthful(o, m)
    ensures TheTablesHold(ms, o).Empty? ==> !HasValue(Intersection(ms), m)
    ensures TheTablesHold(ms, o).Inhabited? ==> HasValue(Intersection(ms), m)
  {
    hide Truthful;
    if MeetOfTables(ms).Some? {
      var meet := MeetOfTables(ms).value;
      forall v
        ensures Member(v, Intersection(ms), m) <==> InTheMeet(v, meet, m)
        ensures InTheMeet(v, meet, m) ==> InAny(v, meet.kept[0], m)
      {
        KeptAndTakenDenote(ms, v, m);
      }
      TheVerdictIsRead(meet.kept[0], meet, o, Verdict.Empty, m);
      if TheTablesHold(ms, o).Inhabited? {
        var v :| InTheMeet(v, meet, m);
        assert Member(v, Intersection(ms), m);
      } else if TheTablesHold(ms, o).Empty? {
        forall v ensures !Member(v, Intersection(ms), m) { }
      }
    }
  }

  lemma {:induction false} TheMeetBelowIsRead(first: seq<Schema>, meet: FiniteMeet, supertype: seq<Schema>, o: Oracle, answer: Relation, m: Meaning)
    requires Truthful(o, m) && OfLiterals(meet.kept) && OfLiterals(meet.taken)
    requires AllLiterals(first) && AllLiterals(supertype) && !answer.Fails?
    ensures FiniteMeetBelow(first, meet, supertype, o, answer) == Relation.Fails ==>
      exists v :: InTheMeet(v, meet, m) && !InAny(v, supertype, m)
    ensures FiniteMeetBelow(first, meet, supertype, o, answer) == Relation.Holds ==>
      answer.Holds? && forall v :: InAny(v, first, m) && InTheMeet(v, meet, m) ==> InAny(v, supertype, m)
  {
    hide Truthful;
    if first != [] {
      var c := first[0].constant;
      assert first[0] == Literal(c);
      forall v
        ensures InAny(v, first, m) <==> v in m.literal(c) || InAny(v, first[1..], m)
        ensures v in m.literal(c) && PlacedIn(c, meet, o).In? ==> InTheMeet(v, meet, m)
        ensures v in m.literal(c) && PlacedIn(c, meet, o).Out? ==> !InTheMeet(v, meet, m)
        ensures v in m.literal(c) <==> Member(v, first[0], m)
      {
        InSplit(v, first, m);
        if v in m.literal(c) { PlacedIsRead(c, meet, o, v, m); }
      }
      var place := PlacedIn(c, meet, o);
      if place.Out? || first[0] in supertype {
        TheMeetBelowIsRead(first[1..], meet, supertype, o, answer, m);
      } else if place.In? && ApartFrom(c, supertype, o) {
        ASharedValue(c, o, m);
        var v :| v in m.literal(c);
        ApartIsOutside(c, supertype, o, v, m);
        assert InTheMeet(v, meet, m);
      } else {
        TheMeetBelowIsRead(first[1..], meet, supertype, o, Relation.Unknown, m);
      }
    }
  }

  lemma TheTablesBelowAreRead(ms: seq<Schema>, b: Schema, o: Oracle, m: Meaning)
    requires Truthful(o, m)
    ensures TheTablesBelow(ms, b, o).Holds? ==> Included(Intersection(ms), b, m)
    ensures TheTablesBelow(ms, b, o).Fails? ==> Spills(Intersection(ms), b, m)
  {
    hide Truthful;
    if MeetOfTables(ms).Some? && FiniteSet(b).Some? {
      var meet, table := MeetOfTables(ms).value, FiniteSet(b).value;
      forall v
        ensures Member(v, Intersection(ms), m) <==> InTheMeet(v, meet, m)
        ensures Member(v, b, m) <==> InAny(v, table, m)
      {
        KeptAndTakenDenote(ms, v, m);
        FiniteSetDenotes(b, v, m);
      }
      FiniteSetDenotes(b, VNone, m);
      TheMeetBelowIsRead(meet.kept[0], meet, table, o, Relation.Holds, m);
      if TheTablesBelow(ms, b, o).Fails? {
        var v :| InTheMeet(v, meet, m) && !InAny(v, table, m);
        assert Member(v, Intersection(ms), m);
      } else if TheTablesBelow(ms, b, o).Holds? {
        forall v | Member(v, Intersection(ms), m) ensures Member(v, b, m) { assert InAny(v, meet.kept[0], m); }
      }
    }
  }

  // ---- A table lists finitely many values, and most kinds have no end of them.

  const FINITE_KINDS: set<Kind> := {Kind.NoneType, Kind.Bool}

  /** The `n`th of a kind's endless values. */
  function Endless(kind: Kind, n: nat): (v: Value)
    ensures kind !in FINITE_KINDS ==> KindOf(v) == Some(kind)
  {
    match kind
    case NoneType => VNone
    case Bool => VBool(false)
    case Int => VInt(n)
    case Float => VFloat(n as real)
    case Str => VStr(seq(n, _ => 'a'))
    case Bytes => VBytes(seq(n, _ => 0))
    case List => VList(seq(n, _ => VNone))
    case Tuple => VTuple(seq(n, _ => VNone))
    case Set => VSet({VInt(n)})
    case FrozenSet => VFrozenSet({VInt(n)})
    case Dict => VDict(seq(n, _ => (VNone, VNone)))
  }

  lemma EndlessAreDistinct(kind: Kind, i: nat, j: nat)
    requires kind !in FINITE_KINDS && i != j
    ensures Endless(kind, i) != Endless(kind, j)
  {
    match kind
    case Int =>
    case Float =>
    case Str => assert |seq(i, _ => 'a')| == i && |seq(j, _ => 'a')| == j;
    case Bytes => assert |seq(i, _ => 0 as bv8)| == i && |seq(j, _ => 0 as bv8)| == j;
    case List => assert |seq(i, _ => VNone)| == i && |seq(j, _ => VNone)| == j;
    case Tuple => assert |seq(i, _ => VNone)| == i && |seq(j, _ => VNone)| == j;
    case Set => assert VInt(i) in {VInt(i)} && VInt(i) !in {VInt(j)};
    case FrozenSet => assert VInt(i) in {VInt(i)} && VInt(i) !in {VInt(j)};
    case Dict => assert |seq(i, _ => (VNone, VNone))| == i && |seq(j, _ => (VNone, VNone))| == j;
  }

  /** Among an endless kind's values one can be found past any finite set. */
  lemma {:induction false} SomeEndlessValueIsOutside(kind: Kind, held: set<Value>, from: nat) returns (n: nat)
    requires kind !in FINITE_KINDS
    ensures n >= from && Endless(kind, n) !in held
    decreases |held|
  {
    if Endless(kind, from) !in held {
      return from;
    }
    n := SomeEndlessValueIsOutside(kind, held - {Endless(kind, from)}, from + 1);
    EndlessAreDistinct(kind, from, n);
  }

  lemma {:induction false} ATableIsFinite(ms: seq<Schema>, m: Meaning) returns (held: set<Value>)
    requires AllLiterals(ms)
    ensures forall v :: InAny(v, ms, m) <==> v in held
  {
    if ms == [] {
      held := {};
    } else {
      var rest := ATableIsFinite(ms[1..], m);
      held := m.literal(ms[0].constant) + rest;
      forall v ensures InAny(v, ms, m) <==> v in held { InSplit(v, ms, m); }
    }
  }

  lemma AValueOutsideATable(s: Schema, kind: Kind, m: Meaning) returns (v: Value)
    requires FiniteSet(s).Some? && kind !in FINITE_KINDS
    ensures KindOf(v) == Some(kind) && !Member(v, s, m)
  {
    FiniteSetDenotes(s, VNone, m);
    var held := ATableIsFinite(FiniteSet(s).value, m);
    var n := SomeEndlessValueIsOutside(kind, held, 0);
    v := Endless(kind, n);
    FiniteSetDenotes(s, v, m);
  }

  predicate SpillsPastATable(a: Schema, b: Schema, q: Setting) {
    FiniteSet(b).Some? && KindsHeldWhole(a, q) - FINITE_KINDS != {}
  }

  /** A subject holding an endless kind whole spills past every table. */
  lemma AnEndlessKindSpills(a: Schema, b: Schema, q: Setting, m: Meaning)
    requires Reads(q, m) && SpillsPastATable(a, b, q)
    ensures Spills(a, b, m)
  {
    hide Truthful;
    var kind :| kind in KindsHeldWhole(a, q) - FINITE_KINDS;
    var v := AValueOutsideATable(b, kind, m);
    WholeIsSound(a, q, KIND_WALK, v, m);
  }

  /** And the complement of a table holds a value. */
  lemma ATableMissesAValue(s: Schema, m: Meaning)
    requires FiniteSet(s).Some?
    ensures HasValue(Complement(s), m)
  {
    var v := AValueOutsideATable(s, Kind.Int, m);
    assert Member(v, Complement(s), m);
  }
}
