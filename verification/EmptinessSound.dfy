/** The emptiness recursion answers rightly: an inhabited verdict names a real
    value, and an empty one holds under the hypotheses open, which at the root
    are none. */
module EmptinessSound {
  import opened Verdicts
  import opened Kinds
  import opened Schemas
  import opened Constructors
  import opened Values
  import opened Oracles
  import opened Readings
  import opened KindWalk
  import opened Disjointness
  import opened Tables
  import opened Shapes
  import opened Bounds
  import opened Weights
  import opened Emptiness

  // ---- What a hypothesis assumes: no value smaller than the one in hand, and
  // ---- not that one either unless the term in hand weighs less.

  ghost predicate NoneSmaller(t: Schema, v: Value, m: Meaning)
  {
    forall w :: Smaller(w, v) ==> !Member(w, t, m)
  }

  ghost predicate NoneUpTo(t: Schema, v: Value, weight: nat, m: Meaning)
  {
    NoneSmaller(t, v, m) && (Weight(t, m) <= weight ==> !Member(v, t, m))
  }

  ghost predicate Assumed(h: Held, v: Value, weight: nat, m: Meaning)
  {
    && (forall i <- h.visiting :: NoneUpTo(Ref(i), v, weight, m))
    && (forall goal <- h.meets :: NoneUpTo(Intersection(goal), v, weight, m))
  }

  /** `s` denotes no value, as far as the hypotheses open reach. */
  ghost predicate NoneUnder(s: Schema, h: Held, m: Meaning)
  {
    forall v :: Assumed(h, v, Weight(s, m), m) ==> !Member(v, s, m)
  }

  ghost predicate Right(verdict: Verdict, s: Schema, h: Held, m: Meaning)
  {
    (verdict.Empty? ==> NoneUnder(s, h, m)) && (verdict.Inhabited? ==> HasValue(s, m))
  }

  lemma SmallerIsTransitive(x: Value, w: Value, v: Value)
    requires Smaller(x, w) && Smaller(w, v)
    ensures Smaller(x, v)
  {
  }

  lemma AssumedForLess(h: Held, v: Value, weight: nat, less: nat, m: Meaning)
    requires Assumed(h, v, weight, m) && less <= weight
    ensures Assumed(h, v, less, m)
  {
  }

  /** Under a constructor every hypothesis is a fact. */
  lemma AssumedInside(h: Held, v: Value, weight: nat, w: Value, any: nat, m: Meaning)
    requires Assumed(h, v, weight, m) && Smaller(w, v)
    ensures Assumed(h, w, any, m)
  {
    forall t | NoneSmaller(t, v, m) ensures NoneUpTo(t, w, any, m) {
      forall x | Smaller(x, w) ensures !Member(x, t, m) { SmallerIsTransitive(x, w, v); }
    }
  }

  /** A term inside one with no value has none, where it weighs no more. */
  lemma NoneWithin(inner: Schema, outer: Schema, h: Held, m: Meaning)
    requires NoneUnder(outer, h, m) && Weight(outer, m) <= Weight(inner, m)
    requires forall v :: Member(v, inner, m) ==> Member(v, outer, m)
    ensures NoneUnder(inner, h, m)
  {
    forall v | Assumed(h, v, Weight(inner, m), m) ensures !Member(v, inner, m) {
      AssumedForLess(h, v, Weight(inner, m), Weight(outer, m), m);
    }
  }

  /** The least-height argument: a term none of whose values is its first has
      no value. */
  lemma {:induction false} NoLeastValue(t: Schema, h: Held, v: Value, m: Meaning)
    requires forall u :: Assumed(h, u, Weight(t, m), m) && NoneSmaller(t, u, m) ==> !Member(u, t, m)
    ensures Assumed(h, v, Weight(t, m), m) ==> !Member(v, t, m)
    decreases v
  {
    hide Member;
    hide Exposed;
    if Assumed(h, v, Weight(t, m), m) {
      forall w | Smaller(w, v) ensures !Member(w, t, m) {
        AssumedInside(h, v, Weight(t, m), w, Weight(t, m), m);
        NoLeastValue(t, h, w, m);
      }
    }
  }

  /** Taking a definition off the visiting stack. */
  lemma ADefinitionResolved(i: nat, h: Held, m: Meaning)
    requires i < |m.defs|
    requires NoneUnder(m.defs[i], h.(visiting := h.visiting + [i]), m)
    ensures NoneUnder(Ref(i), h, m)
  {
    var t, def, within := Ref(i), m.defs[i], h.(visiting := h.visiting + [i]);
    forall u | Assumed(h, u, Weight(t, m), m) && NoneSmaller(t, u, m) ensures !Member(u, t, m) {
      AssumedForLess(h, u, Weight(t, m), Weight(def, m), m);
      assert Assumed(within, u, Weight(def, m), m);
    }
    forall v | Assumed(h, v, Weight(t, m), m) ensures !Member(v, t, m) { NoLeastValue(t, h, v, m); }
  }

  /** What a branch adds to the meet it joins. */
  ghost function BranchWeight(b: Schema, m: Meaning): nat
  {
    if b.Intersection? then WeightOfAll(b.members, m) else Weight(b, m)
  }

  lemma ABranchMeetHolds(b: Schema, ms: seq<Schema>, distributed: Schema, v: Value, m: Meaning)
    requires InAll(v, ms, m)
    ensures Member(v, b, m) ==> Member(v, Intersection(BranchMeet(b, ms, distributed)), m)
  {
    hide Satisfied;
    hide InAny;
    var rest := Without(ms, distributed);
    InConcatenation(v, if b.Intersection? then b.members else [b], rest, m);
    assert InAll(v, rest, m);
    assert b in [b];
  }

  lemma ABranchMeetIsWithin(b: Schema, ms: seq<Schema>, distributed: Schema, v: Value, m: Meaning)
    requires Member(v, Intersection(BranchMeet(b, ms, distributed)), m)
    requires Member(v, b, m) ==> Member(v, distributed, m)
    ensures InAll(v, ms, m)
  {
    var rest := Without(ms, distributed);
    InConcatenation(v, if b.Intersection? then b.members else [b], rest, m);
    assert b in [b];
    forall t | t in ms ensures Member(v, t, m) { assert t == distributed || t in rest; }
  }

  lemma ABranchMeetWeighsLess(b: Schema, ms: seq<Schema>, distributed: Schema, m: Meaning)
    requires distributed in ms && BranchWeight(b, m) < Weight(distributed, m)
    ensures Weight(Intersection(BranchMeet(b, ms, distributed)), m) < Weight(Intersection(ms), m)
  {
    WeightWithout(ms, distributed, m);
    WeightOfConcatenation(if b.Intersection? then b.members else [b], Without(ms, distributed), m);
    assert [b][1..] == [];
  }

  /** A value of the meet is no value of a branch whose own meet holds none. */
  lemma NoBranchHoldsIt(b: Schema, ms: seq<Schema>, h: Held, distributed: Schema, v: Value, m: Meaning)
    requires distributed in ms && InAll(v, ms, m)
    requires BranchWeight(b, m) < Weight(distributed, m)
    requires NoneUnder(Intersection(BranchMeet(b, ms, distributed)), h, m)
    requires forall weight: nat :: weight < Weight(Intersection(ms), m) ==> Assumed(h, v, weight, m)
    ensures !Member(v, b, m)
  {
    ABranchMeetHolds(b, ms, distributed, v, m);
    ABranchMeetWeighsLess(b, ms, distributed, m);
  }

  /** Closing a meet: every branch's meet weighs less than the meet it opened. */
  lemma AMeetClosed(ms: seq<Schema>, h: Held, branches: seq<Schema>, distributed: Schema, m: Meaning)
    requires distributed in ms
    requires forall v :: Member(v, distributed, m) ==> InAny(v, branches, m)
    requires forall b <- branches :: BranchWeight(b, m) < Weight(distributed, m)
    requires forall b <- branches ::
      NoneUnder(Intersection(BranchMeet(b, ms, distributed)), h.(meets := h.meets + [CanonicalMembers(ms)]), m)
    ensures NoneUnder(Intersection(ms), h, m)
  {
    var t := Intersection(CanonicalMembers(ms));
    TheGoalIsTheMeet(ms, m);
    forall u | Assumed(h, u, Weight(t, m), m) && NoneSmaller(t, u, m) ensures !Member(u, t, m) {
      NoneAtTheGoal(ms, h, branches, distributed, u, m);
    }
    forall v | Assumed(h, v, Weight(Intersection(ms), m), m) ensures !Member(v, Intersection(ms), m) {
      NoLeastValue(t, h, v, m);
    }
  }

  lemma TheGoalIsTheMeet(ms: seq<Schema>, m: Meaning)
    ensures Weight(Intersection(CanonicalMembers(ms)), m) == Weight(Intersection(ms), m)
    ensures forall u :: Member(u, Intersection(CanonicalMembers(ms)), m) <==> Member(u, Intersection(ms), m)
  {
    hide Exposed;
    var goal := CanonicalMembers(ms);
    WeightOfSubset(goal, ms, m);
    WeightOfSubset(ms, goal, m);
    forall u ensures Member(u, Intersection(goal), m) <==> Member(u, Intersection(ms), m) { SameMembers(goal, ms, u, m); }
  }

  lemma NoneAtTheGoal(ms: seq<Schema>, h: Held, branches: seq<Schema>, distributed: Schema, u: Value, m: Meaning)
    requires distributed in ms
    requires forall v :: Member(v, distributed, m) ==> InAny(v, branches, m)
    requires forall b <- branches :: BranchWeight(b, m) < Weight(distributed, m)
    requires forall b <- branches ::
      NoneUnder(Intersection(BranchMeet(b, ms, distributed)), h.(meets := h.meets + [CanonicalMembers(ms)]), m)
    requires Assumed(h, u, Weight(Intersection(CanonicalMembers(ms)), m), m)
    requires NoneSmaller(Intersection(CanonicalMembers(ms)), u, m)
    ensures !Member(u, Intersection(CanonicalMembers(ms)), m)
  {
    TheGoalIsTheMeet(ms, m);
    var within := h.(meets := h.meets + [CanonicalMembers(ms)]);
    forall weight: nat | weight < Weight(Intersection(ms), m) ensures Assumed(within, u, weight, m) {
      AssumedForLess(h, u, Weight(Intersection(ms), m), weight, m);
    }
    assert InAll(u, ms, m) ==> InAny(u, branches, m);
    forall b | b in branches && InAll(u, ms, m) ensures !Member(u, b, m) {
      NoBranchHoldsIt(b, ms, within, distributed, u, m);
    }
  }

  /** Distributed with nothing opened, the branches' meets cover the meet. */
  lemma AMeetDistributed(ms: seq<Schema>, h: Held, branches: seq<Schema>, distributed: Schema, m: Meaning)
    requires distributed in ms
    requires forall v :: Member(v, distributed, m) ==> InAny(v, branches, m)
    requires forall b <- branches :: BranchWeight(b, m) < Weight(distributed, m)
    requires forall b <- branches :: NoneUnder(Intersection(BranchMeet(b, ms, distributed)), h, m)
    ensures NoneUnder(Intersection(ms), h, m)
  {
    forall v | Assumed(h, v, Weight(Intersection(ms), m), m) ensures !Member(v, Intersection(ms), m) {
      forall weight: nat | weight < Weight(Intersection(ms), m) ensures Assumed(h, v, weight, m) {
        AssumedForLess(h, v, Weight(Intersection(ms), m), weight, m);
      }
      assert InAll(v, ms, m) ==> InAny(v, branches, m);
      forall b | b in branches && InAll(v, ms, m) ensures !Member(v, b, m) {
        NoBranchHoldsIt(b, ms, h, distributed, v, m);
      }
    }
  }

  lemma BranchesCover(member: Schema, m: Meaning)
    requires (member.Union? || (member.Ref? && member.definition < |m.defs|))
    ensures forall v :: Member(v, member, m) <==> InAny(v, BranchesOf(member, m.defs), m)
    ensures forall b <- BranchesOf(member, m.defs) :: BranchWeight(b, m) < Weight(member, m)
  {
    var whole := if member.Ref? then m.defs[member.definition] else member;
    forall b | b in BranchesOf(member, m.defs) ensures BranchWeight(b, m) < Weight(member, m) {
      if whole.Union? { AMemberWeighsLess(whole.members, b, m); }
    }
    assert whole in [whole];
  }

  // ---- The readings that ask no goal.

  lemma AllInAnOf(ms: seq<Schema>, h: Held, m: Meaning)
    requires exists t <- ms :: NoneUnder(t, h, m)
    ensures NoneUnder(Intersection(ms), h, m)
  {
    var t :| t in ms && NoneUnder(t, h, m);
    AMemberWeighsLess(ms, t, m);
    NoneWithin(Intersection(ms), t, h, m);
  }

  lemma NoneOfAny(ms: seq<Schema>, h: Held, m: Meaning)
    requires forall t <- ms :: NoneUnder(t, h, m)
    ensures NoneUnder(Union(ms), h, m)
  {
    forall v | Assumed(h, v, Weight(Union(ms), m), m) ensures !Member(v, Union(ms), m) {
      forall t | t in ms ensures !Member(v, t, m) {
        AMemberWeighsLess(ms, t, m);
        AssumedForLess(h, v, Weight(Union(ms), m), Weight(t, m), m);
      }
    }
  }

  /** A product is empty where a component is: the component stands under a
      constructor, where every hypothesis is a fact. */
  lemma NoneOfAPosition(k: SeqKind, prefix: seq<Schema>, tail: Option<Schema>, h: Held, m: Meaning)
    requires exists t <- prefix :: NoneUnder(t, h, m)
    ensures NoneUnder(Seq(k, prefix, tail), h, m)
  {
    var t :| t in prefix && NoneUnder(t, h, m);
    var j :| 0 <= j < |prefix| && prefix[j] == t;
    forall v | Assumed(h, v, Weight(Seq(k, prefix, tail), m), m) ensures !Member(v, Seq(k, prefix, tail), m) {
      if (v.VList? || v.VTuple?) && j < |v.items| {
        assert Smaller(v.items[j], v);
        AssumedInside(h, v, Weight(Seq(k, prefix, tail), m), v.items[j], Weight(t, m), m);
        assert !Member(v.items[j], ElementAt(prefix, tail, j), m);
      }
    }
  }

  /** A witness at every position is a sequence. */
  lemma {:induction false} Witnesses(ms: seq<Schema>, m: Meaning) returns (items: seq<Value>)
    requires forall t <- ms :: HasValue(t, m)
    ensures |items| == |ms| && forall j :: 0 <= j < |ms| ==> Member(items[j], ms[j], m)
  {
    if ms == [] {
      items := [];
    } else {
      assert HasValue(ms[0], m);
      var v :| Member(v, ms[0], m);
      var rest := Witnesses(ms[1..], m);
      items := [v] + rest;
    }
  }

  function SequenceOf(k: SeqKind, items: seq<Value>): Value { if k.ListSeq? then VList(items) else VTuple(items) }

  lemma APrefixIsASequence(k: SeqKind, prefix: seq<Schema>, tail: Option<Schema>, m: Meaning)
    requires forall t <- prefix :: HasValue(t, m)
    ensures HasValue(Seq(k, prefix, tail), m)
  {
    var items := Witnesses(prefix, m);
    assert Member(SequenceOf(k, items), Seq(k, prefix, tail), m);
  }

  lemma ALiteralIsRead(c: nat, q: Setting, h: Held, m: Meaning)
    requires Reads(q, m)
    ensures Right(LiteralVerdict(c, q), Literal(c), h, m)
  {
    hide Exposed;
    if LiteralVerdict(c, q).Inhabited? {
      ASharedValue(c, q.oracle, m);
      var v :| v in m.literal(c);
      assert Member(v, Literal(c), m);
    }
  }

  lemma InConnectivesAlways(inner: Schema, m: Meaning)
    ensures forall v :: Member(v, Complement(inner), m) <==> !Member(v, inner, m)
    ensures forall v :: !Member(v, Nothing, m)
  {
  }

  lemma AComplementIsRead(inner: Schema, regions: Regions, q: Setting, h: Held, m: Meaning)
    requires Reads(q, m) && (regions.Known? ==> regions == RegionSet(inner).Complement())
    ensures Right(ComplementVerdict(inner, regions, q), Complement(inner), h, m)
  {
    hide MeetSettled;
    hide Truthful;
    hide Member;
    InConnectivesAlways(inner, m);
    if !regions.Settles().Unknown? {
      assert regions == RegionSet(Complement(inner));
      RegionsDecideEmptiness(Complement(inner), m);
    } else if CoversTheUniverse(inner) {
      forall v ensures Member(v, inner, m) { TheUniverseIsCovered(inner, v, m); }
    } else if inner.Union? && PushedComplementIsPlaced(inner, Nothing, q.gate) {
      forall v ensures !Member(v, Complement(inner), m) { APushedPlacementHolds(inner, Nothing, q.gate, v, m); }
    } else if FiniteSet(inner).Some? {
      ATableMissesAValue(inner, m);
    } else if AComplementedMemberHoldsAValue(inner).Inhabited? {
      AComplementedMemberIsRead(inner, m);
    }
  }

  lemma ADisjointPairIsNone(ms: seq<Schema>, o: Oracle, m: Meaning)
    requires Truthful(o, m) && HasDisjointPair(ms, o)
    ensures !HasValue(Intersection(ms), m)
  {
    hide Exposed;
    hide Truthful;
    var i, j :| 0 <= i < j < |ms| && DisjointWith(ms[i], ms[j], o);
    DisjointIsApart(ms[i], ms[j], o, m);
    forall v ensures !Member(v, Intersection(ms), m) { assert ms[i] in ms && ms[j] in ms; }
  }

  lemma {:induction false} GatheredAreSatisfied(ms: seq<Schema>, v: Value, m: Meaning)
    requires InAll(v, ms, m)
    ensures AllSatisfied(GatheredConstraints(ms), v, m)
  {
    if ms != [] {
      InSplit(v, ms, m);
      GatheredAreSatisfied(ms[1..], v, m);
    }
  }

  lemma {:induction false} GatheredDenote(ms: seq<Schema>, base: Schema, v: Value, m: Meaning)
    requires (forall t <- ms :: t.Refine? && t.base == base) && Member(v, base, m)
    ensures InAll(v, ms, m) <==> AllSatisfied(GatheredConstraints(ms), v, m)
  {
    hide MeetSettled;
    hide Exposed;
    hide InAny;
    if ms != [] {
      InSplit(v, ms, m);
      GatheredDenote(ms[1..], base, v, m);
      assert AllSatisfied(GatheredConstraints(ms), v, m) <==>
        AllSatisfied(ms[0].constraints, v, m) && AllSatisfied(GatheredConstraints(ms[1..]), v, m);
    }
  }

  lemma IntegersAreCounted(ms: seq<Schema>, v: Value, m: Meaning)
    requires CountsIntegers(ms) && InAll(v, ms, m)
    ensures OfKind(v, Kind.Int)
  {
    var t :| t in ms && (TypeTag(t, SILENT) == Some(Kind.Int) || TypeTag(t, SILENT) == Some(Kind.Bool));
    SilentTagIsSound(t, v, m);
  }

  lemma {:induction false} SilentTagIsSound(s: Schema, v: Value, m: Meaning)
    requires TypeTag(s, SILENT).Some? && Member(v, s, m)
    ensures OfKind(v, TypeTag(s, SILENT).value)
    decreases s
  {
    if s.Refine? { SilentTagIsSound(s.base, v, m); }
  }

  lemma UnsatisfiableBoundsAreNone(ms: seq<Schema>, o: Oracle, m: Meaning)
    requires Truthful(o, m) && Unsatisfiable(GatheredConstraints(ms), o, CountsIntegers(ms))
    ensures !HasValue(Intersection(ms), m)
  {
    forall v ensures !Member(v, Intersection(ms), m) {
      if InAll(v, ms, m) {
        GatheredAreSatisfied(ms, v, m);
        if CountsIntegers(ms) { IntegersAreCounted(ms, v, m); }
        UnsatisfiableHoldsNothing(GatheredConstraints(ms), o, CountsIntegers(ms), v, m);
      }
    }
  }

  lemma ASettledMeetIsRight(ms: seq<Schema>, empty: bool, regions: Regions, q: Setting, h: Held, m: Meaning)
    requires Reads(q, m)
    requires empty ==> exists t <- ms :: NoneUnder(t, h, m)
    requires regions.Known? ==> regions == RegionSet(Intersection(ms))
    ensures Right(MeetSettled(ms, empty, regions, q), Intersection(ms), h, m)
  {
    hide Exposed;
    hide Truthful;
    var meet := Intersection(ms);
    if empty {
      AllInAnOf(ms, h, m);
    } else if HasComplementaryPair(ms, Meet, q.gate, Asked(true, false)) {
      forall v ensures !Member(v, meet, m) { ComplementaryPairIsEmpty(ms, q.gate, Asked(true, false), v, m); }
    } else if HasDisjointPair(ms, q.oracle) {
      ADisjointPairIsNone(ms, q.oracle, m);
    } else if Unsatisfiable(GatheredConstraints(ms), q.oracle, CountsIntegers(ms)) {
      UnsatisfiableBoundsAreNone(ms, q.oracle, m);
    } else if regions.Known? {
      RegionsDecideEmptiness(meet, m);
    } else if HasComplementaryPair(ms, Meet, q.gate, Asked(true, true)) {
      forall v ensures !Member(v, meet, m) { ComplementaryPairIsEmpty(ms, q.gate, Asked(true, true), v, m); }
    } else if KindsPossiblyHeld(meet, q) == {} {
      NoKindIsNoValue(meet, q, m);
    }
  }

  lemma AClassBelowIsNone(ms: seq<Schema>, q: Setting, m: Meaning)
    requires Reads(q, m) && AClassBelowTheComplementBesideIt(ms, q)
    ensures !HasValue(Intersection(ms), m)
  {
    hide MeetWithin;
    hide ExposedByAny;
    var i :| 0 <= i < |ms|
      && q.oracle.leafSubtype(ms[i], Complement(MeetWithin(ms[..i] + ms[i + 1..], q.gate, true))) == Some(true);
    var beside := ms[..i] + ms[i + 1..];
    assert forall t <- beside :: t in ms;
    assert ms[i] in ms;
    forall v ensures !Member(v, Intersection(ms), m) {
      if InAll(v, ms, m) { MeetDenotes(beside, q.gate, true, v, m); }
    }
  }

  lemma ASequenceStops(base: Schema, v: Value, m: Meaning)
    requires base.Seq? && Member(v, base, m)
    requires base.tail.Some? ==> forall w :: Smaller(w, v) ==> !Member(w, base.tail.value, m)
    ensures |v.items| == |base.prefix|
  {
    if |v.items| > |base.prefix| {
      var j := |base.prefix|;
      assert Member(v.items[j], ElementAt(base.prefix, base.tail, j), m) && Smaller(v.items[j], v);
    }
  }

  lemma ASetOfNothing(base: Schema, v: Value, m: Meaning)
    requires base.Coll? && base.element.Nothing? && Member(v, base, m)
    ensures v.elements == {}
  {
    assert forall e <- v.elements :: Member(e, base.element, m);
  }

  lemma LengthsMissIsNone(base: Schema, cs: seq<Constraint>, tailEmpty: bool, v: Value, m: Meaning)
    requires LengthsMiss(base, cs, tailEmpty)
    requires tailEmpty && base.Seq? && base.tail.Some? ==> forall w :: Smaller(w, v) ==> !Member(w, base.tail.value, m)
    ensures !(Member(v, base, m) && AllSatisfied(cs, v, m))
  {
    if AllSatisfied(cs, v, m) && Member(v, base, m) {
      LengthsAreBounded(cs, v, m);
      if base.Seq? {
        if base.tail.None? || tailEmpty { ASequenceStops(base, v, m); }
      } else {
        ASetOfNothing(base, v, m);
      }
    }
  }

  lemma AMemberPastTheBoundsIsNone(ms: seq<Schema>, m: Meaning)
    requires AMemberPastTheBoundsBesideIt(ms)
    ensures !HasValue(Intersection(ms), m)
  {
    hide Exposed;
    var i, j :| 0 <= i < |ms| && 0 <= j < |ms| && ms[i].Refine?
      && LengthsMiss(ms[j], ms[i].constraints, ms[j].Seq? && ms[j].tail == Some(Nothing));
    forall v ensures !Member(v, Intersection(ms), m) {
      assert ms[i] in ms && ms[j] in ms;
      LengthsMissIsNone(ms[j], ms[i].constraints, ms[j].Seq? && ms[j].tail == Some(Nothing), v, m);
    }
  }
}
