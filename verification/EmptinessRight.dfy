/** The induction over the emptiness recursion, reading by reading. */
module EmptinessRight {
  import opened Verdicts
  import opened Kinds
  import opened Schemas
  import opened Constructors
  import opened Values
  import opened Oracles
  import opened Readings
  import opened Disjointness
  import opened Tables
  import opened Shapes
  import opened Bounds
  import opened Narrowing
  import opened Weights
  import opened Emptiness
  import opened EmptinessSound

  ghost predicate RightRead(r: Read, s: Schema, h: Held, m: Meaning)
  {
    Right(r.verdict, s, h, m) && (r.regions.Known? ==> r.regions == RegionSet(s))
  }

  /** The recursion answers rightly, at any budget, depth and hypotheses. */
  lemma {:induction false} EmptinessIsRight(s: Schema, q: Setting, h: Held, depth: nat, steps: nat, m: Meaning)
    requires Reads(q, m)
    ensures RightRead(EmptyAndRegion(s, q, h, depth, steps), s, h, m)
    decreases steps, 0, 0
  {
    hide MeetSettled;
    hide Member;
    hide Truthful;
    if depth < q.maxDepth && steps > 0 { EmptinessAtIsRight(s, q, h, depth + 1, steps - 1, m); }
  }

  lemma {:induction false} EmptinessAtIsRight(s: Schema, q: Setting, h: Held, depth: nat, left: nat, m: Meaning)
    requires Reads(q, m)
    ensures RightRead(EmptyAndRegionAt(s, q, h, depth, left), s, h, m)
    decreases left, 3, 0
  {
    hide MeetSettled;
    hide Member;
    hide Exposed;
    hide Truthful;
    hide TheTablesHold;
    if AtomRegion(s).Some? {
      RegionsDecideEmptiness(s, m);
    } else if s.Ref? {
      AReferenceIsRight(s.definition, q, h, depth, left, m);
    } else if s.Seq? {
      EveryPositionIsRight(s.prefix, Verdict.Inhabited, q, h, depth, left, m);
      var verdict := EveryPosition(s.prefix, Verdict.Inhabited, q, h, depth, left).verdict;
      if verdict.Empty? { NoneOfAPosition(s.container, s.prefix, s.tail, h, m); }
      if verdict.Inhabited? { APrefixIsASequence(s.container, s.prefix, s.tail, m); }
    } else if s.Refine? {
      if s.constraints == [] {
        EmptinessIsRight(s.base, q, h, depth, left, m);
        ARefinementOfNothingMore(s, EmptyAndRegion(s.base, q, h, depth, left), h, m);
      } else {
        RefinementIsRight(s.base, s.constraints, q, h, depth, left, m);
      }
    } else if s.Intersection? {
      MeetIsRight(s.members, q, h, depth, left, m);
    } else if s.Union? {
      UnionIsRight(s.members, Verdict.Empty, UNION_UNIT, q, h, depth, left, m);
      if UnionRead(s.members, Verdict.Empty, UNION_UNIT, q, h, depth, left).verdict.Empty? { NoneOfAny(s.members, h, m); }
    } else if s.Complement? {
      EmptinessIsRight(s.inner, q, h, depth, left, m);
      AComplementIsRead(s.inner, EmptyAndRegion(s.inner, q, h, depth, left).regions.Complement(), q, h, m);
    } else {
      ALeafIsRight(s, q, h, depth, left, m);
    }
  }

  lemma ALeafIsRight(s: Schema, q: Setting, h: Held, depth: nat, left: nat, m: Meaning)
    requires Reads(q, m) && AtomRegion(s).None?
    requires s.Nothing? || s.Anything? || s.Coll? || s.Literal? || s.Instance?
    ensures RightRead(EmptyAndRegionAt(s, q, h, depth, left), s, h, m)
  {
    hide MeetSettled;
    hide Exposed;
    if s.Literal? {
      ALiteralIsRead(s.constant, q, h, m);
    } else if s.Instance? {
      if q.oracle.classIsASet(s.class_) == Some(true) {
        var v :| m.instance(s.class_, v);
        assert Member(v, s, m);
      }
    } else if s.Coll? {
      AShapeHoldsAValue(s, m);
    } else if s.Anything? {
      assert Member(VNone, s, m);
    }
  }

  lemma ARefinementOfNothingMore(s: Schema, r: Read, h: Held, m: Meaning)
    requires s.Refine? && s.constraints == [] && RightRead(r, s.base, h, m)
    ensures RightRead(r, s, h, m)
  {
    assert forall v :: Member(v, s, m) <==> Member(v, s.base, m);
    if r.verdict.Empty? { NoneWithin(s, s.base, h, m); }
    if r.verdict.Inhabited? {
      var v :| Member(v, s.base, m);
      assert Member(v, s, m);
    }
  }

  lemma AReferenceIsRight(i: nat, q: Setting, h: Held, depth: nat, left: nat, m: Meaning)
    requires Reads(q, m)
    ensures RightRead(EmptyAndRegionAt(Ref(i), q, h, depth, left), Ref(i), h, m)
    decreases left, 2, 0
  {
    hide MeetSettled;
    hide Exposed;
    hide Truthful;
    if i in h.visiting {
      assert forall v :: Assumed(h, v, Weight(Ref(i), m), m) ==> NoneUpTo(Ref(i), v, Weight(Ref(i), m), m);
    } else if i < |q.defs| {
      var within := h.(visiting := h.visiting + [i]);
      EmptinessIsRight(q.defs[i], q, within, depth, left, m);
      var verdict := EmptyAndRegion(q.defs[i], q, within, depth, left).verdict;
      if verdict.Empty? { ADefinitionResolved(i, h, m); }
      if verdict.Inhabited? {
        var v :| Member(v, m.defs[i], m);
        assert Member(v, Ref(i), m);
      }
    }
  }

  ghost predicate SomeNone(ms: seq<Schema>, h: Held, m: Meaning)
  {
    exists t <- ms :: NoneUnder(t, h, m)
  }

  ghost predicate AllNone(ms: seq<Schema>, h: Held, m: Meaning)
  {
    forall t <- ms :: NoneUnder(t, h, m)
  }

  ghost predicate AllHeld(ms: seq<Schema>, m: Meaning)
  {
    forall t <- ms :: HasValue(t, m)
  }

  ghost predicate SomeHeld(ms: seq<Schema>, m: Meaning)
  {
    exists t <- ms :: HasValue(t, m)
  }

  lemma HeldSplit(ms: seq<Schema>, h: Held, m: Meaning)
    requires ms != []
    ensures SomeNone(ms, h, m) <==> NoneUnder(ms[0], h, m) || SomeNone(ms[1..], h, m)
    ensures AllNone(ms, h, m) <==> NoneUnder(ms[0], h, m) && AllNone(ms[1..], h, m)
    ensures AllHeld(ms, m) <==> HasValue(ms[0], m) && AllHeld(ms[1..], m)
    ensures SomeHeld(ms, m) <==> HasValue(ms[0], m) || SomeHeld(ms[1..], m)
  {
    assert forall t :: t in ms <==> t == ms[0] || t in ms[1..];
  }

  lemma {:induction false} EveryPositionIsRight(ms: seq<Schema>, verdict: Verdict, q: Setting, h: Held, depth: nat, left: nat, m: Meaning)
    requires Reads(q, m)
    ensures var r := EveryPosition(ms, verdict, q, h, depth, left);
      && (r.verdict.Empty? ==> verdict.Empty? || SomeNone(ms, h, m))
      && (r.verdict.Inhabited? ==> verdict.Inhabited? && AllHeld(ms, m))
      && r.regions.Unknown?
    decreases left, 1, |ms|
  {
    hide MeetSettled;
    hide Member;
    hide Truthful;
    hide EmptyAndRegion;
    if ms != [] && !verdict.Empty? {
      var first := EmptyAndRegion(ms[0], q, h, depth, left);
      EmptinessIsRight(ms[0], q, h, depth, left, m);
      EveryPositionIsRight(ms[1..], Both(verdict, first.verdict), q, h, depth, first.left, m);
      HeldSplit(ms, h, m);
    }
  }

  lemma {:induction false} UnionIsRight(ms: seq<Schema>, verdict: Verdict, regions: Regions, q: Setting, h: Held, depth: nat, left: nat, m: Meaning)
    requires Reads(q, m)
    ensures var r := UnionRead(ms, verdict, regions, q, h, depth, left);
      && (r.verdict.Empty? ==> verdict.Empty? && AllNone(ms, h, m))
      && (r.verdict.Inhabited? ==> verdict.Inhabited? || HasValue(Union(ms), m))
      && (r.regions.Known? ==> regions.Known? && r.regions == RegionJoin(ms, regions))
    decreases left, 1, |ms|
  {
    hide MeetSettled;
    hide Member;
    hide Truthful;
    hide EmptyAndRegion;
    if ms != [] && !(!verdict.Empty? && regions.Unknown?) {
      var first := EmptyAndRegion(ms[0], q, h, depth, left);
      EmptinessIsRight(ms[0], q, h, depth, left, m);
      UnionIsRight(ms[1..], Either(verdict, first.verdict), regions.Union(first.regions), q, h, depth, first.left, m);
      HeldSplit(ms, h, m);
      SomeHeldIsHeld(ms, m);
    }
  }

  lemma SomeHeldIsHeld(ms: seq<Schema>, m: Meaning)
    requires ms != []
    ensures HasValue(ms[0], m) || HasValue(Union(ms[1..]), m) ==> HasValue(Union(ms), m)
  {
    forall v ensures InAny(v, ms, m) <==> Member(v, ms[0], m) || InAny(v, ms[1..], m) { InSplit(v, ms, m); }
    if HasValue(ms[0], m) {
      var v :| Member(v, ms[0], m);
      assert Member(v, Union(ms), m);
    } else if HasValue(Union(ms[1..]), m) {
      var v :| Member(v, Union(ms[1..]), m);
      assert InAny(v, ms[1..], m) && Member(v, Union(ms), m);
    }
  }

  lemma {:induction false} MembersAreRight(ms: seq<Schema>, empty: bool, regions: Regions, q: Setting, h: Held, depth: nat, left: nat, m: Meaning)
    requires Reads(q, m)
    ensures var (any, r) := MembersRead(ms, empty, regions, q, h, depth, left);
      && (any ==> empty || SomeNone(ms, h, m))
      && (r.regions.Known? ==> regions.Known? && r.regions == RegionMeet(ms, regions))
    decreases left, 1, |ms|
  {
    hide MeetSettled;
    hide Truthful;
    hide Member;
    hide EmptyAndRegion;
    if ms != [] && !(empty && regions.Unknown?) {
      var first := EmptyAndRegion(ms[0], q, h, depth, left);
      EmptinessIsRight(ms[0], q, h, depth, left, m);
      MembersAreRight(ms[1..], empty || first.verdict.Empty?, regions.Intersect(first.regions), q, h, depth, first.left, m);
      HeldSplit(ms, h, m);
    }
  }

  lemma {:induction false} MeetIsRight(ms: seq<Schema>, q: Setting, h: Held, depth: nat, left: nat, m: Meaning)
    requires Reads(q, m)
    ensures RightRead(MeetRead(ms, q, h, depth, left), Intersection(ms), h, m)
    decreases left, 2, 0, 0
  {
    hide MeetSettled;
    hide Member;
    hide Exposed;
    hide Truthful;
    hide TheTablesHold;
    hide EmptyAndRegion;
    hide CanonicalMembers;
    var (empty, members) := MembersRead(ms, false, MEET_UNIT, q, h, depth, left);
    MembersAreRight(ms, false, MEET_UNIT, q, h, depth, left, m);
    ASettledMeetIsRight(ms, empty, members.regions, q, h, m);
    DeclinedMeetIsRight(ms, q, h, depth, members.left, m);
  }

  lemma OneRefinementDenotes(ms: seq<Schema>, m: Meaning)
    requires OneRefinement(ms).Some?
    ensures forall v :: Member(v, OneRefinement(ms).value, m) <==> InAll(v, ms, m)
    ensures Weight(OneRefinement(ms).value, m) <= 1 + WeightOfAll(ms, m)
  {
    hide Exposed;
    var cs := GatheredConstraints(ms[1..]);
    forall v ensures Member(v, OneRefinement(ms).value, m) <==> InAll(v, ms, m) {
      RefinedDenotes(ms[0], cs, v, m);
      InSplit(v, ms, m);
      if Member(v, ms[0].base, m) { GatheredDenote(ms[1..], ms[0].base, v, m); }
    }
    AMemberWeighsLess(ms, ms[0], m);
  }

  lemma SameSetRight(verdict: Verdict, inner: Schema, outer: Schema, h: Held, m: Meaning)
    requires Right(verdict, inner, h, m) && Weight(inner, m) <= Weight(outer, m)
    requires forall v :: Member(v, inner, m) <==> Member(v, outer, m)
    ensures Right(verdict, outer, h, m)
  {
    if verdict.Empty? { NoneWithin(outer, inner, h, m); }
    if verdict.Inhabited? {
      var v :| Member(v, inner, m);
      assert Member(v, outer, m);
    }
  }

  lemma {:induction false} DeclinedMeetIsRight(ms: seq<Schema>, q: Setting, h: Held, depth: nat, left: nat, m: Meaning)
    requires Reads(q, m)
    ensures Right(DeclinedMeetRead(ms, q, h, depth, left).verdict, Intersection(ms), h, m)
    decreases left, 1, |ms| + 4
  {
    hide OneRefinement, AClassBelowTheComplementBesideIt, Truthful, HoldsTheExactEmpty, RespelledMeetRead, AMemberPastTheBoundsBesideIt, PositionsMeeting, TheTablesHold;
    hide MeetSettled;
    hide EmptyAndRegion;
    var meet := Intersection(ms);
    var one := if OneRefinement(ms).Some? then EmptyAndRegion(OneRefinement(ms).value, q, h, depth, left)
               else Settled(Verdict.Unknown, left);
    if OneRefinement(ms).Some? {
      EmptinessIsRight(OneRefinement(ms).value, q, h, depth, left, m);
      OneRefinementDenotes(ms, m);
      SameSetRight(one.verdict, OneRefinement(ms).value, meet, h, m);
    }
    if one.verdict.Unknown? {
      if AnEmptyContainerInEveryMember(ms) {
        AnEmptyContainerIsShared(ms, m);
      } else {
        PositionsMeetingIsRight(ms, q, h, depth, one.left, m);
        var placed := PositionsMeeting(ms, q, h, depth, one.left);
        if AClassBelowTheComplementBesideIt(ms, q) { AClassBelowIsNone(ms, q, m); }
        RespelledMeetIsRight(ms, q, h, depth, placed.left, m);
        TheTablesAreRead(ms, q.oracle, m);
        if AMemberPastTheBoundsBesideIt(ms) { AMemberPastTheBoundsIsNone(ms, m); }
      }
    }
  }

  lemma {:induction false} RespelledMeetIsRight(ms: seq<Schema>, q: Setting, h: Held, depth: nat, left: nat, m: Meaning)
    requires Reads(q, m)
    ensures Right(RespelledMeetRead(ms, q, h, depth, left).verdict, Intersection(ms), h, m)
    decreases left, 1, |ms| + 3
  {
    hide MeetSettled;
    hide Truthful;
    hide Exposed;
    hide EmptyAndRegion;
    hide MeetWithin;
    hide CanonicalMembers;
    if NarrowedMeet(ms, q.gate).None? {
      DistributedIsRight(ms, q, h, depth, left, m);
    } else {
      var narrowed := NarrowedMeet(ms, q.gate).value;
      EmptinessIsRight(narrowed, q, h, depth, left, m);
      forall v ensures Member(v, narrowed, m) <==> Member(v, Intersection(ms), m) { NarrowedMeetDenotes(ms, q.gate, v, m); }
      NarrowedMeetWeighs(ms, q.gate, m);
      var r := EmptyAndRegion(narrowed, q, h, depth, left);
      SameSetRight(r.verdict, narrowed, Intersection(ms), h, m);
      DistributedIsRight(ms, q, h, depth, Least(r.left, q.respelling), m);
    }
  }

  // ---- Two sequences position by position.

  ghost predicate OfSequence(v: Value, a: Sequence, m: Meaning)
  {
    Member(v, Seq(a.container, a.prefix, a.tail), m) && a.least <= |v.items|
  }

  lemma {:induction false} SequencesAreMembers(ms: seq<Schema>, v: Value, m: Meaning)
    requires InAll(v, ms, m)
    ensures forall a <- SequencesOf(ms) :: OfSequence(v, a, m)
  {
    if ms != [] {
      InSplit(v, ms, m);
      SequencesAreMembers(ms[1..], v, m);
      if ms[0].Refine? && ms[0].base.Seq? { LengthsAreBounded(ms[0].constraints, v, m); }
    }
  }

  lemma {:induction false} PositionsMeetingIsRight(ms: seq<Schema>, q: Setting, h: Held, depth: nat, left: nat, m: Meaning)
    requires Reads(q, m)
    ensures Right(PositionsMeeting(ms, q, h, depth, left).verdict, Intersection(ms), h, m)
    ensures !PositionsMeeting(ms, q, h, depth, left).verdict.Inhabited?
    decreases left, 1, |ms| + 3
  {
    hide MeetSettled;
    hide Truthful;
    hide TheTablesHold;
    hide EmptyAndRegion;
    hide MeetWithin;
    var found := SequencesOf(ms);
    if |found| >= 2 && found[0].container == found[1].container {
      PositionMeetingIsRight(found[0], found[1], 0, q, h, depth, left, m);
      if PositionMeeting(found[0], found[1], 0, q, h, depth, left).verdict.Empty? {
        forall v | Assumed(h, v, Weight(Intersection(ms), m), m) ensures !Member(v, Intersection(ms), m) {
          if InAll(v, ms, m) { SequencesAreMembers(ms, v, m); }
        }
      }
    }
  }

  lemma {:induction false} PositionMeetingIsRight(a: Sequence, b: Sequence, position: nat, q: Setting, h: Held, depth: nat, left: nat, m: Meaning)
    requires Reads(q, m)
    ensures PositionMeeting(a, b, position, q, h, depth, left).verdict.Empty? ==>
      forall v, weight: nat :: Assumed(h, v, weight, m) ==> !(OfSequence(v, a, m) && OfSequence(v, b, m))
    ensures !PositionMeeting(a, b, position, q, h, depth, left).verdict.Inhabited?
    decreases left, 0, 1 + if position < PositionsRead(a, b) then PositionsRead(a, b) - position else 0
  {
    hide MeetSettled;
    hide Truthful;
    hide EmptyAndRegion;
    hide MeetWithin;
    if position < PositionsRead(a, b) {
      if a.At(position).None? || b.At(position).None? {
        PositionMeetingIsRight(a, b, position + 1, q, h, depth, left, m);
      } else {
        var both := MeetWithin([a.At(position).value, b.At(position).value], q.gate, true);
        var first := EmptyAndRegion(both, q, h, depth, left);
        EmptinessIsRight(both, q, h, depth, left, m);
        if first.verdict.Empty? {
          forall v, weight: nat | Assumed(h, v, weight, m) ensures !(OfSequence(v, a, m) && OfSequence(v, b, m)) {
            if OfSequence(v, a, m) && OfSequence(v, b, m) { APositionMeetsInNothing(a, b, position, both, q, h, v, weight, m); }
          }
        } else {
          PositionMeetingIsRight(a, b, position + 1, q, h, depth, first.left, m);
        }
      }
    }
  }

  lemma APositionMeetsInNothing(a: Sequence, b: Sequence, position: nat, both: Schema, q: Setting, h: Held, v: Value, weight: nat, m: Meaning)
    requires Reads(q, m) && position < PositionsRead(a, b)
    requires a.At(position).Some? && b.At(position).Some?
    requires both == MeetWithin([a.At(position).value, b.At(position).value], q.gate, true)
    requires NoneUnder(both, h, m) && Assumed(h, v, weight, m)
    requires OfSequence(v, a, m)
    ensures !OfSequence(v, b, m)
  {
    hide Exposed;
    hide Truthful;
    if OfSequence(v, b, m) {
      var item := v.items[position];
      assert Smaller(item, v);
      AssumedInside(h, v, weight, item, Weight(both, m), m);
      assert Member(item, ElementAt(a.prefix, a.tail, position), m);
      assert Member(item, ElementAt(b.prefix, b.tail, position), m);
      MeetDenotes([a.At(position).value, b.At(position).value], q.gate, true, item, m);
    }
  }

  // ---- A meet unfolded or distributed.

  lemma {:induction false} BranchesAreRight(branches: seq<Schema>, ms: seq<Schema>, distributed: Schema, verdict: Verdict, q: Setting, h: Held, depth: nat, left: nat, m: Meaning)
    requires Reads(q, m)
    ensures var r := BranchesRead(branches, ms, distributed, verdict, q, h, depth, left);
      && (r.verdict.Empty? ==> verdict.Empty? && forall b <- branches :: NoneUnder(Intersection(BranchMeet(b, ms, distributed)), h, m))
      && (r.verdict.Inhabited? ==> verdict.Inhabited? || exists b <- branches :: HasValue(Intersection(BranchMeet(b, ms, distributed)), m))
    decreases left, 0, 1 + |branches|
  {
    hide MeetSettled;
    hide Exposed;
    hide Truthful;
    hide Member;
    hide EmptyAndRegion;
    if branches != [] && !verdict.Inhabited? {
      var meet := Intersection(BranchMeet(branches[0], ms, distributed));
      var first := EmptyAndRegion(meet, q, h, depth, left);
      EmptinessIsRight(meet, q, h, depth, left, m);
      BranchesAreRight(branches[1..], ms, distributed, Either(verdict, first.verdict), q, h, depth, first.left, m);
      assert forall b :: b in branches <==> b == branches[0] || b in branches[1..];
    }
  }

  lemma ABranchMeetIsHeld(ms: seq<Schema>, distributed: Schema, m: Meaning)
    requires (distributed.Union? || (distributed.Ref? && distributed.definition < |m.defs|))
    requires exists b <- BranchesOf(distributed, m.defs) :: HasValue(Intersection(BranchMeet(b, ms, distributed)), m)
    ensures HasValue(Intersection(ms), m)
  {
    BranchesCover(distributed, m);
    var b :| b in BranchesOf(distributed, m.defs) && HasValue(Intersection(BranchMeet(b, ms, distributed)), m);
    var v :| Member(v, Intersection(BranchMeet(b, ms, distributed)), m);
    ABranchMeetIsWithin(b, ms, distributed, v, m);
    assert Member(v, Intersection(ms), m);
  }

  lemma {:induction false} DistributedIsRight(ms: seq<Schema>, q: Setting, h: Held, depth: nat, left: nat, m: Meaning)
    requires Reads(q, m)
    ensures Right(DistributedRead(ms, q, h, depth, left).verdict, Intersection(ms), h, m)
    decreases left, 1, |ms| + 2
  {
    hide MeetSettled;
    hide Member;
    hide Truthful;
    hide EmptyAndRegion;
    hide CanonicalMembers;
    var reference := ReferenceAt(ms, q.defs, 0);
    var at := if reference.Some? then reference else UnionAt(ms, 0);
    if at.Some? {
      var distributed := ms[at.value];
      var branches, goal := BranchesOf(distributed, q.defs), CanonicalMembers(ms);
      BranchesCover(distributed, m);
      if reference.Some? || (exists b <- branches :: b.Ref?) || h.meets != [] {
        if goal in h.meets {
          AGoalMetAgain(ms, h, m);
        } else {
          var within := h.(meets := h.meets + [goal]);
          BranchesAreRight(branches, ms, distributed, Verdict.Empty, q, within, depth, left, m);
          var verdict := BranchesRead(branches, ms, distributed, Verdict.Empty, q, within, depth, left).verdict;
          if verdict.Empty? { AMeetClosed(ms, h, branches, distributed, m); }
          if verdict.Inhabited? { ABranchMeetIsHeld(ms, distributed, m); }
        }
      } else if NormalFormWithin(ms, 1) {
        BranchesAreRight(branches, ms, distributed, Verdict.Empty, q, h, depth, left, m);
        var verdict := BranchesRead(branches, ms, distributed, Verdict.Empty, q, h, depth, left).verdict;
        if verdict.Empty? { AMeetDistributed(ms, h, branches, distributed, m); }
        if verdict.Inhabited? { ABranchMeetIsHeld(ms, distributed, m); }
      }
    }
  }

  lemma AGoalMetAgain(ms: seq<Schema>, h: Held, m: Meaning)
    requires CanonicalMembers(ms) in h.meets
    ensures NoneUnder(Intersection(ms), h, m)
  {
    TheGoalIsTheMeet(ms, m);
    var t := Intersection(CanonicalMembers(ms));
    assert forall v :: Assumed(h, v, Weight(t, m), m) ==> NoneUpTo(t, v, Weight(t, m), m);
  }

  // ---- Refinements.

  lemma {:induction false} RefinementIsRight(base: Schema, cs: seq<Constraint>, q: Setting, h: Held, depth: nat, left: nat, m: Meaning)
    requires Reads(q, m)
    ensures RightRead(RefinementRead(base, cs, q, h, depth, left), Refine(base, cs), h, m)
    decreases left, 2, Size(base), 0, 1
  {
    hide MeetSettled;
    hide Exposed;
    hide Truthful;
    hide TheTablesHold;
    hide EmptyAndRegion;
    var s := Refine(base, cs);
    if base.Refine? {
      EmptinessIsRight(Refined(base, cs), q, h, depth, left, m);
      forall v ensures Member(v, Refined(base, cs), m) <==> Member(v, s, m) { RefinedDenotes(base, cs, v, m); }
      SameSetRight(EmptyAndRegion(Refined(base, cs), q, h, depth, left).verdict, Refined(base, cs), s, h, m);
    } else {
      var based := EmptyAndRegion(base, q, h, depth, left);
      EmptinessIsRight(base, q, h, depth, left, m);
      if based.verdict.Empty? {
        NoneWithin(s, base, h, m);
      } else if Unsatisfiable(cs, q.oracle, CountsIntegers([base])) {
        AnUnsatisfiableRefinement(base, cs, q.oracle, m);
      } else {
        ABoundedRefinementIsRight(base, cs, q, h, depth, based.left, m);
      }
    }
  }

  lemma AnUnsatisfiableRefinement(base: Schema, cs: seq<Constraint>, o: Oracle, m: Meaning)
    requires Truthful(o, m) && Unsatisfiable(cs, o, CountsIntegers([base]))
    ensures !HasValue(Refine(base, cs), m)
  {
    hide Exposed;
    forall v ensures !Member(v, Refine(base, cs), m) {
      if Member(v, base, m) {
        if CountsIntegers([base]) { IntegersAreCounted([base], v, m); }
        UnsatisfiableHoldsNothing(cs, o, CountsIntegers([base]), v, m);
      }
    }
  }

  /** The part of the reading past the base and the bounds. */
  lemma {:induction false} ABoundedRefinementIsRight(base: Schema, cs: seq<Constraint>, q: Setting, h: Held, depth: nat, left: nat, m: Meaning)
    requires Reads(q, m) && !base.Refine? && !Unsatisfiable(cs, q.oracle, CountsIntegers([base]))
    ensures var repeats := if base.Seq? && base.tail.Some? then EmptyAndRegion(base.tail.value, q, h, depth, left) else Settled(Verdict.Unknown, left);
      if LengthsMiss(base, cs, repeats.verdict.Empty?) then NoneUnder(Refine(base, cs), h, m)
      else if base.Union? then
        Right(RefinedBranchesRead(base.members, cs, Verdict.Empty, q, h, depth, repeats.left).verdict, Refine(base, cs), h, m)
      else (forall c <- cs :: c.MinLen? || c.MaxLen?) ==>
        Right(SizedRead(base, cs, q, h, depth, repeats.left).verdict, Refine(base, cs), h, m)
    decreases left, 2, Size(base), 0, 0
  {
    hide MeetSettled;
    hide Truthful;
    hide EmptyAndRegion;
    var s := Refine(base, cs);
    var repeats := if base.Seq? && base.tail.Some? then EmptyAndRegion(base.tail.value, q, h, depth, left) else Settled(Verdict.Unknown, left);
    if base.Seq? && base.tail.Some? { EmptinessIsRight(base.tail.value, q, h, depth, left, m); }
    if LengthsMiss(base, cs, repeats.verdict.Empty?) {
      forall v | Assumed(h, v, Weight(s, m), m) ensures !Member(v, s, m) {
        if base.Seq? && base.tail.Some? && repeats.verdict.Empty? {
          forall w | Smaller(w, v) ensures !Member(w, base.tail.value, m) {
            AssumedInside(h, v, Weight(s, m), w, Weight(base.tail.value, m), m);
          }
        }
        LengthsMissIsNone(base, cs, repeats.verdict.Empty?, v, m);
      }
    } else if base.Union? {
      RefinedBranchesAreRight(base.members, cs, Verdict.Empty, q, h, depth, repeats.left, m);
      RefinedBranchesAreTheWhole(base.members, cs, h, m);
    } else if forall c <- cs :: c.MinLen? || c.MaxLen? {
      SizedIsRight(base, cs, repeats.verdict.Empty?, q, h, depth, repeats.left, m);
    }
  }

  ghost predicate AllRefinedNone(branches: seq<Schema>, cs: seq<Constraint>, h: Held, m: Meaning)
  {
    forall b <- branches :: NoneUnder(Refine(b, cs), h, m)
  }

  ghost predicate SomeRefinedHeld(branches: seq<Schema>, cs: seq<Constraint>, m: Meaning)
  {
    exists b <- branches :: HasValue(Refine(b, cs), m)
  }

  /** Refining distributes over a union's branches. */
  lemma RefinedBranchesAreTheWhole(branches: seq<Schema>, cs: seq<Constraint>, h: Held, m: Meaning)
    ensures AllRefinedNone(branches, cs, h, m) ==> NoneUnder(Refine(Union(branches), cs), h, m)
    ensures SomeRefinedHeld(branches, cs, m) ==> HasValue(Refine(Union(branches), cs), m)
  {
    hide Exposed;
    hide Assumed;
    hide Member;
    hide Weight;
    var s := Refine(Union(branches), cs);
    forall v ensures Member(v, s, m) <==> exists b <- branches :: Member(v, Refine(b, cs), m) { ARefinedUnion(branches, cs, v, m); }
    if AllRefinedNone(branches, cs, h, m) {
      forall v | Assumed(h, v, Weight(s, m), m) ensures !Member(v, s, m) {
        forall b | b in branches ensures !Member(v, Refine(b, cs), m) {
          ARefinedBranchWeighsLess(branches, b, cs, m);
          AssumedForLess(h, v, Weight(s, m), Weight(Refine(b, cs), m), m);
        }
      }
    }
    if SomeRefinedHeld(branches, cs, m) {
      var b :| b in branches && HasValue(Refine(b, cs), m);
      var v :| Member(v, Refine(b, cs), m);
      assert Member(v, s, m);
    }
  }

  lemma ARefinedUnion(branches: seq<Schema>, cs: seq<Constraint>, v: Value, m: Meaning)
    ensures Member(v, Refine(Union(branches), cs), m) <==> exists b <- branches :: Member(v, Refine(b, cs), m)
  {
    hide Exposed;
    hide Satisfied;
    InAUnion(v, branches, m);
  }

  lemma ARefinedBranchWeighsLess(branches: seq<Schema>, b: Schema, cs: seq<Constraint>, m: Meaning)
    requires b in branches
    ensures Weight(Refine(b, cs), m) <= Weight(Refine(Union(branches), cs), m)
  {
    hide Exposed;
    AMemberWeighsLess(branches, b, m);
    assert Weight(Refine(Union(branches), cs), m) == 1 + Weight(Union(branches), m) && Weight(Refine(b, cs), m) == 1 + Weight(b, m);
  }

  lemma {:induction false} RefinedBranchesAreRight(branches: seq<Schema>, cs: seq<Constraint>, verdict: Verdict, q: Setting, h: Held, depth: nat, left: nat, m: Meaning)
    requires Reads(q, m)
    ensures var r := RefinedBranchesRead(branches, cs, verdict, q, h, depth, left);
      && (r.verdict.Empty? ==> verdict.Empty? && AllRefinedNone(branches, cs, h, m))
      && (r.verdict.Inhabited? ==> verdict.Inhabited? || SomeRefinedHeld(branches, cs, m))
    decreases left, 2, SizeOfAll(branches), |branches|
  {
    hide MeetSettled;
    hide Truthful;
    hide Member;
    hide Weight;
    hide EmptyAndRegion;
    if branches != [] && !verdict.Inhabited? {
      var first := RefinementRead(branches[0], cs, q, h, depth, left);
      RefinementIsRight(branches[0], cs, q, h, depth, left, m);
      RefinedBranchesAreRight(branches[1..], cs, Either(verdict, first.verdict), q, h, depth, first.left, m);
      assert forall b :: b in branches <==> b == branches[0] || b in branches[1..];
    }
  }

  // ---- A value of a length the bounds admit.

  lemma {:induction false} ALengthIsAdmitted(cs: seq<Constraint>, v: Value, m: Meaning)
    requires (forall c <- cs :: c.MinLen? || c.MaxLen?) && Length(v).Some?
    requires Shortest(cs) <= Length(v).value && (Longest(cs).Some? ==> Length(v).value <= Longest(cs).value)
    ensures AllSatisfied(cs, v, m)
  {
    if cs != [] {
      ALengthIsAdmitted(cs[1..], v, m);
      SatisfiedSplit(cs, v, m);
    }
  }

  function Copies(x: Value, n: nat): (r: seq<Value>)
    ensures |r| == n && forall i :: 0 <= i < n ==> r[i] == x
  {
    if n == 0 then [] else [x] + Copies(x, n - 1)
  }

  /** Past its prefix a sequence holds a value of every length. */
  lemma ASequenceOfLength(base: Schema, length: nat, m: Meaning) returns (v: Value)
    requires base.Seq? && base.tail.Some? && length >= |base.prefix|
    requires AllHeld(base.prefix, m) && (length > |base.prefix| ==> HasValue(base.tail.value, m))
    ensures Member(v, base, m) && Length(v) == Some(length)
  {
    hide Exposed;
    var items := Witnesses(base.prefix, m);
    if length > |base.prefix| {
      var x :| Member(x, base.tail.value, m);
      items := items + Copies(x, length - |base.prefix|);
    }
    v := SequenceOf(base.container, items);
    assert forall j :: 0 <= j < |items| ==> Member(items[j], ElementAt(base.prefix, base.tail, j), m);
  }

  lemma {:induction false} SizedIsRight(base: Schema, cs: seq<Constraint>, tailEmpty: bool, q: Setting, h: Held, depth: nat, left: nat, m: Meaning)
    requires Reads(q, m) && !base.Refine? && (forall c <- cs :: c.MinLen? || c.MaxLen?)
    requires !Unsatisfiable(cs, q.oracle, CountsIntegers([base])) && !LengthsMiss(base, cs, tailEmpty)
    ensures Right(SizedRead(base, cs, q, h, depth, left).verdict, Refine(base, cs), h, m)
    decreases left, 1, 0
  {
    hide MeetSettled;
    hide Truthful;
    hide Exposed;
    hide EmptyAndRegion;
    var least := Shortest(cs);
    if Repeated(base).Some? && least == 0 {
      AnEmptyOneIsHeld(base, cs, m);
    } else if Repeated(base).Some? && (base.Seq? || (least == 1 && AValueCanHash(Repeated(base).value))) {
      EmptinessIsRight(Repeated(base).value, q, h, depth, left, m);
      RepeatedIsRight(base, cs, EmptyAndRegion(Repeated(base).value, q, h, depth, left).verdict, h, m);
    } else if base.Str? || base.Bytes? {
      var v := if base.Str? then VStr(seq(least, _ => 'a')) else VBytes(seq(least, _ => 0));
      ALengthIsAdmitted(cs, v, m);
      assert Member(v, Refine(base, cs), m);
    } else if base.Seq? && base.tail.Some? {
      EveryInhabitedIsRight(base.prefix + [base.tail.value], q, h, depth, left, m);
      if EveryInhabited(base.prefix + [base.tail.value], q, h, depth, left).verdict.Inhabited? {
        assert base.tail.value in base.prefix + [base.tail.value];
        var v := ASequenceOfLength(base, Larger(least, |base.prefix|), m);
        ALengthIsAdmitted(cs, v, m);
        assert Member(v, Refine(base, cs), m);
      }
    }
  }

  lemma AnEmptyOneIsHeld(base: Schema, cs: seq<Constraint>, m: Meaning)
    requires Repeated(base).Some? && Shortest(cs) == 0
    requires forall c <- cs :: c.MinLen? || c.MaxLen?
    ensures HasValue(Refine(base, cs), m)
  {
    ALengthIsAdmitted(cs, EmptyOf(base), m);
    assert Member(EmptyOf(base), Refine(base, cs), m);
  }

  /** A container that repeats one element, under a least length past zero. */
  lemma RepeatedIsRight(base: Schema, cs: seq<Constraint>, verdict: Verdict, h: Held, m: Meaning)
    requires Repeated(base).Some? && (forall c <- cs :: c.MinLen? || c.MaxLen?)
    requires Shortest(cs) > 0 && (base.Coll? ==> Shortest(cs) == 1)
    requires Longest(cs).Some? ==> Shortest(cs) <= Longest(cs).value
    requires Right(verdict, Repeated(base).value, h, m)
    ensures Right(verdict, Refine(base, cs), h, m)
  {
    var element := Repeated(base).value;
    if verdict.Inhabited? {
      var v: Value;
      if base.Seq? {
        v := ASequenceOfLength(base, Shortest(cs), m);
      } else {
        var x :| Member(x, element, m);
        v := if base.kind.SetColl? then VSet({x}) else VFrozenSet({x});
      }
      ALengthIsAdmitted(cs, v, m);
      assert Member(v, Refine(base, cs), m);
    }
    if verdict.Empty? { ARepeatedNothing(base, cs, h, m); }
  }

  lemma ARepeatedNothing(base: Schema, cs: seq<Constraint>, h: Held, m: Meaning)
    requires Repeated(base).Some? && Shortest(cs) > 0 && NoneUnder(Repeated(base).value, h, m)
    ensures NoneUnder(Refine(base, cs), h, m)
  {
    var s, element := Refine(base, cs), Repeated(base).value;
    forall v | Assumed(h, v, Weight(s, m), m) ensures !Member(v, s, m) {
      if Member(v, s, m) {
        LengthsAreBounded(cs, v, m);
        StarsHoldTheirElements(base, v, m);
        var x := SomeElement(v);
        InsideIsSmaller(x, v);
        AssumedInside(h, v, Weight(s, m), x, Weight(element, m), m);
      }
    }
  }

  lemma InsideIsSmaller(x: Value, v: Value)
    requires Inside(x, v)
    ensures Smaller(x, v)
  {
    match v
    case VList(items) => assert x in items;
    case VTuple(items) => assert x in items;
    case VSet(elements) => assert x in elements;
    case VFrozenSet(elements) => assert x in elements;
  }

  lemma {:induction false} EveryInhabitedIsRight(ms: seq<Schema>, q: Setting, h: Held, depth: nat, left: nat, m: Meaning)
    requires Reads(q, m)
    ensures EveryInhabited(ms, q, h, depth, left).verdict.Inhabited? ==> AllHeld(ms, m)
    decreases left, 0, 1 + |ms|
  {
    hide MeetSettled;
    hide Member;
    hide Truthful;
    hide EmptyAndRegion;
    if ms != [] {
      EmptinessIsRight(ms[0], q, h, depth, left, m);
      EveryInhabitedIsRight(ms[1..], q, h, depth, EmptyAndRegion(ms[0], q, h, depth, left).left, m);
      HeldSplit(ms, h, m);
    }
  }

  /** At the root no hypothesis is open: empty is no value, and inhabited one. */
  lemma EmptinessIsRightAtTheRoot(s: Schema, q: Setting, depth: nat, steps: nat, m: Meaning)
    requires Reads(q, m)
    ensures EmptyAndRegion(s, q, NOTHING_HELD, depth, steps).verdict.Empty? ==> !HasValue(s, m)
    ensures EmptyAndRegion(s, q, NOTHING_HELD, depth, steps).verdict.Inhabited? ==> HasValue(s, m)
  {
    hide MeetSettled;
    hide Truthful;
    hide EmptyAndRegion;
    EmptinessIsRight(s, q, NOTHING_HELD, depth, steps, m);
    assert forall v :: Assumed(NOTHING_HELD, v, Weight(s, m), m);
  }
}
