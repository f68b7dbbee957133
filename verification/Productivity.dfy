/** A goal met again on the trail has crossed a sequence or a set since it was
    assumed: unfolding lowers the references a pair exposes, and no question the
    rules ask raises them but one about the parts of the two sides. */
module Productivity {
  import opened Verdicts
  import opened Schemas
  import opened Constructors
  import opened Values
  import opened Oracles
  import opened Readings
  import opened KindWalk
  import opened Disjointness
  import opened Tables
  import opened Shapes
  import opened Bounds
  import opened Narrowing
  import opened Rules
  import opened Claims
  import opened UnionsSound

  /** One part of a sequence or a set. */
  predicate Inside(s: Schema, t: Schema) {
    (s.Seq? && (t in s.prefix || s.tail == Some(t))) || (s.Coll? && t == s.element)
  }

  /** The pair asked is a part of the subject, or less, against a part of the
      supertype or of one of its branches. */
  ghost predicate CrossesInto(a: Schema, b: Schema, c: Schema, d: Schema, m: Meaning) {
    exists x, s :: CrossesAt(a, b, c, d, x, s, m)
  }

  ghost predicate CrossesAt(a: Schema, b: Schema, c: Schema, d: Schema, x: Schema, s: Schema, m: Meaning) {
    Inside(a, x) && Included(c, x, m) && (s == b || (b.Union? && s in b.members)) && Inside(s, d)
  }

  ghost predicate SplitCrosses(split: Split, a: Schema, b: Schema, m: Meaning) {
    forall at, j | 0 <= at < |split.components| && 0 <= j < |split.branches| ::
      CrossesInto(a, b, split.components[at], split.branches[j][at], m)
  }

  /** A question exposes no more than the pair, or crosses a constructor; with no
      goal assumed, none can be met again. */
  ghost predicate Falling(a: Schema, b: Schema, c: Schema, d: Schema, alone: bool, m: Meaning) {
    alone || Exposure(c, d, m) <= Exposure(a, b, m) || CrossesInto(a, b, c, d, m)
  }

  /** The question at the head of a plan for the pair. */
  ghost predicate AskedProductively(p: Plan, a: Schema, b: Schema, alone: bool, m: Meaning) {
    match p
    case Ask(c, d, _, _, _) => Falling(a, b, c, d, alone, m)
    case Unfold(s, t, c, d, _, _, _) => s == a && t == b && Exposure(c, d, m) < Exposure(a, b, m)
    case Narrowed(c, d, _, _, _) => Falling(a, b, c, d, alone, m)
    case Product(split, _, _, _, _) => SplitCrosses(split, a, b, m)
    case _ => true
  }

  ghost predicate Productive(p: Plan, a: Schema, b: Schema, alone: bool, m: Meaning)
    decreases p, 1
  {
    match p
    case Answer(_) => true
    case Empties(_, e, i, u) => Productive(e, a, b, alone, m) && Productive(i, a, b, alone, m) && Productive(u, a, b, alone, m)
    case Spent(y, n) => Productive(y, a, b, alone, m) && Productive(n, a, b, alone, m)
    case _ => AskedProductively(p, a, b, alone, m) && ProductiveNext(p, a, b, alone, m)
  }

  ghost predicate ProductiveNext(p: Plan, a: Schema, b: Schema, alone: bool, m: Meaning)
    requires p.Ask? || p.Unfold? || p.Narrowed? || p.Product?
    decreases p, 0
  {
    Productive(p.holds, a, b, alone, m) && Productive(p.fails, a, b, alone, m) && Productive(p.unknown, a, b, alone, m)
  }

  /** A plan is productive where its head is, and what follows each answer. */
  lemma AQuestionIsProductive(p: Plan, a: Schema, b: Schema, alone: bool, m: Meaning)
    requires (p.Ask? || p.Unfold? || p.Narrowed? || p.Product?) && AskedProductively(p, a, b, alone, m)
    requires Productive(p.holds, a, b, alone, m) && Productive(p.fails, a, b, alone, m) && Productive(p.unknown, a, b, alone, m)
    ensures Productive(p, a, b, alone, m)
  {
    hide AskedProductively;
  }

  lemma WhatAQuestionAsks(p: Plan, a: Schema, b: Schema, alone: bool, m: Meaning)
    requires (p.Ask? || p.Unfold? || p.Narrowed? || p.Product?) && Productive(p, a, b, alone, m)
    ensures AskedProductively(p, a, b, alone, m) && ProductiveNext(p, a, b, alone, m)
  {
    hide AskedProductively, ProductiveNext;
  }

  lemma WhatFollowsEachAnswer(p: Plan, a: Schema, b: Schema, alone: bool, m: Meaning)
    requires (p.Ask? || p.Unfold? || p.Narrowed? || p.Product?) && ProductiveNext(p, a, b, alone, m)
    ensures Productive(p.holds, a, b, alone, m) && Productive(p.fails, a, b, alone, m) && Productive(p.unknown, a, b, alone, m)
  {
    hide Productive;
  }

  lemma AnAskIsProductive(p: Plan, a: Schema, b: Schema, alone: bool, m: Meaning)
    requires p.Ask? && Falling(a, b, p.sub, p.sup, alone, m)
    requires Productive(p.holds, a, b, alone, m) && Productive(p.fails, a, b, alone, m) && Productive(p.unknown, a, b, alone, m)
    ensures Productive(p, a, b, alone, m)
  {
    hide Falling, Productive;
    AQuestionIsProductive(p, a, b, alone, m);
  }

  lemma ASpentTestIsProductive(p: Plan, a: Schema, b: Schema, alone: bool, m: Meaning)
    requires p.Spent? && Productive(p.yes, a, b, alone, m) && Productive(p.no, a, b, alone, m)
    ensures Productive(p, a, b, alone, m)
  {
    hide AskedProductively;
  }

  lemma WhatFollowsASpentTest(p: Plan, a: Schema, b: Schema, alone: bool, m: Meaning)
    requires p.Spent? && Productive(p, a, b, alone, m)
    ensures Productive(p.yes, a, b, alone, m) && Productive(p.no, a, b, alone, m)
  {
    hide AskedProductively;
  }

  lemma AReadingIsProductive(p: Plan, a: Schema, b: Schema, alone: bool, m: Meaning)
    requires p.Empties? && Productive(p.empty, a, b, alone, m) && Productive(p.inhabited, a, b, alone, m) && Productive(p.undecided, a, b, alone, m)
    ensures Productive(p, a, b, alone, m)
  {
    hide AskedProductively;
  }

  lemma WhatFollowsAReading(p: Plan, a: Schema, b: Schema, alone: bool, m: Meaning)
    requires p.Empties? && Productive(p, a, b, alone, m)
    ensures Productive(p.empty, a, b, alone, m) && Productive(p.inhabited, a, b, alone, m) && Productive(p.undecided, a, b, alone, m)
  {
    hide AskedProductively;
  }

  lemma {:induction false} OrElseIsProductive(p: Plan, second: Plan, a: Schema, b: Schema, alone: bool, m: Meaning)
    requires Productive(p, a, b, alone, m) && Productive(second, a, b, alone, m)
    ensures Productive(OrElse(p, second), a, b, alone, m)
    decreases p, 1
  {
    hide Productive;
    if p.Empties? {
      WhatFollowsAReading(p, a, b, alone, m);
      OrElseIsProductive(p.empty, second, a, b, alone, m);
      OrElseIsProductive(p.inhabited, second, a, b, alone, m);
      OrElseIsProductive(p.undecided, second, a, b, alone, m);
      AReadingIsProductive(OrElse(p, second), a, b, alone, m);
    } else if p.Spent? {
      WhatFollowsASpentTest(p, a, b, alone, m);
      OrElseIsProductive(p.yes, second, a, b, alone, m);
      OrElseIsProductive(p.no, second, a, b, alone, m);
      ASpentTestIsProductive(OrElse(p, second), a, b, alone, m);
    } else if !p.Answer? {
      OrElseQuestion(p, second, a, b, alone, m);
    }
  }

  lemma {:induction false} OrElseQuestion(p: Plan, second: Plan, a: Schema, b: Schema, alone: bool, m: Meaning)
    requires p.Ask? || p.Unfold? || p.Narrowed? || p.Product?
    requires Productive(p, a, b, alone, m) && Productive(second, a, b, alone, m)
    ensures Productive(OrElse(p, second), a, b, alone, m)
    decreases p, 0
  {
    hide Productive, Falling, SplitCrosses, Exposure;
    WhatAQuestionAsks(p, a, b, alone, m);
    WhatFollowsEachAnswer(p, a, b, alone, m);
    OrElseIsProductive(p.holds, second, a, b, alone, m);
    OrElseIsProductive(p.fails, second, a, b, alone, m);
    OrElseIsProductive(p.unknown, second, a, b, alone, m);
    AQuestionIsProductive(OrElse(p, second), a, b, alone, m);
  }

  lemma BesideIsProductive(c: Schema, d: Schema, empty: Plan, inhabited: Plan, undecided: Plan, q: Setting, a: Schema, b: Schema, alone: bool, m: Meaning)
    requires Productive(empty, a, b, alone, m) && Productive(inhabited, a, b, alone, m) && Productive(undecided, a, b, alone, m)
    ensures Productive(Beside(c, d, empty, inhabited, undecided, q), a, b, alone, m)
  {
    hide DisjointWith, MeetWithin, Productive;
    AReadingIsProductive(Empties(MeetWithin([c, d], q.gate, true), empty, inhabited, undecided), a, b, alone, m);
  }

  lemma AnswersAreProductive(a: Schema, b: Schema, alone: bool, m: Meaning)
    ensures Productive(HOLDS, a, b, alone, m) && Productive(FAILS, a, b, alone, m) && Productive(DECLINES, a, b, alone, m)
  {
  }

  // ---- Members expose no more than their list.

  lemma AMemberExposes(s: Schema, t: Schema, m: Meaning)
    requires (s.Union? || s.Intersection?) && t in s.members
    ensures Exposed(t, m.rank) <= Exposed(s, m.rank)
  {
  }

  /** The first question of a union's members, and what follows it. */
  lemma AUnionsQuestions(ms: seq<Schema>, c: Schema, declined: bool)
    ensures ms == [] ==> EachBelow(ms, c, declined) == Answer(if declined then Relation.Unknown else Relation.Holds)
    ensures ms != [] ==>
      var rest := EachBelow(ms[1..], c, declined);
      EachBelow(ms, c, declined) == Ask(ms[0], c, if declined then Spent(DECLINES, rest) else rest, FAILS, Spent(DECLINES, EachBelow(ms[1..], c, true)))
  {
  }

  lemma {:induction false} EachBelowIsProductive(ms: seq<Schema>, c: Schema, declined: bool, a: Schema, b: Schema, alone: bool, m: Meaning)
    requires forall t <- ms :: Falling(a, b, t, c, alone, m)
    ensures Productive(EachBelow(ms, c, declined), a, b, alone, m)
  {
    hide AskedProductively, ProductiveNext, CrossesInto, Exposure;
    hide Falling, Productive, EachBelow;
    AnswersAreProductive(a, b, alone, m);
    AUnionsQuestions(ms, c, declined);
    if ms != [] {
      assert ms[0] in ms;
      EachBelowIsProductive(ms[1..], c, declined, a, b, alone, m);
      EachBelowIsProductive(ms[1..], c, true, a, b, alone, m);
      var rest, gaveUp := EachBelow(ms[1..], c, declined), Spent(DECLINES, EachBelow(ms[1..], c, true));
      ASpentTestIsProductive(gaveUp, a, b, alone, m);
      ASpentTestIsProductive(Spent(DECLINES, rest), a, b, alone, m);
      AnAskIsProductive(EachBelow(ms, c, declined), a, b, alone, m);
    }
  }

  lemma {:induction false} BelowEachIsProductive(c: Schema, ms: seq<Schema>, declined: bool, a: Schema, b: Schema, alone: bool, m: Meaning)
    requires forall t <- ms :: Falling(a, b, c, t, alone, m)
    ensures Productive(BelowEach(c, ms, declined), a, b, alone, m)
  {
    hide Falling, Productive;
    AnswersAreProductive(a, b, alone, m);
    if ms != [] {
      assert ms[0] in ms;
      BelowEachIsProductive(c, ms[1..], declined, a, b, alone, m);
      BelowEachIsProductive(c, ms[1..], true, a, b, alone, m);
      AnAskIsProductive(BelowEach(c, ms, declined), a, b, alone, m);
    }
  }

  lemma {:induction false} AnyMemberBelowIsProductive(ms: seq<Schema>, c: Schema, otherwise: Plan, a: Schema, b: Schema, alone: bool, m: Meaning)
    requires Productive(otherwise, a, b, alone, m) && forall t <- ms :: Falling(a, b, t, c, alone, m)
    ensures Productive(AnyMemberBelow(ms, c, otherwise), a, b, alone, m)
  {
    hide Falling, Productive;
    AnswersAreProductive(a, b, alone, m);
    if ms != [] {
      assert ms[0] in ms;
      AnyMemberBelowIsProductive(ms[1..], c, otherwise, a, b, alone, m);
      AnAskIsProductive(AnyMemberBelow(ms, c, otherwise), a, b, alone, m);
    }
  }

  lemma {:induction false} BelowAnyBranchIsProductive(c: Schema, ms: seq<Schema>, otherwise: Plan, a: Schema, b: Schema, alone: bool, m: Meaning)
    requires Productive(otherwise, a, b, alone, m) && forall t <- ms :: Falling(a, b, c, t, alone, m)
    ensures Productive(BelowAnyBranch(c, ms, otherwise), a, b, alone, m)
  {
    hide Falling, Productive;
    AnswersAreProductive(a, b, alone, m);
    if ms != [] {
      assert ms[0] in ms;
      BelowAnyBranchIsProductive(c, ms[1..], otherwise, a, b, alone, m);
      AnAskIsProductive(BelowAnyBranch(c, ms, otherwise), a, b, alone, m);
    }
  }

  lemma BelowAMergedSplitIsProductive(a: Schema, b: Schema, otherwise: Plan, q: Setting, alone: bool, m: Meaning)
    requires b.Union? && Productive(otherwise, a, b, alone, m)
    ensures Productive(BelowAMergedSplit(a, b.members, otherwise, q), a, b, alone, m)
  {
    hide MergedFrom, TwoMeets, CrossesInto, Productive;
    AnswersAreProductive(a, b, alone, m);
    forall t | t in b.members ensures Exposed(t, m.rank) <= Exposed(b, m.rank) { AMemberExposes(b, t, m); }
    MergedFromExposes(b.members, 0, q.gate, m.rank, Exposed(b, m.rank));
    if MergedSplit(b.members, q.gate).Some? { AnAskIsProductive(Ask(a, MergedSplit(b.members, q.gate).value, HOLDS, FAILS, otherwise), a, b, alone, m); }
  }

  lemma {:induction false} TheMemberThatIsTheMeetIsProductive(ms: seq<Schema>, at: nat, c: Schema, a: Schema, b: Schema, m: Meaning)
    requires at <= |ms|
    ensures Productive(TheMemberThatIsTheMeet(ms, at, c), a, b, true, m)
    decreases |ms| - at
  {
    hide IsATable, BelowTheOthers, Productive;
    AnswersAreProductive(a, b, true, m);
    if at < |ms| {
      TheMemberThatIsTheMeetIsProductive(ms, at + 1, c, a, b, m);
      BelowTheOthersIsProductive(ms, at, 0, c, TheMemberThatIsTheMeet(ms, at + 1, c), a, b, m);
    }
  }

  lemma {:induction false} BelowTheOthersIsProductive(ms: seq<Schema>, at: nat, other: nat, c: Schema, otherwise: Plan, a: Schema, b: Schema, m: Meaning)
    requires at < |ms| && other <= |ms| && Productive(otherwise, a, b, true, m)
    ensures Productive(BelowTheOthers(ms, at, other, c, otherwise), a, b, true, m)
    decreases |ms| - other
  {
    hide Productive, CrossesInto, Exposure;
    AnswersAreProductive(a, b, true, m);
    if other < |ms| {
      BelowTheOthersIsProductive(ms, at, other + 1, c, otherwise, a, b, m);
      if other != at { AnAskIsProductive(BelowTheOthers(ms, at, other, c, otherwise), a, b, true, m); }
    } else {
      AnAskIsProductive(Just(ms[at], c), a, b, true, m);
    }
  }

  lemma MeetBelowIsProductive(a: Schema, b: Schema, q: Setting, alone: bool, m: Meaning)
    requires a.Intersection?
    ensures Productive(MeetBelow(a, b, q, alone), a, b, alone, m)
  {
    hide AnyMemberBelow, BelowAnyBranch, TheMemberThatIsTheMeet, BelowAMergedSplit, PlacedByMembership, KindsPossiblyHeld, Exposed, CrossesInto, Productive;
    AnswersAreProductive(a, b, alone, m);
    forall t | t in a.members ensures Falling(a, b, t, b, alone, m) { AMemberExposes(a, t, m); }
    TheMemberThatIsTheMeetIsProductive(a.members, 0, b, a, b, m);
    var last := if alone then TheMemberThatIsTheMeet(a.members, 0, b) else DECLINES;
    if b.Union? {
      BelowAMergedSplitIsProductive(a, b, last, q, alone, m);
      forall t | t in b.members ensures Falling(a, b, a, t, alone, m) { AMemberExposes(b, t, m); }
      BelowAnyBranchIsProductive(a, b.members, BelowAMergedSplit(a, b.members, last, q), a, b, alone, m);
      AnyMemberBelowIsProductive(a.members, b, BelowAnyBranch(a, b.members, BelowAMergedSplit(a, b.members, last, q)), a, b, alone, m);
    } else {
      AnyMemberBelowIsProductive(a.members, b, last, a, b, alone, m);
    }
  }

  lemma NarrowedMeetBelowIsProductive(a: Schema, b: Schema, q: Setting, alone: bool, m: Meaning)
    requires a.Intersection?
    ensures Productive(NarrowedMeetBelow(a, b, q), a, b, alone, m)
  {
    hide NarrowedMeet, CrossesInto;
    AnswersAreProductive(a, b, alone, m);
    if NarrowedMeet(a.members, q.gate).Some? {
      forall t | t in a.members ensures Exposed(t, m.rank) <= Exposed(a, m.rank) { AMemberExposes(a, t, m); }
      NarrowedMeetExposes(a.members, q.gate, m.rank, Exposed(a, m.rank));
    }
  }

  // ---- References, refinements and pairs with no rule of their own.

  lemma BelowAReferenceIsProductive(a: Schema, b: Schema, q: Setting, alone: bool, m: Meaning)
    requires q.defs == m.defs
    ensures Productive(BelowAReference(a, b, q), a, b, alone, m)
  {
    AnswersAreProductive(a, b, alone, m);
  }

  lemma LeftReducesIsProductive(a: Schema, b: Schema, q: Setting, alone: bool, m: Meaning)
    requires q.defs == m.defs
    ensures Productive(LeftReduces(a, b, q), a, b, alone, m)
  {
    hide CrossesInto;
    AnswersAreProductive(a, b, alone, m);
  }

  lemma RefinementBelowIsProductive(a: Schema, b: Schema, q: Setting, alone: bool, m: Meaning)
    requires a.Refine? && b.Refine?
    ensures Productive(RefinementBelow(a, b, q), a, b, alone, m)
  {
    hide Entailed, CrossesInto;
    AnswersAreProductive(a, b, alone, m);
  }

  lemma UnstructuredIsProductive(a: Schema, b: Schema, q: Setting, alone: bool, m: Meaning)
    ensures Productive(Unstructured(a, b, q), a, b, alone, m)
  {
    hide RefutedByShape, EmptyBelow, TheEmptyRefused, CrossesInto;
    AnswersAreProductive(a, b, alone, m);
  }

  // ---- A union narrowed to the branches the subject can meet.

  lemma BelowKeptIsProductive(a: Schema, b: Schema, kept: seq<Schema>, alone: bool, m: Meaning)
    requires b.Union? && forall t <- kept :: t in b.members
    ensures Productive(BelowKept(a, kept), a, b, alone, m)
  {
    hide Productive, CrossesInto, Exposed;
    AnswersAreProductive(a, b, alone, m);
    forall t | t in kept ensures Exposed(t, m.rank) <= Exposed(b, m.rank) { AMemberExposes(b, t, m); }
    if kept != [] {
      KeptExposes(b, kept, m);
      assert kept[0] in kept;
      AnAskIsProductive(BelowKept(a, kept), a, b, alone, m);
    }
  }

  lemma MetCheaplyIsProductive(a: Schema, b: Schema, q: Setting, alone: bool, m: Meaning)
    requires b.Union?
    ensures Productive(MetCheaply(a, b.members, q), a, b, alone, m)
  {
    hide Productive, DisjointWith, BelowKept;
    AnswersAreProductive(a, b, alone, m);
    BelowKeptIsProductive(a, b, KeptCheaply(a, b.members, q.oracle), alone, m);
  }

  lemma {:induction false} KeptFullyIsProductive(a: Schema, b: Schema, ms: seq<Schema>, kept: seq<Schema>, q: Setting, alone: bool, m: Meaning)
    requires b.Union? && (forall t <- ms :: t in b.members) && (forall t <- kept :: t in b.members)
    ensures Productive(KeptFully(a, ms, kept, q), a, b, alone, m)
    decreases |ms|
  {
    hide Productive, Beside, BelowKept;
    if ms == [] {
      BelowKeptIsProductive(a, b, kept, alone, m);
    } else {
      assert ms[0] in ms;
      KeptFullyIsProductive(a, b, ms[1..], kept, q, alone, m);
      KeptFullyIsProductive(a, b, ms[1..], kept + [ms[0]], q, alone, m);
      var stays := KeptFully(a, ms[1..], kept + [ms[0]], q);
      BesideIsProductive(a, ms[0], KeptFully(a, ms[1..], kept, q), stays, stays, q, a, b, alone, m);
    }
  }

  lemma {:induction false} SomeApartIsProductive(a: Schema, b: Schema, ms: seq<Schema>, q: Setting, alone: bool, m: Meaning)
    requires b.Union?
    ensures Productive(SomeApart(a, ms, b.members, q), a, b, alone, m)
  {
    hide Productive, Beside, KeptFully;
    AnswersAreProductive(a, b, alone, m);
    if ms != [] {
      SomeApartIsProductive(a, b, ms[1..], q, alone, m);
      KeptFullyIsProductive(a, b, b.members, [], q, alone, m);
      var next := SomeApart(a, ms[1..], b.members, q);
      BesideIsProductive(a, ms[0], KeptFully(a, b.members, [], q), next, next, q, a, b, alone, m);
    }
  }

  // ---- A product crosses into its components, however narrowed.

  lemma CrossesNarrowedAt(a: Schema, b: Schema, c: Schema, d: Schema, less: Schema, x: Schema, s: Schema, m: Meaning)
    requires CrossesAt(a, b, c, d, x, s, m) && Included(less, c, m)
    ensures CrossesAt(a, b, less, d, x, s, m)
  {
    hide Inside, Included;
    IncludedIsTransitive(less, c, x, m);
  }

  lemma CrossesNarrowed(a: Schema, b: Schema, c: Schema, d: Schema, less: Schema, m: Meaning)
    requires CrossesInto(a, b, c, d, m) && Included(less, c, m)
    ensures CrossesInto(a, b, less, d, m)
  {
    hide CrossesAt, Included;
    var x, s :| CrossesAt(a, b, c, d, x, s, m);
    CrossesNarrowedAt(a, b, c, d, less, x, s, m);
  }

  lemma IncludedIsTransitive(a: Schema, b: Schema, c: Schema, m: Meaning)
    requires Included(a, b, m) && Included(b, c, m)
    ensures Included(a, c, m)
  {
    hide Member;
  }

  lemma ANarrowedComponentIsLess(c: Schema, d: Schema, gate: Gate, m: Meaning)
    ensures Included(MeetWithin([c, Complemented(d)], gate, false), c, m)
  {
    hide Member, MeetWithin;
    var ms := [c, Complemented(d)];
    forall v ensures Member(v, MeetWithin(ms, gate, false), m) ==> Member(v, c, m) {
      MeetDenotes(ms, gate, false, v, m);
      assert c in ms;
    }
  }

  lemma NarrowingCrosses(cs: seq<Schema>, branch: seq<Schema>, at: nat, rest: seq<seq<Schema>>, gate: Gate, a: Schema, b: Schema, m: Meaning)
    requires at < |cs| == |branch| && forall other <- rest :: |other| == |cs|
    requires SplitCrosses(Products(cs, rest), a, b, m)
    ensures SplitCrosses(Products(NarrowedAt(cs, branch, at, gate), rest), a, b, m)
  {
    hide CrossesInto, Included, MeetWithin;
    var before, after := Products(cs, rest), Products(NarrowedAt(cs, branch, at, gate), rest);
    ANarrowedComponentIsLess(cs[at], branch[at], gate, m);
    forall i, j | 0 <= i < |cs| && 0 <= j < |rest| ensures CrossesInto(a, b, after.components[i], after.branches[j][i], m) {
      assert CrossesInto(a, b, before.components[i], before.branches[j][i], m);
      if i == at { CrossesNarrowed(a, b, cs[at], rest[j][at], after.components[at], m); }
    }
  }

  lemma FewerBranchesCross(cs: seq<Schema>, bs: seq<seq<Schema>>, a: Schema, b: Schema, m: Meaning)
    requires bs != [] && (forall branch <- bs :: |branch| == |cs|) && SplitCrosses(Products(cs, bs), a, b, m)
    ensures SplitCrosses(Products(cs, bs[1..]), a, b, m)
    ensures forall i | 0 <= i < |cs| :: CrossesInto(a, b, cs[i], bs[0][i], m)
  {
    hide CrossesInto;
    var split, fewer := Products(cs, bs), Products(cs, bs[1..]);
    forall i, j | 0 <= i < |cs| && 0 <= j < |bs[1..]| ensures CrossesInto(a, b, fewer.components[i], fewer.branches[j][i], m) {
      assert CrossesInto(a, b, split.components[i], split.branches[j + 1][i], m);
    }
    forall i | 0 <= i < |cs| ensures CrossesInto(a, b, cs[i], bs[0][i], m) {
      assert CrossesInto(a, b, split.components[i], split.branches[0][i], m);
    }
  }

  lemma {:induction false} ApartPlanIsProductive(cs: seq<Schema>, branch: seq<Schema>, at: nat, dropped: Plan, kept: Plan, q: Setting, a: Schema, b: Schema, alone: bool, m: Meaning)
    requires at <= |cs| == |branch| && Productive(dropped, a, b, alone, m) && Productive(kept, a, b, alone, m)
    ensures Productive(ApartPlan(cs, branch, at, dropped, kept, q), a, b, alone, m)
    decreases |cs| - at
  {
    hide Productive, Beside;
    if at < |cs| {
      ApartPlanIsProductive(cs, branch, at + 1, dropped, kept, q, a, b, alone, m);
      var next := ApartPlan(cs, branch, at + 1, dropped, kept, q);
      BesideIsProductive(cs[at], branch[at], dropped, next, next, q, a, b, alone, m);
    }
  }

  lemma ASplitIsProductive(p: Plan, a: Schema, b: Schema, alone: bool, m: Meaning)
    requires p.Product? && SplitCrosses(p.split, a, b, m)
    requires Productive(p.holds, a, b, alone, m) && Productive(p.fails, a, b, alone, m) && Productive(p.unknown, a, b, alone, m)
    ensures Productive(p, a, b, alone, m)
  {
    hide Productive, SplitCrosses;
    AQuestionIsProductive(p, a, b, alone, m);
  }

  lemma {:induction false} PositionsPlanIsProductive(cs: seq<Schema>, branch: seq<Schema>, at: nat, rest: seq<seq<Schema>>, q: Setting, a: Schema, b: Schema, alone: bool, m: Meaning)
    requires at <= |cs| == |branch| && (forall other <- rest :: |other| == |cs|) && SplitCrosses(Products(cs, rest), a, b, m)
    requires forall i | 0 <= i < |cs| :: CrossesInto(a, b, cs[i], branch[i], m)
    ensures Productive(PositionsPlan(cs, branch, at, rest, q), a, b, alone, m)
    decreases |cs| - at
  {
    hide Productive, CrossesInto, SplitCrosses, Exposure, NarrowedAt;
    AnswersAreProductive(a, b, alone, m);
    if at < |cs| {
      PositionsPlanIsProductive(cs, branch, at + 1, rest, q, a, b, alone, m);
      NarrowingCrosses(cs, branch, at, rest, q.gate, a, b, m);
      var p := PositionsPlan(cs, branch, at, rest, q);
      ASplitIsProductive(p.fails, a, b, alone, m);
      ASplitIsProductive(p.unknown, a, b, alone, m);
      AnAskIsProductive(p, a, b, alone, m);
    }
  }

  lemma {:induction false} BranchPlanIsProductive(cs: seq<Schema>, bs: seq<seq<Schema>>, held: bool, q: Setting, a: Schema, b: Schema, alone: bool, m: Meaning)
    requires (forall branch <- bs :: |branch| == |cs|) && SplitCrosses(Products(cs, bs), a, b, m)
    ensures Productive(BranchPlan(cs, bs, held, q), a, b, alone, m)
  {
    hide Productive, CrossesInto, SplitCrosses, ApartPlan, PositionsPlan;
    AnswersAreProductive(a, b, alone, m);
    if bs != [] {
      FewerBranchesCross(cs, bs, a, b, m);
      BranchPlanIsProductive(cs, bs[1..], held, q, a, b, alone, m);
      PositionsPlanIsProductive(cs, bs[0], 0, bs[1..], q, a, b, alone, m);
      ApartPlanIsProductive(cs, bs[0], 0, BranchPlan(cs, bs[1..], held, q), PositionsPlan(cs, bs[0], 0, bs[1..], q), q, a, b, alone, m);
    }
  }

  lemma {:induction false} ComponentsPlanIsProductive(cs: seq<Schema>, at: nat, empty: bool, held: bool, bs: seq<seq<Schema>>, q: Setting, a: Schema, b: Schema, alone: bool, m: Meaning)
    requires at <= |cs| && (forall branch <- bs :: |branch| == |cs|) && SplitCrosses(Products(cs, bs), a, b, m)
    ensures Productive(ComponentsPlan(cs, at, empty, held, bs, q), a, b, alone, m)
    decreases |cs| - at
  {
    hide Productive, SplitCrosses, BranchPlan;
    AnswersAreProductive(a, b, alone, m);
    if at == |cs| {
      BranchPlanIsProductive(cs, bs, held, q, a, b, alone, m);
    } else {
      ComponentsPlanIsProductive(cs, at + 1, true, held, bs, q, a, b, alone, m);
      ComponentsPlanIsProductive(cs, at + 1, empty, held, bs, q, a, b, alone, m);
      ComponentsPlanIsProductive(cs, at + 1, empty, false, bs, q, a, b, alone, m);
      AReadingIsProductive(ComponentsPlan(cs, at, empty, held, bs, q), a, b, alone, m);
    }
  }

  lemma AProductIsProductive(split: Split, q: Setting, a: Schema, b: Schema, alone: bool, m: Meaning)
    requires SplitCrosses(split, a, b, m)
    ensures Productive(ProductPlan(split, q), a, b, alone, m)
  {
    hide SplitCrosses, Productive;
    ComponentsPlanIsProductive(split.components, 0, false, true, split.branches, q, a, b, alone, m);
  }

  lemma {:induction false} ArityBranchesAreInside(k: SeqKind, arity: nat, ms: seq<Schema>)
    ensures forall branch <- ArityBranches(k, arity, ms) :: exists s :: s in ms && s.Seq? && s.prefix == branch
  {
    if ms != [] {
      ArityBranchesAreInside(k, arity, ms[1..]);
      assert ms[0] in ms;
    }
  }

  lemma SplitsAcrossIsProductive(a: Schema, b: Schema, q: Setting, alone: bool, m: Meaning)
    requires a.Seq? && b.Union?
    ensures Productive(SplitsAcross(a, b.members, q), a, b, alone, m)
  {
    hide Productive, ArityBranches, SetAsideHoldNone, CrossesInto;
    AnswersAreProductive(a, b, alone, m);
    var branches := ArityBranches(a.container, |a.prefix|, b.members);
    var split := Products(a.prefix, branches);
    ArityBranchesAreInside(a.container, |a.prefix|, b.members);
    forall i, j | 0 <= i < |split.components| && 0 <= j < |split.branches| ensures CrossesInto(a, b, split.components[i], split.branches[j][i], m) {
      assert branches[j] in branches;
      var s :| s in b.members && s.Seq? && s.prefix == branches[j];
      AComponentCrosses(a, b, s, i, m);
    }
    if a.tail.None? && SplitsAcross(a, b.members, q).Product? { ASplitIsProductive(SplitsAcross(a, b.members, q), a, b, alone, m); }
  }

  lemma AComponentCrosses(a: Schema, b: Schema, s: Schema, i: nat, m: Meaning)
    requires a.Seq? && b.Union? && s in b.members && s.Seq? && i < |a.prefix| == |s.prefix|
    ensures CrossesInto(a, b, a.prefix[i], s.prefix[i], m)
  {
    hide Member;
    assert CrossesAt(a, b, a.prefix[i], s.prefix[i], a.prefix[i], s, m);
  }

  // ---- Sequences, complements, unions, and the match on the two shapes.

  lemma PartsCross(a: Schema, b: Schema, c: Schema, d: Schema, m: Meaning)
    requires Inside(a, c) && Inside(b, d)
    ensures CrossesInto(a, b, c, d, m)
  {
    hide Member, Inside;
    assert CrossesAt(a, b, c, d, c, b, m);
  }

  lemma {:induction false} AlignsIsProductive(a: Schema, b: Schema, at: nat, declined: bool, last: Option<Last>, all: Plan, some: Plan, alone: bool, m: Meaning)
    requires a.Seq? && at <= |a.prefix| && b.Seq? && Productive(all, a, b, alone, m) && Productive(some, a, b, alone, m)
    ensures Productive(Aligns(a.prefix, b, at, declined, last, all, some), a, b, alone, m)
    decreases |a.prefix| - at
  {
    hide Productive, CrossesInto, Exposure;
    AnswersAreProductive(a, b, alone, m);
    if at < |a.prefix| && !(at >= |b.prefix| && b.tail.None?) {
      var expected := if at < |b.prefix| then b.prefix[at] else b.tail.value;
      PartsCross(a, b, a.prefix[at], expected, m);
      AlignsIsProductive(a, b, at + 1, declined, last, all, some, alone, m);
      AlignsIsProductive(a, b, at + 1, true, last, all, some, alone, m);
      var held, unknown := Some(Last(a.prefix[at], expected, Relation.Holds)), Some(Last(a.prefix[at], expected, Relation.Unknown));
      AlignsIsProductive(a, b, at + 1, declined, held, all, some, alone, m);
      AlignsIsProductive(a, b, at + 1, true, unknown, all, some, alone, m);
      var p := Ask(a.prefix[at], expected, Aligns(a.prefix, b, at + 1, declined, held, all, some), FAILS,
                   Aligns(a.prefix, b, at + 1, true, unknown, all, some));
      AnAskIsProductive(p, a, b, alone, m);
    }
  }

  lemma LinearReadIsProductive(a: Schema, b: Schema, repeats: Verdict, alone: bool, m: Meaning)
    requires a.Seq? && b.Seq? && (a.tail.None? ==> repeats.Empty?)
    ensures Productive(LinearRead(a, b, repeats), a, b, alone, m)
  {
    hide Productive, CrossesInto, Aligns, Exposure;
    AnswersAreProductive(a, b, alone, m);
    AlignsIsProductive(a, b, 0, false, None, HOLDS, DECLINES, alone, m);
    if a.tail.Some? && b.tail.Some? {
      var all, some := Just(a.tail.value, b.tail.value), Ask(a.tail.value, b.tail.value, DECLINES, FAILS, DECLINES);
      PartsCross(a, b, a.tail.value, b.tail.value, m);
      AnAskIsProductive(all, a, b, alone, m);
      AnAskIsProductive(some, a, b, alone, m);
      AlignsIsProductive(a, b, 0, false, None, all, some, alone, m);
    }
  }

  lemma LinearBelowIsProductive(a: Schema, b: Schema, alone: bool, m: Meaning)
    requires a.Seq? && b.Seq?
    ensures Productive(LinearBelow(a, b), a, b, alone, m)
  {
    hide Productive, LinearRead;
    LinearReadIsProductive(a, b, Verdict.Empty, alone, m);
    if a.tail.Some? {
      LinearReadIsProductive(a, b, Verdict.Inhabited, alone, m);
      LinearReadIsProductive(a, b, Verdict.Unknown, alone, m);
      AReadingIsProductive(LinearBelow(a, b), a, b, alone, m);
    }
  }

  lemma BelowAComplementIsProductive(a: Schema, b: Schema, q: Setting, alone: bool, m: Meaning)
    requires b.Complement?
    ensures Productive(BelowAComplement(a, b, q), a, b, alone, m)
  {
    hide Productive, Beside, CrossesInto;
    AnswersAreProductive(a, b, alone, m);
    var declined := BelowAComplementDeclined(a, b, q);
    AnAnswerIsProductive(declined, a, b, alone, m);
    var read := Empties(a, HOLDS, FAILS, DECLINES);
    AReadingIsProductive(read, a, b, alone, m);
    AnAskIsProductive(Ask(a, b.inner, read, declined, declined), a, b, alone, m);
    BesideIsProductive(a, b.inner, HOLDS, FAILS, Ask(a, b.inner, read, declined, declined), q, a, b, alone, m);
  }

  lemma AnAnswerIsProductive(p: Plan, a: Schema, b: Schema, alone: bool, m: Meaning)
    requires p.Answer?
    ensures Productive(p, a, b, alone, m)
  {
  }

  lemma PastTheBranchesIsProductive(a: Schema, b: Schema, refuted: bool, q: Setting, alone: bool, m: Meaning)
    requires b.Union? && q.defs == m.defs
    ensures Productive(PastTheBranches(a, b, refuted, q), a, b, alone, m)
  {
    hide Productive, SomeApart, MetCheaply, LeftReduces, SplitsAcross, BelowAMergedSplit, OrElse;
    AnswersAreProductive(a, b, alone, m);
    LeftReducesIsProductive(a, b, q, alone, m);
    MetCheaplyIsProductive(a, b, q, alone, m);
    SomeApartIsProductive(a, b, b.members, q, alone, m);
    var reduced, cheap, full := Reduced(a, b, q), MetCheaply(a, b.members, q), MetFully(a, b.members, q);
    OrElseIsProductive(cheap, full, a, b, alone, m);
    OrElseIsProductive(OrElse(cheap, full), reduced, a, b, alone, m);
    var narrowed := if refuted then OrElse(OrElse(cheap, full), reduced) else reduced;
    if a.Seq? { SplitsAcrossIsProductive(a, b, q, alone, m); }
    var split := if a.Seq? then SplitsAcross(a, b.members, q) else DECLINES;
    OrElseIsProductive(split, narrowed, a, b, alone, m);
    BelowAMergedSplitIsProductive(a, b, OrElse(split, narrowed), q, alone, m);
  }

  lemma {:induction false} EachBranchIsProductive(a: Schema, ms: seq<Schema>, refuted: bool, b: Schema, q: Setting, alone: bool, m: Meaning)
    requires b.Union? && q.defs == m.defs && forall t <- ms :: t in b.members
    ensures Productive(EachBranch(a, ms, refuted, b, q), a, b, alone, m)
  {
    hide Productive, PastTheBranches, Exposed, CrossesInto;
    AnswersAreProductive(a, b, alone, m);
    if ms == [] {
      PastTheBranchesIsProductive(a, b, refuted, q, alone, m);
    } else {
      assert ms[0] in ms;
      AMemberExposes(b, ms[0], m);
      EachBranchIsProductive(a, ms[1..], true, b, q, alone, m);
      EachBranchIsProductive(a, ms[1..], refuted, b, q, alone, m);
      AnAskIsProductive(EachBranch(a, ms, refuted, b, q), a, b, alone, m);
    }
  }

  lemma MeetReadWholeIsProductive(a: Schema, b: Schema, q: Setting, alone: bool, m: Meaning)
    requires q.defs == m.defs
    ensures Productive(MeetReadWhole(a, b, q), a, b, alone, m)
  {
    hide Productive, Beside, Unstructured, BelowAReference, OrElse;
    AnswersAreProductive(a, b, alone, m);
    if b.Complement? { BesideIsProductive(a, b.inner, HOLDS, FAILS, DECLINES, q, a, b, alone, m); }
    UnstructuredIsProductive(a, b, q, alone, m);
    BelowAReferenceIsProductive(a, b, q, alone, m);
    var beside := if b.Complement? then Beside(a, b.inner, HOLDS, FAILS, DECLINES, q) else DECLINES;
    OrElseIsProductive(beside, Unstructured(a, b, q), a, b, alone, m);
    OrElseIsProductive(OrElse(beside, Unstructured(a, b, q)), BelowAReference(a, b, q), a, b, alone, m);
  }

  lemma ByShapeOfAMeetIsProductive(a: Schema, b: Schema, q: Setting, alone: bool, m: Meaning)
    requires q.defs == m.defs && a.Intersection?
    ensures Productive(ByShapeOfAMeet(a, b, q, alone), a, b, alone, m)
  {
    hide Productive, MeetBelow, MeetReadWhole, NarrowedMeetBelow, OrElse, TheTablesBelow;
    var tables := Answer(TheTablesBelow(a.members, b, q.oracle));
    AnAnswerIsProductive(tables, a, b, alone, m);
    MeetBelowIsProductive(a, b, q, alone, m);
    MeetReadWholeIsProductive(a, b, q, alone, m);
    NarrowedMeetBelowIsProductive(a, b, q, alone, m);
    OrElseIsProductive(MeetBelow(a, b, q, alone), tables, a, b, alone, m);
    OrElseIsProductive(OrElse(MeetBelow(a, b, q, alone), tables), MeetReadWhole(a, b, q), a, b, alone, m);
    OrElseIsProductive(OrElse(OrElse(MeetBelow(a, b, q, alone), tables), MeetReadWhole(a, b, q)), NarrowedMeetBelow(a, b, q), a, b, alone, m);
  }

  lemma ByMembersIsProductive(a: Schema, b: Schema, q: Setting, alone: bool, m: Meaning)
    requires q.defs == m.defs
    ensures a.Union? ==> Productive(UnionBelow(a, b, q), a, b, alone, m)
    ensures b.Intersection? ==> Productive(BelowEach(a, b.members, false), a, b, alone, m)
    ensures b.Union? ==> Productive(BelowAUnion(a, b, q), a, b, alone, m)
  {
    hide Productive, EachBelow, BelowEach, EachBranch, TablesDisjoint, Exposed, CrossesInto;
    AnswersAreProductive(a, b, alone, m);
    if a.Union? {
      forall t | t in a.members ensures Falling(a, b, t, b, alone, m) { AMemberExposes(a, t, m); }
      EachBelowIsProductive(a.members, b, false, a, b, alone, m);
      if UnionBelow(a, b, q).Answer? { AnAnswerIsProductive(UnionBelow(a, b, q), a, b, alone, m); }
    }
    if b.Intersection? {
      forall t | t in b.members ensures Falling(a, b, a, t, alone, m) { AMemberExposes(b, t, m); }
      BelowEachIsProductive(a, b.members, false, a, b, alone, m);
    }
    if b.Union? { EachBranchIsProductive(a, b.members, false, b, q, alone, m); }
  }

  /** One goal asked in a pair's place. */
  lemma JustIsProductive(c: Schema, d: Schema, a: Schema, b: Schema, alone: bool, m: Meaning)
    requires Falling(a, b, c, d, alone, m)
    ensures Productive(Just(c, d), a, b, alone, m)
  {
    hide Productive, Falling;
    AnswersAreProductive(a, b, alone, m);
    AnAskIsProductive(Just(c, d), a, b, alone, m);
  }

  /** The shapes that ask one goal in the pair's place. */
  lemma ByOneGoalIsProductive(a: Schema, b: Schema, alone: bool, m: Meaning)
    ensures a.Refine? ==> Productive(Just(a.base, b), a, b, alone, m)
    ensures b.Refine? ==> Productive(Just(a, b.base), a, b, alone, m)
    ensures a.Coll? && b.Coll? ==> Productive(Just(a.element, b.element), a, b, alone, m)
    ensures a.Complement? && b.Complement? ==> Productive(Just(b.inner, a.inner), a, b, alone, m)
  {
    hide Productive, CrossesInto;
    if a.Refine? { JustIsProductive(a.base, b, a, b, alone, m); }
    if b.Refine? { JustIsProductive(a, b.base, a, b, alone, m); }
    if a.Coll? && b.Coll? {
      PartsCross(a, b, a.element, b.element, m);
      JustIsProductive(a.element, b.element, a, b, alone, m);
    }
    if a.Complement? && b.Complement? { JustIsProductive(b.inner, a.inner, a, b, alone, m); }
  }

  lemma ByShapeIsProductive(a: Schema, b: Schema, q: Setting, alone: bool, m: Meaning)
    requires q.defs == m.defs
    ensures Productive(ByShape(a, b, q, alone), a, b, alone, m)
  {
    hide Productive, UnionBelow, BelowEach, ByShapeOfAMeet, BelowAUnion, SpillsPastATable, Unstructured, BelowAReference, LeftReduces, LinearBelow,
         BelowAComplement, RefinementBelow, OrElse, Just;
    AnswersAreProductive(a, b, alone, m);
    ByMembersIsProductive(a, b, q, alone, m);
    UnstructuredIsProductive(a, b, q, alone, m);
    BelowAReferenceIsProductive(a, b, q, alone, m);
    LeftReducesIsProductive(a, b, q, alone, m);
    ByOneGoalIsProductive(a, b, alone, m);
    if a.Intersection? { ByShapeOfAMeetIsProductive(a, b, q, alone, m); }
    if a.Seq? && b.Seq? { LinearBelowIsProductive(a, b, alone, m); }
    if b.Complement? { BelowAComplementIsProductive(a, b, q, alone, m); }
    OrElseIsProductive(LeftReduces(a, b, q), Unstructured(a, b, q), a, b, alone, m);
    if a.Refine? && b.Refine? {
      RefinementBelowIsProductive(a, b, q, alone, m);
      OrElseIsProductive(RefinementBelow(a, b, q), Unstructured(a, b, q), a, b, alone, m);
    }
    if b.Union? {
      var spilled := if SpillsPastATable(a, b, q) then FAILS else DECLINES;
      OrElseIsProductive(BelowAUnion(a, b, q), spilled, a, b, alone, m);
      OrElseIsProductive(OrElse(BelowAUnion(a, b, q), spilled), Unstructured(a, b, q), a, b, alone, m);
    }
  }

  lemma BoundedIsProductive(a: Schema, b: Schema, q: Setting, alone: bool, m: Meaning)
    ensures Productive(Bounded(a, b, q), a, b, alone, m)
  {
    hide Productive, MeetWithin, FlatMembers, CoversTheUniverse, RegionSet;
    AnswersAreProductive(a, b, alone, m);
    var p := Bounded(a, b, q);
    if p.inhabited.Empties? { AReadingIsProductive(p.inhabited, a, b, alone, m); }
    AReadingIsProductive(p, a, b, alone, m);
  }

  /** Every question of the rules exposes no more than its pair or crosses a
      constructor, and every unfolding exposes less. */
  lemma TheRulesAreProductive(a: Schema, b: Schema, q: Setting, alone: bool, m: Meaning)
    requires q.defs == m.defs
    ensures Productive(Decide(a, b, q, alone), a, b, alone, m)
  {
    hide Productive, ByShape, Bounded, OrElse, RegionSet, PushedComplementIsPlaced, FiniteSet, FiniteSetBelow;
    AnswersAreProductive(a, b, alone, m);
    ByShapeIsProductive(a, b, q, alone, m);
    BoundedIsProductive(a, b, q, alone, m);
    OrElseIsProductive(ByShape(a, b, q, alone), Bounded(a, b, q), a, b, alone, m);
    if Decide(a, b, q, alone).Answer? { AnAnswerIsProductive(Decide(a, b, q, alone), a, b, alone, m); }
  }
}
