/** A root question asked on objects: a budget and a context made for it, each
    spelling on an allowance of its own that shares the query's memos, and a second
    asking made afresh. */
module RootRun {
  import opened Verdicts
  import opened Schemas
  import opened Constructors
  import opened Values
  import opened Oracles
  import opened KindWalk
  import opened Tables
  import opened Emptiness
  import opened Rules
  import opened Decision
  import opened DecisionSound
  import opened Contexts
  import opened EmptinessRun
  import opened GoalRun
  import opened Respelling
  import opened Root

  /** A query's own context between its goals: nothing assumed and no level open. */
  ghost predicate AtRest(cx: Cx)
    reads cx, cx.budget, cx.thread
  {
    Ready(cx) && cx.Path() == ROOT && cx.budget.depth == 0
  }

  /** The query keeps its number, and opens no question of its narrowed meets. */
  twostate predicate Numbered(cx: Cx)
    reads cx, cx.thread
  {
    cx.query == old(cx.query) && cx.thread.narrowing == old(cx.thread.narrowing)
  }

  /** A spelling answered as `r`, its steps charged to nothing of the query's. */
  twostate predicate Asks(cx: Cx, r: Ran, answer: Relation)
    reads cx, cx.budget, cx.thread
  {
    && answer == r.answer && cx.budget.steps == old(cx.budget.steps)
    && Numbered(cx) && Leads(old(cx.State()), cx.State(), r.met, r.work)
  }

  /** A part of the query: an allowance of its own, and the query's number. */
  method PartOf(cx: Cx, given: nat) returns (part: Cx)
    requires AtRest(cx) && cx.query != 0 && cx.thread.narrowing != cx.query
    ensures fresh(part) && fresh(part.budget) && part.thread == cx.thread && part.q == cx.q
    ensures part.query == cx.query && part.since == cx.since
    ensures AtRest(part) && part.budget.steps == given
  {
    hide IsSubtypeRec;
    var allowance := new Budget(given);
    part := new Cx.Within(cx, allowance);
  }

  /** What a part and its query share. */
  ghost predicate Shares(s: State, t: State) {
    && s.met == t.met && s.query == t.query && s.queries == t.queries && s.narrowing == t.narrowing
    && s.bounds == t.bounds && s.taken == t.taken && s.settings == t.settings && s.began == t.began
  }

  /** What a part leads to, its query is led to. */
  lemma APartLeads(outer: State, part: State, part': State, outer': State, met: bool, work: nat)
    requires Shares(outer, part) && Shares(outer', part') && Leads(part, part', met, work)
    requires outer'.steps == outer.steps && outer'.depth == outer.depth && outer'.path == outer.path && outer'.open == outer.open
    ensures Leads(outer, outer', met, work)
  {
  }

  /** The meet of the two read on the part's steps. */
  method EmptiedRun(a: Schema, b: Schema, part: Cx) returns (answer: Relation)
    requires AtRest(part) && part.query != 0
    modifies part, part.budget, part.thread
    ensures AtRest(part) && Numbered(part)
    ensures RanAs(part, Emptied(a, b, part.q, old(part.budget.steps)), answer)
  {
    hide IsSubtypeRec;
    hide EmptyAndRegion;
    var verdict := VerdictRun(MeetWithin([a, b], part.q.gate, true), part);
    CountingKeepsValid(part.thread);
    answer := Proven(verdict.Empty?);
  }

  method GoalOf(a: Schema, b: Schema, part: Cx) returns (answer: Relation)
    requires AtRest(part) && part.query != 0
    modifies part, part.budget, part.thread
    ensures AtRest(part) && Numbered(part)
    ensures RanAs(part, IsSubtypeRec(a, b, part.q, ROOT, OUTSIDE, old(part.budget.steps)), answer)
  {
    hide IsSubtypeRec;
    answer := IsSubtypeRun(a, b, part);
  }

  method PushedRun(a: Schema, b: Schema, given: nat, cx: Cx) returns (answer: Relation)
    requires AtRest(cx) && cx.query != 0 && cx.thread.narrowing != cx.query
    modifies cx.thread
    ensures AtRest(cx) && Asks(cx, PushedThrough(a, b, cx.q, given), answer)
  {
    hide IsSubtypeRec;
    hide Leads;
    ghost var outer := cx.State();
    LeadsNowhere(outer);
    if !(a.Complement? && a.inner.Union?) { return Relation.Unknown; }
    var part := PartOf(cx, given);
    ghost var start := part.State();
    answer := GoalOf(MeetWithin(ComplementedAll(a.inner.members), cx.q.gate, true), b, part);
    ghost var r := PushedThrough(a, b, cx.q, given);
    APartLeads(outer, start, part.State(), cx.State(), r.met, r.work);
  }

  method AgainstATableRun(a: Schema, b: Schema, given: nat, cx: Cx) returns (answer: Relation)
    requires AtRest(cx) && cx.query != 0 && cx.thread.narrowing != cx.query
    modifies cx.thread
    ensures AtRest(cx) && Asks(cx, AgainstATable(a, b, cx.q, given), answer)
  {
    hide IsSubtypeRec;
    hide Leads;
    hide Emptied;
    hide FiniteSet;
    ghost var outer := cx.State();
    LeadsNowhere(outer);
    if FiniteSet(b).None? { return Relation.Unknown; }
    var part := PartOf(cx, given);
    ghost var start := part.State();
    answer := EmptiedRun(a, Complemented(b), part);
    ghost var r := AgainstATable(a, b, cx.q, given);
    APartLeads(outer, start, part.State(), cx.State(), r.met, r.work);
  }

  method AgainstAUnionRun(a: Schema, b: Schema, given: nat, cx: Cx) returns (answer: Relation)
    requires AtRest(cx) && cx.query != 0 && cx.thread.narrowing != cx.query && b.Union?
    modifies cx.thread
    ensures AtRest(cx) && Asks(cx, AgainstAUnion(a, b, cx.q, given), answer)
  {
    hide Thread.Valid;
    hide Shares, MeetWithin, Complemented, UnionWithin, FlatMembers;
    hide Then;
    hide IsSubtypeRec;
    hide Leads;
    hide Emptied;
    hide Inners;
    ghost var outer := cx.State();
    LeadsNowhere(outer);
    if Inners(FlatMembers(b.members), cx.q.gate) == [] { return Relation.Unknown; }
    var moved := Moved(a, b, cx.q.gate);
    var part := PartOf(cx, given);
    ghost var start := part.State();
    ghost var first := IsSubtypeRec(moved.sub, moved.sup, cx.q, ROOT, OUTSIDE, given);
    TheSecondIsThen(first, Emptied(a, Complemented(b), cx.q, first.left));
    answer := GoalOf(moved.sub, moved.sup, part);
    if answer.Unknown? {
      ghost var mid, second := part.State(), Emptied(a, Complemented(b), cx.q, first.left);
      answer := EmptiedRun(a, Complemented(b), part);
      LeadsOn(start, mid, part.State(), first.met, first.work, second.met, second.work);
    }
    ghost var r := AgainstAUnion(a, b, cx.q, given);
    APartLeads(outer, start, part.State(), cx.State(), r.met, r.work);
  }

  /** One goal, and another on what it left where it declines. */
  method TwoGoals(first: Goal, second: Goal, part: Cx) returns (answer: Relation)
    requires AtRest(part) && part.query != 0
    modifies part, part.budget, part.thread
    ensures AtRest(part) && Numbered(part)
    ensures var one := IsSubtypeRec(first.sub, first.sup, part.q, ROOT, OUTSIDE, old(part.budget.steps));
      RanAs(part, Then(one, IsSubtypeRec(second.sub, second.sup, part.q, ROOT, OUTSIDE, one.left)), answer)
  {
    hide IsSubtypeRec;
    hide Leads;
    hide Then;
    hide AtRest;
    ghost var start, given := part.State(), part.budget.steps;
    ghost var one := IsSubtypeRec(first.sub, first.sup, part.q, ROOT, OUTSIDE, given);
    ghost var two := IsSubtypeRec(second.sub, second.sup, part.q, ROOT, OUTSIDE, one.left);
    TheSecondIsThen(one, two);
    answer := GoalOf(first.sub, first.sup, part);
    if answer.Unknown? {
      ghost var mid := part.State();
      answer := GoalOf(second.sub, second.sup, part);
      LeadsOn(start, mid, part.State(), one.met, one.work, two.met, two.work);
    }
  }

  method AgainstAComplementRun(a: Schema, b: Schema, given: nat, cx: Cx) returns (answer: Relation)
    requires AtRest(cx) && cx.query != 0 && cx.thread.narrowing != cx.query && b.Complement?
    modifies cx.thread
    ensures AtRest(cx) && Asks(cx, AgainstAComplement(a, b, cx.q, given), answer)
  {
    hide Thread.Valid;
    hide IsSubtypeRec;
    hide Leads;
    hide Emptied;
    hide Then;
    ghost var outer, q := cx.State(), cx.q;
    var meet := MeetWithin([a, b.inner], cx.q.gate, true);
    var part := PartOf(cx, given);
    ghost var start := part.State();
    ghost var first := IsSubtypeRec(meet, Nothing, q, ROOT, OUTSIDE, given);
    ghost var both := Then(first, IsSubtypeRec(b.inner, Complemented(a), q, ROOT, OUTSIDE, first.left));
    ghost var last := Emptied(a, b.inner, q, both.left);
    TheSecondIsThen(both, last);
    answer := TwoGoals(Goal(meet, Nothing), Goal(b.inner, Complemented(a)), part);
    if answer.Unknown? {
      ghost var mid := part.State();
      answer := EmptiedRun(a, b.inner, part);
      LeadsOn(start, mid, part.State(), both.met, both.work, last.met, last.work);
    }
    ghost var r := AgainstAComplement(a, b, q, given);
    APartLeads(outer, start, part.State(), cx.State(), r.met, r.work);
  }

  method TwoMeetsRun(a: Schema, b: Schema, given: nat, cx: Cx) returns (answer: Relation)
    requires AtRest(cx) && cx.query != 0 && cx.thread.narrowing != cx.query
    modifies cx.thread
    ensures AtRest(cx) && Asks(cx, TwoMeetsTogether(a, b, cx.q, given), answer)
  {
    hide Thread.Valid;
    hide IsSubtypeRec;
    hide Leads;
    hide Emptied;
    hide EmptyAndRegion;
    hide TwoMeetsTogether;
    ghost var outer, q := cx.State(), cx.q;
    TwoMeetsAre(a, b, q, given);
    var part := PartOf(cx, given);
    ghost var start, first := part.State(), Emptied(a, b, q, given);
    answer := EmptiedRun(a, b, part);
    if answer.Holds? {
      ghost var mid, held := part.State(), EmptyAndRegion(a, q, NOTHING_HELD, OUTSIDE, first.left);
      var verdict := HeldRun(a, part);
      LeadsOn(start, mid, part.State(), first.met, first.work, held.met, first.left - held.left);
      answer := if verdict.Inhabited? then Relation.Fails else Relation.Unknown;
    }
    ghost var r := TwoMeetsTogether(a, b, q, given);
    APartLeads(outer, start, part.State(), cx.State(), r.met, r.work);
  }

  method HeldRun(a: Schema, part: Cx) returns (verdict: Verdict)
    requires AtRest(part) && part.query != 0
    modifies part, part.budget, part.thread
    ensures AtRest(part) && Numbered(part)
    ensures var r := EmptyAndRegion(a, part.q, NOTHING_HELD, OUTSIDE, old(part.budget.steps));
      verdict == r.verdict && part.budget.steps == r.left && Leads(old(part.State()), part.State(), r.met, old(part.budget.steps) - r.left)
  {
    hide IsSubtypeRec;
    hide EmptyAndRegion;
    verdict := VerdictRun(a, part);
    CountingKeepsValid(part.thread);
  }

  /** Each spelling in turn, until one answers. */
  method RespelledRun(a: Schema, b: Schema, cx: Cx) returns (answer: Relation)
    requires AtRest(cx) && cx.query != 0 && cx.thread.narrowing != cx.query
    modifies cx.thread
    ensures AtRest(cx) && Asks(cx, Respelled(a, b, cx.q, Least(cx.budget.steps, cx.q.respelling)), answer)
  {
    hide AtRest, Least;
    hide Then;
    hide IsSubtypeRec;
    hide Leads;
    hide SpillsAKindInto;
    hide PushedThrough;
    hide AgainstATable;
    hide AgainstAUnion;
    hide AgainstAComplement;
    hide TwoMeetsTogether;
    ghost var start, q := cx.State(), cx.q;
    LeadsNowhere(start);
    if SpillsAKindInto(a, b, cx.q) { return Relation.Fails; }
    var given := Least(cx.budget.steps, cx.q.respelling);
    ghost var pushed, table := PushedThrough(a, b, q, given), AgainstATable(a, b, q, given);
    ghost var early := Then(pushed, table);
    TheSecondIsThen(pushed, table);
    answer := PushedRun(a, b, given, cx);
    if answer.Unknown? {
      ghost var mid := cx.State();
      answer := AgainstATableRun(a, b, given, cx);
      LeadsOn(start, mid, cx.State(), pushed.met, pushed.work, table.met, table.work);
    }
    if !answer.Unknown? || b.Nothing? { return; }
    ghost var mid := cx.State();
    if b.Union? {
      answer := AgainstAUnionRun(a, b, given, cx);
      ghost var last := AgainstAUnion(a, b, q, given);
      TheSecondIsThen(early, last);
      LeadsOn(start, mid, cx.State(), early.met, early.work, last.met, last.work);
    } else if b.Complement? {
      answer := AgainstAComplementRun(a, b, given, cx);
      ghost var last := AgainstAComplement(a, b, q, given);
      TheSecondIsThen(early, last);
      LeadsOn(start, mid, cx.State(), early.met, early.work, last.met, last.work);
    } else if a.Intersection? && b.Intersection? {
      answer := TwoMeetsRun(a, b, given, cx);
      ghost var last := TwoMeetsTogether(a, b, q, given);
      TheSecondIsThen(early, last);
      LeadsOn(start, mid, cx.State(), early.met, early.work, last.met, last.work);
    }
  }

  // ---- The two lattice bounds, each a query of its own.

  method IsEmptyWithRun(s: Schema, q: Setting, given: Allowance, thread: Thread) returns (empty: bool)
    requires thread.Valid()
    modifies thread`boundsMet, thread`taken
    ensures thread.Valid() && old(thread.boundsMet) <= thread.boundsMet && thread.taken <= old(thread.taken) + 2 * given.budget
    ensures empty == IsEmptyWith(s, q, given)
  {
    hide IsSubtypeRec;
    hide EmptyAndRegion;
    var met := thread.boundsMet;
    var budget := new Budget(given.budget);
    var cx := new Cx(q, budget, thread);
    var verdict := VerdictRun(s, cx);
    CountingKeepsValid(thread);
    if AsksAgain(verdict.Unknown?, thread.boundsMet != met, budget.steps, q, given) {
      label again:
      var larger := new Budget(given.budget);
      var second := new Cx(Again(q, given), larger, thread);
      verdict := VerdictRun(s, second);
      CountingKeepsValid@again(thread);
    }
    empty := verdict.Empty?;
  }

  method BelowByEmptinessRun(a: Schema, b: Schema, q: Setting, left: nat, given: Allowance, thread: Thread) returns (answer: Relation)
    requires thread.Valid()
    modifies thread`boundsMet, thread`taken
    ensures thread.Valid() && old(thread.boundsMet) <= thread.boundsMet
    ensures thread.taken <= old(thread.taken) + (if left > 0 then 0 else 4 * given.budget)
    ensures left > 0 ==> thread.boundsMet == old(thread.boundsMet)
    ensures answer == BelowByEmptiness(a, b, q, left, given)
  {
    hide IsSubtypeRec;
    hide IsEmptyWith;
    if left > 0 { return Relation.Unknown; }
    var empty := IsEmptyWithRun(a, q, given, thread);
    if empty { return Relation.Holds; }
    if !b.Complement? { return Relation.Unknown; }
    empty := IsEmptyWithRun(MeetWithin([a, b.inner], q.gate, true), q, given, thread);
    return Proven(empty);
  }

  // ---- What a root kept, read back.

  /** The record of this query's root, taken as it is read; none where the root
      kept another pair's. */
  method TakeKept(root: KeptFrom, other: Schema, members: seq<Schema>, cx: Cx) returns (kept: Option<Kept>)
    requires cx.Valid()
    modifies cx.thread`held
    ensures cx.Valid() && cx.thread.held == None
    ensures kept.Some? ==>
      kept.value.root == root && kept.value.other == other && kept.value.members == members && KeptRightly(kept.value, cx.q)
  {
    hide IsSubtypeRec;
    hide AnsweredOutright;
    kept := None;
    if cx.thread.held.Some? {
      var k := cx.thread.held.value;
      if k.query == cx.query && k.root == root && k.other == other && k.members == members { kept := Some(k); }
    }
    label before:
    cx.thread.held := None;
    forall asked | asked in cx.thread.asked ensures cx.thread.Recalled(asked) { assert old@before(cx.thread.Recalled(asked)); }
  }

  /** Whatever a root kept is a fact: a pair placed is an inclusion, and a branch
      refuted holds the subject nowhere whole. */
  lemma WhatIsKeptIsAFact(k: Kept, at: nat, q: Setting, m: Meaning)
    requires Oracles.Reads(q, m) && KeptRightly(k, q) && at < |k.members|
    ensures at in k.placed ==> Included(PairAt(k, at).sub, PairAt(k, at).sup, m)
    ensures at in k.refuted ==> Spills(PairAt(k, at).sub, PairAt(k, at).sup, m)
  {
    hide Member;
    hide Truthful;
    hide IsSubtypeRec;
    AnOutrightAnswerIsAFact(PairAt(k, at).sub, PairAt(k, at).sup, q, m);
  }

  lemma AnOutrightAnswerIsAFact(a: Schema, b: Schema, q: Setting, m: Meaning)
    requires Oracles.Reads(q, m)
    ensures AnsweredOutright(a, b, q, Relation.Holds) ==> Included(a, b, m)
    ensures AnsweredOutright(a, b, q, Relation.Fails) ==> Spills(a, b, m)
  {
    hide Member;
    hide Truthful;
    hide IsSubtypeRec;
    hide Included;
    hide Spills;
    if AnsweredOutright(a, b, q, Relation.Holds) {
      var narrowing, depth: nat, steps: nat :| IsSubtypeRec(a, b, q, Path([], narrowing), depth, steps).answer == Relation.Holds;
      TheDecisionIsSound(a, b, q, narrowing, depth, steps, m);
    }
    if AnsweredOutright(a, b, q, Relation.Fails) {
      var narrowing, depth: nat, steps: nat :| IsSubtypeRec(a, b, q, Path([], narrowing), depth, steps).answer == Relation.Fails;
      TheDecisionIsSound(a, b, q, narrowing, depth, steps, m);
    }
  }

  // ---- The root questions.

  twostate lemma LedOutlives(cx: Cx)
    requires exists met, work :: Leads(old(cx.State()), cx.State(), met, work)
    ensures cx.thread.Outlived()
  {
    hide IsSubtypeRec;
  }

  /** The spellings, under the number the query is given for them. */
  method SpelledRun(a: Schema, b: Schema, cx: Cx) returns (answer: Relation)
    requires AtRest(cx) && (cx.query != 0 ==> cx.thread.narrowing != cx.query)
    modifies cx, cx.thread
    ensures AtRest(cx) && cx.query != 0 && cx.thread.narrowing != cx.query && cx.thread.Outlived()
    ensures var r := Respelled(a, b, cx.q, Least(cx.budget.steps, cx.q.respelling));
      && answer == r.answer && cx.Met() == (old(cx.Met()) || r.met)
      && cx.thread.taken <= old(cx.thread.taken) + r.work
  {
    hide IsSubtypeRec;
    hide Respelled;
    var n := cx.Number();
    LedOutlives(cx);
    label numbered:
    answer := RespelledRun(a, b, cx);
    LedOutlives@numbered(cx);
  }

  /** One asking of a pair on a query's context. */
  method AskedOnceRun(a: Schema, b: Schema, given: Allowance, cx: Cx) returns (answer: Relation)
    requires AtRest(cx) && (cx.query != 0 ==> cx.thread.narrowing != cx.query)
    modifies cx, cx.budget, cx.thread
    ensures AtRest(cx) && (cx.query != 0 ==> cx.thread.narrowing != cx.query) && cx.thread.Outlived()
    ensures var r := AskedOnce(a, b, cx.q, old(cx.budget.steps), given);
      && answer == r.answer && cx.budget.steps == r.left
      && (r.left > 0 ==> cx.Met() == (old(cx.Met()) || r.met))
      && cx.thread.taken <= old(cx.thread.taken) + r.work + (if r.left > 0 then 0 else 4 * given.budget)
  {
    hide IsSubtypeRec;
    hide Respelled;
    hide BelowByEmptiness;
    hide AskedOnce;
    AnAskingIs(a, b, cx.q, cx.budget.steps, given);
    answer := IsSubtypeRun(a, b, cx);
    LedOutlives(cx);
    if answer.Unknown? { answer := SpelledRun(a, b, cx); }
    if answer.Unknown? { answer := BelowByEmptinessRun(a, b, cx.q, cx.budget.steps, given, cx.thread); }
  }

  /** A context of its own for a question on the thread. */
  method Opened(q: Setting, steps: nat, thread: Thread) returns (cx: Cx)
    requires thread.Valid()
    ensures fresh(cx) && fresh(cx.budget) && cx.thread == thread && cx.q == q
    ensures AtRest(cx) && cx.budget.steps == steps && cx.query == 0 && !cx.Met() && cx.since == thread.boundsMet
  {
    hide IsSubtypeRec;
    var budget := new Budget(steps);
    cx := new Cx(q, budget, thread);
  }

  /** One asking of a root question, on a budget and a context of its own. */
  method OneAsking(a: Schema, b: Schema, q: Setting, given: Allowance, thread: Thread) returns (answer: Relation, met: bool, left: nat)
    requires thread.Valid()
    modifies thread
    ensures thread.Valid() && thread.Outlived()
    ensures var r := AskedOnce(a, b, q, given.budget, given);
      && answer == r.answer && left == r.left && (left > 0 ==> met == r.met)
      && thread.taken <= old(thread.taken) + r.work + 4 * given.budget
  {
    hide IsSubtypeRec;
    hide AskedOnce;
    var before := thread.boundsMet;
    var cx := Opened(q, given.budget, thread);
    answer := AskedOnceRun(a, b, given, cx);
    met, left := thread.boundsMet != before, cx.budget.steps;
  }

  /** With no step left it does not matter what bounds were met. */
  lemma AskedTwice(a: Schema, b: Schema, q: Setting, given: Allowance, met: bool, left: nat)
    ensures var first := AskedOnce(a, b, q, given.budget, given);
      left == first.left && (left > 0 ==> met == first.met) ==>
        SubtypeRelation(a, b, q, given) == if AsksAgain(first.answer.Unknown?, met, left, q, given)
                                           then AskedOnce(a, b, Again(q, given), given.budget, given).answer else first.answer
    ensures var first := BothWays(a, b, q, given);
      left == first.left && (left > 0 ==> met == first.met) ==>
        EquivalenceRelation(a, b, q, given) == if AsksAgain(first.answer.Unknown?, met, left, q, given)
                                               then BothWays(a, b, Again(q, given), given).answer else first.answer
  {
    hide AskedOnce;
    hide BothWays;
  }

  /** A pair asked, and asked again on a larger allowance where a bound left it
      open: twice at most, whatever the thread's memos hold. */
  method SubtypeRelationRun(a: Schema, b: Schema, q: Setting, given: Allowance, thread: Thread) returns (relation: Relation)
    requires thread.Valid()
    modifies thread
    ensures thread.Valid() && thread.Outlived() && relation == SubtypeRelation(a, b, q, given)
    ensures thread.taken <= old(thread.taken) + 8 * given.budget
      + AskedOnce(a, b, q, given.budget, given).work + AskedOnce(a, b, Again(q, given), given.budget, given).work
  {
    hide IsSubtypeRec;
    hide AskedOnce;
    hide Thread.Valid;
    hide SubtypeRelation;
    hide AsksAgain;
    var met, left;
    relation, met, left := OneAsking(a, b, q, given, thread);
    AskedTwice(a, b, q, given, met, left);
    if AsksAgain(relation.Unknown?, met, left, q, given) {
      relation, met, left := OneAsking(a, b, Again(q, given), given, thread);
    }
  }

  lemma TheSecondFollows(a: Schema, b: Schema, q: Setting, given: Allowance)
    ensures var first := AskedOnce(a, b, q, given.budget, given);
      var second := AskedOnce(b, a, q, first.left, given);
      var r := BothWays(a, b, q, given);
      && r.answer == (if first.answer.Holds? then second.answer else first.answer)
      && r.left == (if first.answer.Holds? then second.left else first.left)
      && r.met == (first.met || (first.answer.Holds? && second.met))
  {
    hide AskedOnce;
  }

  /** Both inclusions on one context, the second asked only where the first holds. */
  method BothWaysRun(a: Schema, b: Schema, q: Setting, given: Allowance, thread: Thread) returns (answer: Relation, met: bool, left: nat)
    requires thread.Valid()
    modifies thread
    ensures thread.Valid() && thread.Outlived()
    ensures var r := BothWays(a, b, q, given);
      answer == r.answer && left == r.left && (left > 0 ==> met == r.met)
  {
    hide IsSubtypeRec;
    hide AskedOnce;
    hide BothWays;
    var before := thread.boundsMet;
    var cx := Opened(q, given.budget, thread);
    TheSecondFollows(a, b, q, given);
    answer := AskedOnceRun(a, b, given, cx);
    if answer.Holds? { answer := AskedOnceRun(b, a, given, cx); }
    met, left := thread.boundsMet != before, cx.budget.steps;
  }

  method EquivalenceRelationRun(a: Schema, b: Schema, q: Setting, given: Allowance, thread: Thread) returns (relation: Relation)
    requires thread.Valid()
    modifies thread
    ensures thread.Valid() && thread.Outlived() && relation == EquivalenceRelation(a, b, q, given)
  {
    hide IsSubtypeRec;
    hide BothWays;
    hide Thread.Valid;
    hide EquivalenceRelation;
    hide AsksAgain;
    var met, left;
    relation, met, left := BothWaysRun(a, b, q, given, thread);
    AskedTwice(a, b, q, given, met, left);
    if AsksAgain(relation.Unknown?, met, left, q, given) {
      relation, met, left := BothWaysRun(a, b, Again(q, given), given, thread);
    }
  }

  /** A query a callback starts inside another: answered as it would be outside it,
      and the outer one goes on with its hypotheses, its number and its question, so
      with the answers it would have given. */
  method AskedInside(a: Schema, b: Schema, q: Setting, given: Allowance, outer: Cx) returns (relation: Relation)
    requires outer.Valid()
    modifies outer.thread
    ensures outer.Valid() && outer.Path() == old(outer.Path()) && outer.Open() == old(outer.Open())
    ensures relation == SubtypeRelation(a, b, q, given)
  {
    hide IsSubtypeRec;
    hide SubtypeRelation;
    relation := SubtypeRelationRun(a, b, q, given, outer.thread);
  }
}
