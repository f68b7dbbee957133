/** What one decision query threads through its recursions, as the objects whose
    fields the recursions update: the budget, the stacks of hypotheses, and the
    memos a thread's queries hold beside them. */
module Contexts {
  import opened Verdicts
  import opened Schemas
  import opened Oracles
  import opened Emptiness
  import opened Decision

  /** Steps of work, and levels held open. */
  class Budget {
    var steps: nat
    var depth: nat

    constructor (steps: nat)
      ensures this.steps == steps && depth == 0
    {
      this.steps := steps;
      depth := 0;
    }
  }

  /** A narrowed meet's question: the query it was asked in, the pair, and the
      allowance it ran under. */
  datatype Question = Question(query: nat, narrowed: Schema, sup: Schema, given: nat)

  /** Which of the rules' three roots a record was kept at. */
  datatype KeptFrom = AUnionsMembers | AMeetsMembers | AUnionsBranches

  /** What a root's members were answered: the pair's other schema, the members
      asked, and which of their positions were placed and which refuted. */
  datatype Kept = Kept(query: nat, root: KeptFrom, other: Schema, members: seq<Schema>, placed: set<nat>, refuted: set<nat>)

  /** The most answers a memo holds before it is emptied. */
  const READINGS_HELD: nat := 4096

  /** What the queries of one thread hold beside them. */
  class Thread {
    var queries: nat
    var narrowing: nat
    var boundsMet: nat
    var asked: map<Question, Relation>
    var held: Option<Kept>
    /** What each query's number stands for: what it reads, and the bounds met
        before it began. */
    ghost var settings: map<nat, Setting>
    ghost var began: map<nat, nat>
    /** Every step taken on the thread, whatever it was charged to. */
    ghost var taken: nat

    constructor ()
      ensures Valid() && queries == 0 && narrowing == 0 && asked == map[] && held == None
    {
      queries, narrowing, boundsMet := 0, 0, 0;
      asked, held := map[], None;
      settings, began, taken := map[], map[], 0;
    }

    ghost predicate Valid()
      reads this
    {
      && settings.Keys == began.Keys
      && narrowing <= queries
      && (forall n <- settings :: 0 < n <= queries && began[n] <= boundsMet)
      && (forall k <- asked :: Recalled(k))
      && (held.Some? ==> held.value.query in settings && KeptRightly(held.value, settings[held.value.query]))
    }

    /** What a query leaves of the ones it was started inside: the question being
        asked, every number's meaning, and the counts, which only grow. */
    twostate predicate Outlived()
      reads this
    {
      && narrowing == old(narrowing) && old(queries) <= queries && old(boundsMet) <= boundsMet
      && (forall n <- old(settings) :: n in settings && settings[n] == old(settings)[n])
      && (forall n <- old(began) :: n in began && began[n] == old(began)[n])
    }

    /** An answer kept, the table emptied first where it is full. */
    method Remember(question: Question, answer: Relation)
      requires Valid() && question.query in settings
      requires var own := IsSubtypeRec(question.narrowed, question.sup, settings[question.query], Path([], true), 0, question.given);
        answer == own.answer && (own.met ==> began[question.query] < boundsMet)
      modifies this`asked
      ensures Valid() && question in asked && asked[question] == answer
    {
      hide IsSubtypeRec;
      hide KeptRightly;
      ghost var before := asked;
      if |asked| >= READINGS_HELD { asked := map[]; }
      asked := asked[question := answer];
      forall k | k in asked ensures Recalled(k) {
        if k != question { assert k in before && old(Recalled(k)); }
      }
    }

    /** A held answer is what asking the question again would give, and where that
        would meet a bound its query has met one. */
    ghost predicate Recalled(k: Question)
      requires k in asked && settings.Keys == began.Keys
      reads this
    {
      && k.query in settings
      && var own := IsSubtypeRec(k.narrowed, k.sup, settings[k.query], Path([], true), 0, k.given);
        asked[k] == own.answer && (own.met ==> began[k.query] < boundsMet)
    }
  }

  /** The pair was answered so with no hypothesis open. */
  ghost predicate AnsweredOutright(a: Schema, b: Schema, q: Setting, answer: Relation) {
    exists narrowing, depth: nat, steps: nat :: IsSubtypeRec(a, b, q, Path([], narrowing), depth, steps).answer == answer
  }

  /** One root's record grown from another. */
  ghost predicate SameRoot(k: Kept, from: Kept) {
    k.root == from.root && k.other == from.other && k.members == from.members
  }

  /** The pair the rules were asked of a position. */
  function PairAt(k: Kept, at: nat): Goal
    requires at < |k.members|
  {
    if k.root.AUnionsMembers? then Goal(k.members[at], k.other) else Goal(k.other, k.members[at])
  }

  /** Every position kept was answered outright. */
  ghost predicate KeptRightly(k: Kept, q: Setting) {
    && (forall at <- k.placed :: at < |k.members| && AnsweredOutright(PairAt(k, at).sub, PairAt(k, at).sup, q, Relation.Holds))
    && (forall at <- k.refuted :: at < |k.members| && AnsweredOutright(PairAt(k, at).sub, PairAt(k, at).sup, q, Relation.Fails))
  }

  /** What a call on a context finds and leaves: the steps and the level, what the
      path holds open, and what the thread counts and numbers. */
  datatype State = Standing(
    steps: nat, depth: nat, path: Path, open: Held, met: bool,
    query: nat, queries: nat, narrowing: nat, bounds: nat, taken: nat,
    settings: map<nat, Setting>, began: map<nat, nat>)

  /** A run from `s` to `t`: the path and the level given back as they stood, a
      bound met where `met` says one was, at most `work` steps taken, and no
      number given a second meaning. */
  ghost predicate Leads(s: State, t: State, met: bool, work: nat) {
    && t.steps <= s.steps && t.depth == s.depth && t.path == s.path && t.open == s.open
    && t.met == (s.met || met)
    && (s.query != 0 ==> t.query == s.query)
    && t.narrowing == s.narrowing && s.queries <= t.queries && s.bounds <= t.bounds
    && t.taken <= s.taken + work
    && (forall n <- s.settings :: n in t.settings && t.settings[n] == s.settings[n])
    && (forall n <- s.began :: n in t.began && t.began[n] == s.began[n])
  }

  lemma LeadsOn(s: State, t: State, u: State, met: bool, work: nat, met': bool, work': nat)
    requires Leads(s, t, met, work) && Leads(t, u, met', work')
    ensures Leads(s, u, met || met', work + work')
  {
  }

  lemma LeadsNowhere(s: State)
    ensures Leads(s, s, false, 0)
  {
  }

  /** The context a query starts with, and a part of it asked under a budget of its
      own. */
  class Cx {
    const q: Setting
    const budget: Budget
    const thread: Thread
    var trail: seq<Goal>
    var visiting: seq<nat>
    var meets: seq<seq<Schema>>
    var query: nat
    ghost const since: nat

    constructor (q: Setting, budget: Budget, thread: Thread)
      ensures this.q == q && this.budget == budget && this.thread == thread
      ensures trail == [] && visiting == [] && meets == [] && query == 0 && since == thread.boundsMet
    {
      this.q, this.budget, this.thread := q, budget, thread;
      trail, visiting, meets, query := [], [], [], 0;
      since := thread.boundsMet;
    }

    /** A part of the query `outer` numbers, which shares its memos. */
    constructor Within(outer: Cx, budget: Budget)
      requires outer.Valid() && outer.query != 0
      ensures q == outer.q && this.budget == budget && thread == outer.thread && since == outer.since
      ensures trail == [] && visiting == [] && meets == [] && query == outer.query
    {
      q, this.budget, thread := outer.q, budget, outer.thread;
      trail, visiting, meets, query := [], [], [], outer.query;
      since := outer.since;
    }

    ghost predicate Valid()
      reads this, thread
    {
      && thread.Valid()
      && since <= thread.boundsMet
      && (query != 0 ==> query in thread.settings && thread.settings[query] == q && thread.began[query] == since)
    }

    /** A bound has been met since the query began. */
    ghost predicate Met()
      reads this, thread
    {
      since < thread.boundsMet
    }

    ghost function Open(): Held
      reads this
    {
      Held(visiting, meets)
    }

    ghost function Path(): Path
      reads this, thread
    {
      Decision.Path(trail, query != 0 && thread.narrowing == query)
    }

    ghost function State(): State
      reads this, budget, thread
    {
      Standing(budget.steps, budget.depth, Path(), Open(), Met(), query, thread.queries, thread.narrowing, thread.boundsMet,
                     thread.taken, thread.settings, thread.began)
    }

    /** A call that leaves `left` steps and gives every stack and the level back as
        they stood; `met` is whether it met a bound. */
    twostate predicate Spends(left: nat, met: bool)
      reads this, budget, thread
    {
      && budget.steps == left && budget.depth == old(budget.depth)
      && trail == old(trail) && Open() == old(Open())
      && Met() == (old(Met()) || met)
    }

    /** A step of work, or none left and a bound met. */
    method Spend() returns (spent: bool)
      requires since <= thread.boundsMet
      modifies budget`steps, thread`boundsMet, thread`taken
      ensures spent == (old(budget.steps) > 0)
      ensures thread.boundsMet >= old(thread.boundsMet)
      ensures Spends(if spent then old(budget.steps) - 1 else 0, !spent)
      ensures thread.taken == old(thread.taken) + (if spent then 1 else 0)
    {
      spent := budget.steps > 0;
      if spent {
        budget.steps := budget.steps - 1;
        thread.taken := thread.taken + 1;
      } else {
        thread.boundsMet := thread.boundsMet + 1;
      }
    }

    /** A reading stopped at a bound. */
    method MeetBound()
      requires Valid()
      modifies thread`boundsMet
      ensures Valid() && Met() && thread.boundsMet == old(thread.boundsMet) + 1
    {
      hide IsSubtypeRec;
      hide KeptRightly;
      thread.boundsMet := thread.boundsMet + 1;
      forall k | k in thread.asked ensures thread.Recalled(k) { assert old(thread.Recalled(k)); }
    }

    /** The number the query goes by: the next one, the first time it is read. */
    method Number() returns (n: nat)
      requires Valid()
      modifies this`query, thread`queries, thread`settings, thread`began
      ensures Valid() && n == query != 0
      ensures if old(query) != 0 then query == old(query) else query > old(thread.queries)
      ensures Leads(old(State()), State(), false, 0)
    {
      hide IsSubtypeRec;
      hide KeptRightly;
      if query == 0 {
        thread.queries := thread.queries + 1;
        query := thread.queries;
        thread.settings := thread.settings[query := q];
        thread.began := thread.began[query := since];
        forall k | k in thread.asked ensures thread.Recalled(k) { assert old(thread.Recalled(k)); }
      }
      n := query;
    }
  }
}
