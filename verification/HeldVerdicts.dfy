/** The verdicts a query holds of the meets it reads again and again: a verdict is
    held where it rests on nothing, and read back in place of a reading. */
module HeldVerdicts {
  import opened Verdicts
  import opened Schemas
  import opened Values
  import opened Oracles
  import opened Emptiness
  import opened EmptinessRight
  import opened EmptinessEnds
  import opened Decision
  import opened Contexts
  import Readers = EmptinessRun

  /** A verdict read with no hypothesis open, and decided or stopped by no bound. */
  ghost predicate RestsOnNothing(verdict: Verdict, meet: Schema, q: Setting) {
    exists depth: nat, steps: nat :: Gives(verdict, meet, q, depth, steps)
  }

  ghost predicate Gives(verdict: Verdict, meet: Schema, q: Setting, depth: nat, steps: nat) {
    var r := EmptyAndRegion(meet, q, NOTHING_HELD, depth, steps);
    r.verdict == verdict && (verdict.Unknown? ==> !r.met)
  }

  /** A held verdict is a fact of the meet, and a held decline is what every reading
      with room gives. */
  lemma AHeldVerdictIsRight(verdict: Verdict, meet: Schema, q: Setting, m: Meaning)
    requires Oracles.Reads(q, m) && RestsOnNothing(verdict, meet, q)
    ensures verdict.Empty? ==> !HasValue(meet, m)
    ensures verdict.Inhabited? ==> HasValue(meet, m)
    ensures verdict.Unknown? ==> Limit(meet, q).Unknown?
  {
    hide Member;
    hide Truthful;
    hide EmptyAndRegion;
    hide Limit;
    var depth: nat, steps: nat :| Gives(verdict, meet, q, depth, steps);
    EmptinessIsRightAtTheRoot(meet, q, depth, steps, m);
    if verdict.Unknown? { AnUnstoppedReadingIsTheLimit(meet, q, depth, steps); }
  }

  /** Read back, it is what a reading stopped by no bound gives, where that decides;
      so no reading's verdict is lost to it. */
  lemma ReadBackLosesNothing(verdict: Verdict, meet: Schema, q: Setting, depth: nat, steps: nat, m: Meaning)
    requires Oracles.Reads(q, m) && RestsOnNothing(verdict, meet, q)
    requires var r := EmptyAndRegion(meet, q, NOTHING_HELD, depth, steps); !r.met && !r.verdict.Unknown?
    ensures verdict == EmptyAndRegion(meet, q, NOTHING_HELD, depth, steps).verdict
  {
    hide Member;
    hide Truthful;
    hide EmptyAndRegion;
    hide Limit;
    AHeldVerdictIsRight(verdict, meet, q, m);
    EmptinessIsRightAtTheRoot(meet, q, depth, steps, m);
    AnUnstoppedReadingIsTheLimit(meet, q, depth, steps);
  }

  datatype Meet = Meet(query: nat, members: Schema)

  class Held {
    var verdicts: map<Meet, Verdict>

    constructor ()
      ensures verdicts == map[]
    {
      verdicts := map[];
    }

    ghost predicate Valid(thread: Thread)
      reads this, thread
    {
      forall k <- verdicts :: k.query in thread.settings && RestsOnNothing(verdicts[k], k.members, thread.settings[k.query])
    }

    /** A verdict kept, the table emptied first where it is full. */
    method Keep(key: Meet, verdict: Verdict, thread: Thread)
      requires Valid(thread) && key.query in thread.settings && RestsOnNothing(verdict, key.members, thread.settings[key.query])
      modifies this
      ensures Valid(thread) && key in verdicts && verdicts[key] == verdict
    {
      hide RestsOnNothing;
      if |verdicts| >= READINGS_HELD { verdicts := map[]; }
      verdicts := verdicts[key := verdict];
    }

    /** The verdict of a meet with nothing open: read back where one is held, and
        otherwise read, and held where it rests on nothing. */
    method VerdictOf(meet: Schema, cx: Cx) returns (verdict: Verdict)
      requires cx.Valid() && cx.budget.depth <= cx.q.maxDepth && Valid(cx.thread)
      requires cx.trail == [] && cx.Open() == NOTHING_HELD
      modifies this, cx`query, cx.budget, cx.thread
      ensures Valid(cx.thread) && cx.budget.depth == old(cx.budget.depth)
      ensures RestsOnNothing(verdict, meet, cx.q)
        || (verdict.Unknown? && verdict == EmptyAndRegion(meet, cx.q, NOTHING_HELD, old(cx.budget.depth), old(cx.budget.steps)).verdict)
    {
      hide RestsOnNothing;
      hide EmptyAndRegion;
      hide Thread.Valid;
      hide Leads;
      var key := Numbered(meet, cx);
      if key in verdicts { return verdicts[key]; }
      var rests;
      verdict, rests := ReadWithNothingOpen(meet, cx);
      if rests { Keep(key, verdict, cx.thread); }
    }

    /** The meet under its query's number, given at its first reading. */
    method Numbered(meet: Schema, cx: Cx) returns (key: Meet)
      requires cx.Valid() && Valid(cx.thread)
      modifies cx`query, cx.thread`queries, cx.thread`settings, cx.thread`began
      ensures Valid(cx.thread) && cx.since <= cx.thread.boundsMet
      ensures key == Meet(cx.query, meet) && cx.query in cx.thread.settings && cx.thread.settings[cx.query] == cx.q
    {
      hide IsSubtypeRec;
      hide KeptRightly;
      hide RestsOnNothing;
      var n := cx.Number();
      key := Meet(cx.query, meet);
    }
  }

  /** One reading on the query's steps, and whether it rests on nothing: it decided,
      or no bound was counted while it ran. */
  method ReadWithNothingOpen(meet: Schema, cx: Cx) returns (verdict: Verdict, rests: bool)
    requires cx.budget.depth <= cx.q.maxDepth
    modifies cx.budget, cx.thread`boundsMet, cx.thread`taken
    ensures cx.budget.depth == old(cx.budget.depth)
    ensures verdict == EmptyAndRegion(meet, cx.q, NOTHING_HELD, old(cx.budget.depth), old(cx.budget.steps)).verdict
    ensures rests ==> RestsOnNothing(verdict, meet, cx.q)
    ensures !rests ==> verdict.Unknown?
  {
    hide EmptyAndRegion;
    var before := cx.thread.boundsMet;
    var reader := new Cx(cx.q, cx.budget, cx.thread);
    ghost var depth, steps := cx.budget.depth, cx.budget.steps;
    verdict := Readers.VerdictRun(meet, reader);
    rests := !verdict.Unknown? || cx.thread.boundsMet == before;
    if rests { assert Gives(verdict, meet, cx.q, depth, steps); }
  }
}
