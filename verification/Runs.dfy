/** A composed plan's run by its parts: two plans in sequence, and the folds that ask
    one member and then the next. */
module Runs {
  import opened Verdicts
  import opened Schemas
  import opened Oracles
  import opened Emptiness
  import opened Rules
  import opened Decision

  /** What the plan's first question runs. */
  ghost function FirstRun(p: Plan, q: Setting, path: Path, depth: nat, steps: nat): Ran
    requires !p.Answer?
  {
    match p
    case Ask(sub, sup, _, _, _) => IsSubtypeRec(sub, sup, q, path, depth, steps)
    case Unfold(sub, sup, defSub, defSup, _, _, _) =>
      IsSubtypeRec(defSub, defSup, q, path.(trail := path.trail + [Goal(sub, sup)]), depth, steps)
    case Narrowed(sub, sup, _, _, _) => NarrowedRun(sub, sup, q, path, depth, steps)
    case Product(split, deeper, _, _, _) => ProductRun(split, deeper, q, path, depth, steps)
    case Empties(of, _, _, _) =>
      var first := EmptyAndRegion(of, q, NOTHING_HELD, depth, steps);
      Ran(Relation.Unknown, first.left, first.met, steps - first.left)
    case Spent(_, _) => Ran(Relation.Unknown, steps, steps == 0, 0)
  }

  /** The plan that question's answer leads to. */
  ghost function Following(p: Plan, q: Setting, path: Path, depth: nat, steps: nat): Plan
    requires !p.Answer?
  {
    if p.Empties? then NextRead(p, EmptyAndRegion(p.of, q, NOTHING_HELD, depth, steps).verdict)
    else if p.Spent? then (if steps == 0 then p.yes else p.no)
    else Next(p, FirstRun(p, q, path, depth, steps).answer)
  }

  lemma ARunIsItsFirstQuestion(p: Plan, q: Setting, path: Path, depth: nat, steps: nat)
    requires !p.Answer?
    ensures var first := FirstRun(p, q, path, depth, steps);
      Run(p, q, path, depth, steps) == Run(Following(p, q, path, depth, steps), q, path, depth, first.left).After(first.met, first.work)
  {
    hide IsSubtypeRec;
    hide NarrowedRun;
    hide ProductRun;
    hide EmptyAndRegion;
  }

  lemma TwoReadingsAskTheFirst(p: Plan, second: Plan, q: Setting, path: Path, depth: nat, steps: nat)
    requires !p.Answer?
    ensures !OrElse(p, second).Answer?
    ensures FirstRun(OrElse(p, second), q, path, depth, steps) == FirstRun(p, q, path, depth, steps)
    ensures Following(OrElse(p, second), q, path, depth, steps) == OrElse(Following(p, q, path, depth, steps), second)
  {
    hide IsSubtypeRec;
    hide NarrowedRun;
    hide ProductRun;
    hide EmptyAndRegion;
  }

  lemma AnAnswerIsRun(p: Plan, q: Setting, path: Path, depth: nat, steps: nat)
    requires p.Answer?
    ensures Run(p, q, path, depth, steps) == Done(p.relation, steps)
  {
    hide IsSubtypeRec, NarrowedRun, ProductRun, EmptyAndRegion;
  }

  /** Two readings run as the first, and the second where the first declines. */
  lemma {:induction false} RunOfTwoReadings(p: Plan, second: Plan, q: Setting, path: Path, depth: nat, steps: nat)
    ensures var first := Run(p, q, path, depth, steps);
      Run(OrElse(p, second), q, path, depth, steps) ==
        if first.answer.Unknown? then Run(second, q, path, depth, first.left).After(first.met, first.work) else first
    decreases p
  {
    hide Run;
    hide FirstRun;
    hide Following;
    if p.Answer? {
      AnAnswerIsRun(p, q, path, depth, steps);
    } else {
      var next, asked := Following(p, q, path, depth, steps), FirstRun(p, q, path, depth, steps);
      FollowingIsSmaller(p, q, path, depth, steps);
      TwoReadingsAskTheFirst(p, second, q, path, depth, steps);
      ARunIsItsFirstQuestion(p, q, path, depth, steps);
      ARunIsItsFirstQuestion(OrElse(p, second), q, path, depth, steps);
      RunOfTwoReadings(next, second, q, path, depth, asked.left);
    }
  }

  lemma FollowingIsSmaller(p: Plan, q: Setting, path: Path, depth: nat, steps: nat)
    requires !p.Answer?
    ensures Following(p, q, path, depth, steps) < p
  {
    hide IsSubtypeRec;
    hide EmptyAndRegion;
  }

  /** A member of a union asked, and the rest after it. */
  lemma AMemberBelow(ms: seq<Schema>, b: Schema, declined: bool, q: Setting, path: Path, depth: nat, steps: nat)
    requires ms != []
    ensures var first := IsSubtypeRec(ms[0], b, q, path, depth, steps);
      var declines := declined || first.answer.Unknown?;
      Run(EachBelow(ms, b, declined), q, path, depth, steps) ==
        if first.answer.Fails? then first
        else if declines && first.left == 0 then Ran(Relation.Unknown, 0, true, first.work)
        else Run(EachBelow(ms[1..], b, declines), q, path, depth, first.left).After(first.met, first.work)
  {
    hide IsSubtypeRec;
    hide NarrowedRun;
    hide ProductRun;
    hide EmptyAndRegion;
    var first := IsSubtypeRec(ms[0], b, q, path, depth, steps);
    var declines := declined || first.answer.Unknown?;
    var p, rest := EachBelow(ms, b, declined), EachBelow(ms[1..], b, declines);
    assert Run(p, q, path, depth, steps) == Run(Next(p, first.answer), q, path, depth, first.left).After(first.met, first.work);
    if first.answer.Fails? {
      assert Run(FAILS, q, path, depth, first.left) == Done(Relation.Fails, first.left);
    } else if declines {
      assert Next(p, first.answer) == Spent(DECLINES, rest);
      assert Run(DECLINES, q, path, depth, first.left) == Done(Relation.Unknown, first.left);
    }
  }

  // ---- A step of each fold, after a run that met `met` and took `work`.

  lemma AMemberBelowAfter(whole: Ran, ms: seq<Schema>, b: Schema, declined: bool, q: Setting, path: Path, depth: nat, steps: nat, met: bool, work: nat)
    requires ms != [] && whole == Run(EachBelow(ms, b, declined), q, path, depth, steps).After(met, work)
    ensures var first := IsSubtypeRec(ms[0], b, q, path, depth, steps);
      var declines := declined || first.answer.Unknown?;
      var met', work' := met || first.met, work + first.work;
      if first.answer.Fails? then whole == Ran(Relation.Fails, first.left, met', work')
      else if declines && first.left == 0 then whole == Ran(Relation.Unknown, 0, true, work')
      else whole == Run(EachBelow(ms[1..], b, declines), q, path, depth, first.left).After(met', work')
  {
    hide IsSubtypeRec;
    hide Run;
    AMemberBelow(ms, b, declined, q, path, depth, steps);
  }

  lemma AMemberAboveAfter(whole: Ran, a: Schema, ms: seq<Schema>, declined: bool, q: Setting, path: Path, depth: nat, steps: nat, met: bool, work: nat)
    requires ms != [] && whole == Run(BelowEach(a, ms, declined), q, path, depth, steps).After(met, work)
    ensures var first := IsSubtypeRec(a, ms[0], q, path, depth, steps);
      var met', work' := met || first.met, work + first.work;
      if first.answer.Fails? then whole == Ran(Relation.Fails, first.left, met', work')
      else whole == Run(BelowEach(a, ms[1..], declined || first.answer.Unknown?), q, path, depth, first.left).After(met', work')
  {
    hide IsSubtypeRec, NarrowedRun, ProductRun, EmptyAndRegion;
    AnAnswerIsRun(FAILS, q, path, depth, IsSubtypeRec(a, ms[0], q, path, depth, steps).left);
  }

  lemma ABranchAboveAfter(whole: Ran, a: Schema, ms: seq<Schema>, refuted: bool, b: Schema, q: Setting, path: Path, depth: nat, steps: nat, met: bool, work: nat)
    requires ms != [] && b.Union? && whole == Run(EachBranch(a, ms, refuted, b, q), q, path, depth, steps).After(met, work)
    ensures var first := IsSubtypeRec(a, ms[0], q, path, depth, steps);
      var met', work' := met || first.met, work + first.work;
      if first.answer.Holds? then whole == Ran(Relation.Holds, first.left, met', work')
      else whole == Run(EachBranch(a, ms[1..], refuted || first.answer.Fails?, b, q), q, path, depth, first.left).After(met', work')
  {
    hide IsSubtypeRec, NarrowedRun, ProductRun, EmptyAndRegion, PastTheBranches;
    AnAnswerIsRun(HOLDS, q, path, depth, IsSubtypeRec(a, ms[0], q, path, depth, steps).left);
  }

  /** What is run once none is left. */
  lemma NoneIsLeft(a: Schema, b: Schema, seen: bool, q: Setting, path: Path, depth: nat, steps: nat)
    ensures forall met, work ::
      Run(EachBelow([], b, seen), q, path, depth, steps).After(met, work) == Ran(if seen then Relation.Unknown else Relation.Holds, steps, met, work)
    ensures forall met, work ::
      Run(BelowEach(a, [], seen), q, path, depth, steps).After(met, work) == Ran(if seen then Relation.Unknown else Relation.Holds, steps, met, work)
    ensures b.Union? ==>
      Run(EachBranch(a, [], seen, b, q), q, path, depth, steps) == Run(PastTheBranches(a, b, seen, q), q, path, depth, steps)
  {
    hide Run, PastTheBranches;
    AnAnswerIsRun(EachBelow([], b, seen), q, path, depth, steps);
    AnAnswerIsRun(BelowEach(a, [], seen), q, path, depth, steps);
  }

  /** The members of a union answered in turn, every one of them asked. */
  ghost function Answers(ms: seq<Schema>, b: Schema, q: Setting, path: Path, depth: nat, steps: nat): seq<Relation> {
    if ms == [] then []
    else
      var first := IsSubtypeRec(ms[0], b, q, path, depth, steps);
      [first.answer] + Answers(ms[1..], b, q, path, depth, first.left)
  }

  /** A goal asked with no steps left is never refuted. */
  lemma ASpentGoalNeverFails(a: Schema, b: Schema, q: Setting, path: Path, depth: nat)
    ensures !IsSubtypeRec(a, b, q, path, depth, SPENT).answer.Fails?
    ensures IsSubtypeRec(a, b, q, path, depth, SPENT).left == 0
  {
    hide Decide;
    hide Run;
    hide WitnessRun;
  }

  lemma {:induction false} SpentMembersNeverFail(ms: seq<Schema>, b: Schema, q: Setting, path: Path, depth: nat)
    ensures Relation.Fails !in Answers(ms, b, q, path, depth, SPENT)
  {
    hide IsSubtypeRec;
    if ms != [] {
      ASpentGoalNeverFails(ms[0], b, q, path, depth);
      SpentMembersNeverFail(ms[1..], b, q, path, depth);
    }
  }

  lemma ConjunctionOf(first: Relation, rest: seq<Relation>)
    ensures Conjunction([first] + rest) ==
      if first.Fails? then Relation.Fails
      else if first.Unknown? then (if Relation.Fails in rest then Relation.Fails else Relation.Unknown)
      else Conjunction(rest)
  {
    assert forall r :: r in [first] + rest <==> r == first || r in rest;
  }

  /** Stopped at the first decline on spent steps, a union's answer is Kleene's
      conjunction over every member's. */
  lemma {:induction false} EachBelowIsTheConjunction(ms: seq<Schema>, b: Schema, declined: bool, q: Setting, path: Path, depth: nat, steps: nat)
    requires declined ==> steps > 0
    ensures var whole := Conjunction(Answers(ms, b, q, path, depth, steps));
      Run(EachBelow(ms, b, declined), q, path, depth, steps).answer ==
        if declined && whole.Holds? then Relation.Unknown else whole
  {
    hide IsSubtypeRec;
    if ms == [] {
      assert Run(EachBelow(ms, b, declined), q, path, depth, steps) == Done(if declined then Relation.Unknown else Relation.Holds, steps);
    } else {
      hide Run;
      var first := IsSubtypeRec(ms[0], b, q, path, depth, steps);
      var rest := Answers(ms[1..], b, q, path, depth, first.left);
      var declines := declined || first.answer.Unknown?;
      AMemberBelow(ms, b, declined, q, path, depth, steps);
      ConjunctionOf(first.answer, rest);
      if declines && first.left == 0 {
        SpentMembersNeverFail(ms[1..], b, q, path, depth);
      } else if !first.answer.Fails? {
        EachBelowIsTheConjunction(ms[1..], b, declines, q, path, depth, first.left);
      }
    }
  }
}
