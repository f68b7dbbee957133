/** Running the rules: one goal recursion under a step budget, a depth bound and
    the trail of goals assumed. */
module Decision {
  import opened Verdicts
  import opened Schemas
  import opened Oracles
  import opened Readings
  import opened Shapes
  import opened Emptiness
  import opened Rules

  datatype Goal = Goal(sub: Schema, sup: Schema)

  /** What a path holds open: the goals assumed, innermost last, and whether a
      narrowed meet's question is being asked. */
  datatype Path = Path(trail: seq<Goal>, narrowing: bool)

  const ROOT: Path := Path([], false)

  /** One run: the answer, the steps left, whether a bound was met, and the steps
      taken in all, the ones no query is charged for among them. */
  datatype Ran = Ran(answer: Relation, left: nat, met: bool, work: nat) {

    /** This run after an earlier one. */
    function After(met: bool, work: nat): Ran {
      Ran(answer, left, this.met || met, this.work + work)
    }
  }

  function Done(answer: Relation, left: nat): Ran { Ran(answer, left, false, 0) }

  function Next(p: Plan, answer: Relation): (r: Plan)
    requires p.Ask? || p.Unfold? || p.Narrowed? || p.Product?
    ensures r < p
  {
    match answer
    case Holds => p.holds
    case Fails => p.fails
    case Unknown => p.unknown
  }

  function NextRead(p: Plan, verdict: Verdict): (r: Plan)
    requires p.Empties?
    ensures r < p
  {
    match verdict
    case Empty => p.empty
    case Inhabited => p.inhabited
    case Unknown => p.undecided
  }

  /** A plan run to its answer. */
  function Run(p: Plan, q: Setting, path: Path, depth: nat, steps: nat): (r: Ran)
    ensures r.left <= steps
    decreases steps, 1, p
  {
    if p.Answer? then Done(p.relation, steps)
    else if p.Empties? then
      var first := EmptyAndRegion(p.of, q, NOTHING_HELD, depth, steps);
      Run(NextRead(p, first.verdict), q, path, depth, first.left).After(first.met, steps - first.left)
    else if p.Spent? then
      if steps == 0 then Run(p.yes, q, path, depth, steps).After(true, 0) else Run(p.no, q, path, depth, steps)
    else
      var first :=
        if p.Ask? then IsSubtypeRec(p.sub, p.sup, q, path, depth, steps)
        else if p.Unfold? then IsSubtypeRec(p.defSub, p.defSup, q, path.(trail := path.trail + [Goal(p.sub, p.sup)]), depth, steps)
        else if p.Narrowed? then NarrowedRun(p.sub, p.sup, q, path, depth, steps)
        else ProductRun(p.split, p.deeper, q, path, depth, steps);
      Run(Next(p, first.answer), q, path, depth, first.left).After(first.met, first.work)
  }

  /** A narrowed meet: on the question's own steps and trail inside another's,
      and otherwise a question of its own, its steps charged to nothing. */
  function NarrowedRun(sub: Schema, sup: Schema, q: Setting, path: Path, depth: nat, steps: nat): (r: Ran)
    ensures r.left <= steps
    decreases steps, 0, 3
  {
    if path.narrowing then IsSubtypeRec(sub, sup, q, path, depth, steps)
    else IsSubtypeRec(sub, sup, q, Path([], true), 0, Least(steps, q.respelling)).(left := steps)
  }

  /** The product decomposition: a step, and a level where one branch deeper. */
  function ProductRun(split: Split, deeper: bool, q: Setting, path: Path, depth: nat, steps: nat): (r: Ran)
    ensures r.left <= steps
    decreases steps, 0, 1
  {
    if (deeper && depth >= q.maxDepth) || steps == 0 then Ran(Relation.Unknown, steps, true, 0)
    else Run(ProductPlan(split, q), q, path, if deeper then depth + 1 else depth, steps - 1).After(false, 1)
  }

  /** The rules' answer to a goal, before its refutation is read. */
  function ByRules(a: Schema, b: Schema, q: Setting, path: Path, depth: nat, steps: nat): (r: Ran)
    ensures r.left <= steps
    decreases steps, 0, 1
  {
    if a == b then Done(Relation.Holds, steps)
    else if steps == 0 then Ran(Proven(PlacedByMembership(a, b)), 0, true, 0)
    else if RegionSet(b).Known? && RegionSet(a).Known? then
      Ran(Decided(RegionSet(a).region.SubsetOf(RegionSet(b).region)), steps - 1, false, 1)
    else if Goal(a, b) in path.trail then Ran(Relation.Holds, steps - 1, false, 1)
    else if depth >= q.maxDepth then Ran(Relation.Unknown, steps - 1, true, 1)
    else Run(Decide(a, b, q, path.trail == []), q, path, depth + 1, steps - 1).After(false, 1)
  }

  /** A goal: the rules, and a refutation read against the subject. */
  function IsSubtypeRec(a: Schema, b: Schema, q: Setting, path: Path, depth: nat, steps: nat): (r: Ran)
    ensures r.left <= steps
    decreases steps, 0, 2
  {
    var ruled := ByRules(a, b, q, path, depth, steps);
    if ruled.answer.Fails? then WitnessRun(a, q, path, depth, ruled.left).After(ruled.met, ruled.work)
    else ruled
  }

  /** The subject's emptiness where its shape names no value. */
  function WitnessRun(a: Schema, q: Setting, path: Path, depth: nat, steps: nat): (r: Ran)
    ensures r.left <= steps
  {
    match Witness(a, q)
    case Empties(of, _, _, _) =>
      var read := EmptyAndRegion(of, q, NOTHING_HELD, depth, steps);
      Ran(OfMismatch(read.verdict), read.left, read.met, steps - read.left)
    case _ => Done(Relation.Fails, steps)
  }

  /** A goal's run, by its parts. */
  lemma AGoalIs(a: Schema, b: Schema, q: Setting, path: Path, depth: nat, steps: nat)
    ensures var ruled := ByRules(a, b, q, path, depth, steps);
      IsSubtypeRec(a, b, q, path, depth, steps) ==
        if ruled.answer.Fails? then WitnessRun(a, q, path, depth, ruled.left).After(ruled.met, ruled.work) else ruled
  {
    hide ByRules, WitnessRun;
  }
}
