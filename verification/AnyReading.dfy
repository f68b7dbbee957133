/** The decision over any emptiness reading that is right, any order its bounds stop it
    in and any facts it reads back: whatever such a run answers is what it claims. The
    recursion of `Decision` is one such run, and so is one that reads held verdicts and
    remembered answers where that one asks again. */
module AnyReading {
  import opened Verdicts
  import opened Kinds
  import opened Schemas
  import opened Values
  import opened Oracles
  import opened Readings
  import opened KindWalk
  import opened Shapes
  import opened Emptiness
  import opened EmptinessRight
  import opened Rules
  import opened Decision
  import opened Claims
  import opened ProductsSound
  import opened RulesSound
  import opened DecisionSound

  // ---- What may be answered.

  /** A verdict is right of a schema; a decline always is. */
  ghost predicate IsRight(verdict: Verdict, s: Schema, m: Meaning) {
    (verdict.Empty? ==> !HasValue(s, m)) && (verdict.Inhabited? ==> HasValue(s, m))
  }

  /** An answer kept from some other question is a fact of the two sets. */
  ghost predicate IsAFact(r: Relation, a: Schema, b: Schema, m: Meaning) {
    (r.Holds? ==> Included(a, b, m)) && (r.Fails? ==> Spills(a, b, m))
  }

  /** The answers a goal has with no rule run: by itself, by placement, by the regions,
      and by the trail. */
  predicate AtOnce(r: Relation, a: Schema, b: Schema, trail: seq<Goal>) {
    || (r.Holds? && (a == b || PlacedByMembership(a, b) || Goal(a, b) in trail))
    || (RegionSet(a).Known? && RegionSet(b).Known? && r == Decided(RegionSet(a).region.SubsetOf(RegionSet(b).region)))
  }

  /** What a mismatch may come to, the subject's emptiness read anyhow. */
  ghost predicate WitnessMayGive(r: Relation, a: Schema, q: Setting, m: Meaning) {
    if Witness(a, q).Empties? then exists verdict :: IsRight(verdict, a, m) && r == OfMismatch(verdict) else r.Fails?
  }

  /** A plan may be answered `r`, in a run no more than `n` goals deep. */
  ghost predicate PlanMayGive(p: Plan, r: Relation, q: Setting, path: Path, m: Meaning, n: nat)
    decreases n, 1, p
  {
    || r.Unknown?
    || (p.Answer? && r == p.relation)
    || (p.Spent? && (PlanMayGive(p.yes, r, q, path, m, n) || PlanMayGive(p.no, r, q, path, m, n)))
    || (p.Empties? && exists verdict :: IsRight(verdict, p.of, m) && PlanMayGive(NextRead(p, verdict), r, q, path, m, n))
    || ((p.Ask? || p.Unfold? || p.Narrowed? || p.Product?)
        && exists first :: QuestionMayGive(p, first, q, path, m, n) && PlanMayGive(Next(p, first), r, q, path, m, n))
  }

  /** The question a plan asks first may be answered `r`. */
  ghost predicate QuestionMayGive(p: Plan, r: Relation, q: Setting, path: Path, m: Meaning, n: nat)
    requires p.Ask? || p.Unfold? || p.Narrowed? || p.Product?
    decreases n, 0, p
  {
    || r.Unknown?
    || (n > 0 && match p
        case Ask(a, b, _, _, _) => GoalMayGive(a, b, r, q, path, m, n - 1)
        case Unfold(a, b, c, d, _, _, _) => GoalMayGive(c, d, r, q, path.(trail := path.trail + [Goal(a, b)]), m, n - 1)
        case Narrowed(a, b, _, _, _) =>
          if path.narrowing then GoalMayGive(a, b, r, q, path, m, n - 1)
          else IsAFact(r, a, b, m) || GoalMayGive(a, b, r, q, Path([], true), m, n - 1)
        case Product(split, _, _, _, _) => PlanMayGive(ProductPlan(split, q), r, q, path, m, n - 1))
  }

  /** The rules may answer `r`, its witness not yet read. */
  ghost predicate RulesMayGive(a: Schema, b: Schema, r: Relation, q: Setting, path: Path, m: Meaning, n: nat)
    decreases n, 2
  {
    r.Unknown? || AtOnce(r, a, b, path.trail) || PlanMayGive(Decide(a, b, q, path.trail == []), r, q, path, m, n)
  }

  /** A goal may be answered `r`. */
  ghost predicate GoalMayGive(a: Schema, b: Schema, r: Relation, q: Setting, path: Path, m: Meaning, n: nat)
    decreases n, 3
  {
    || r.Unknown?
    || (!r.Fails? && RulesMayGive(a, b, r, q, path, m, n))
    || (RulesMayGive(a, b, Relation.Fails, q, path, m, n) && WitnessMayGive(r, a, q, m))
  }

  // ---- And each is what it claims.

  lemma {:induction false} APlansAnswerKeepsItsPromise(p: Plan, r: Relation, to: Promise, q: Setting, narrowing: bool, m: Meaning, n: nat)
    requires Reads(q, m) && Valid(p, to, m) && PlanMayGive(p, r, q, Path(to.trail, narrowing), m, n)
    ensures (r.Holds? ==> to.holds) && (r.Fails? ==> to.fails)
    decreases n, 1, p
  {
    hide Member, Truthful, HoldsUnder, FailsUnder, Proved, Refuted, QuestionMayGive, HasValue;
    var path := Path(to.trail, narrowing);
    if r.Unknown? || p.Answer? {
    } else if p.Spent? {
      if PlanMayGive(p.yes, r, q, path, m, n) {
        APlansAnswerKeepsItsPromise(p.yes, r, to, q, narrowing, m, n);
      } else {
        APlansAnswerKeepsItsPromise(p.no, r, to, q, narrowing, m, n);
      }
    } else if p.Empties? {
      var verdict :| IsRight(verdict, p.of, m) && PlanMayGive(NextRead(p, verdict), r, q, path, m, n);
      APlansAnswerKeepsItsPromise(NextRead(p, verdict), r, to, q, narrowing, m, n);
    } else {
      var first :| QuestionMayGive(p, first, q, path, m, n) && PlanMayGive(Next(p, first), r, q, path, m, n);
      AQuestionsAnswerIsSound(p, first, q, path, m, n);
      APlansAnswerKeepsItsPromise(Next(p, first), r, to, q, narrowing, m, n);
    }
  }

  lemma {:induction false} AQuestionsAnswerIsSound(p: Plan, r: Relation, q: Setting, path: Path, m: Meaning, n: nat)
    requires p.Ask? || p.Unfold? || p.Narrowed? || p.Product?
    requires Reads(q, m) && QuestionMayGive(p, r, q, path, m, n)
    ensures (r.Holds? ==> Proved(p, path.trail, m)) && (r.Fails? ==> Refuted(p, path.trail, m))
    decreases n, 0, p
  {
    hide Member, Truthful, HoldsUnder, FailsUnder, ProductHoldsUnder, ProductFailsUnder, GoalMayGive, PlanMayGive, ProductPlan, IsAFact;
    if !r.Unknown? {
      match p
      case Ask(a, b, _, _, _) => AnyGoalIsSound(a, b, r, q, path, m, n - 1);
      case Unfold(a, b, c, d, _, _, _) => AnyGoalIsSound(c, d, r, q, path.(trail := path.trail + [Goal(a, b)]), m, n - 1);
      case Narrowed(a, b, _, _, _) =>
        if path.narrowing {
          AnyGoalIsSound(a, b, r, q, path, m, n - 1);
        } else {
          if GoalMayGive(a, b, r, q, Path([], true), m, n - 1) { AnswersWithNothingAssumedAreFacts(a, b, r, q, true, m, n - 1); }
          AFactHoldsUnderAnyTrail(a, b, r, path.trail, m);
        }
      case Product(split, _, _, _, _) =>
        ProductPlanIsValid(split, q, path.trail, m);
        APlansAnswerKeepsItsPromise(ProductPlan(split, q), r, ProductPromise(split.components, split.branches, path.trail, m), q, path.narrowing, m, n - 1);
    }
  }

  lemma AFactHoldsUnderAnyTrail(a: Schema, b: Schema, r: Relation, trail: seq<Goal>, m: Meaning)
    requires IsAFact(r, a, b, m)
    ensures (r.Holds? ==> HoldsUnder(a, b, trail, m)) && (r.Fails? ==> FailsUnder(a, b, trail, m))
  {
    hide Member;
    if r.Holds? { IncludedHolds(a, b, trail, m); }
  }

  /** Under any trail, whatever a goal may be answered is what the goals lent entail. */
  lemma {:induction false} AnyGoalIsSound(a: Schema, b: Schema, r: Relation, q: Setting, path: Path, m: Meaning, n: nat)
    requires Reads(q, m) && GoalMayGive(a, b, r, q, path, m, n)
    ensures (r.Holds? ==> HoldsUnder(a, b, path.trail, m)) && (r.Fails? ==> FailsUnder(a, b, path.trail, m))
    decreases n, 3
  {
    hide Member, Truthful, HoldsUnder, FailsUnder, WitnessMayGive, Mismatched, RulesMayGive;
    if !r.Unknown? {
      if !r.Fails? && RulesMayGive(a, b, r, q, path, m, n) {
        AnyRulesAreSound(a, b, r, q, path, m, n);
      } else {
        AnyRulesAreSound(a, b, Relation.Fails, q, path, m, n);
        AnyWitnessIsReal(r, a, b, q, path.trail, m);
      }
    }
  }

  lemma {:induction false} AnyRulesAreSound(a: Schema, b: Schema, r: Relation, q: Setting, path: Path, m: Meaning, n: nat)
    requires Reads(q, m) && RulesMayGive(a, b, r, q, path, m, n)
    ensures (r.Holds? ==> HoldsUnder(a, b, path.trail, m)) && (r.Fails? ==> Mismatched(a, b, path.trail, m))
    decreases n, 2
  {
    hide Member, Truthful, HoldsUnder, FailsUnder, PlanMayGive, Decide, AtOnce, Valid, Mismatched, RegionSet, PlacedByMembership, HasValue, TrailTrue, Spills;
    if AtOnce(r, a, b, path.trail) {
      AnAnswerAtOnceIsSound(r, a, b, path.trail, m);
    } else if !r.Unknown? {
      var plan, to := Decide(a, b, q, path.trail == []), PromiseOf(a, b, path.trail, m);
      assert Path(to.trail, path.narrowing) == path;
      DecideIsValid(a, b, q, to.trail, m);
      APlansAnswerKeepsItsPromise(plan, r, to, q, path.narrowing, m, n);
    }
  }

  lemma AnAnswerAtOnceIsSound(r: Relation, a: Schema, b: Schema, trail: seq<Goal>, m: Meaning)
    requires AtOnce(r, a, b, trail)
    ensures (r.Holds? ==> HoldsUnder(a, b, trail, m)) && (r.Fails? ==> Mismatched(a, b, trail, m))
  {
    hide Member, HoldsUnder, RegionSet, PlacedByMembership;
    if r.Holds? && Goal(a, b) in trail {
      AnAssumedGoalHolds(a, b, trail, m);
    } else {
      if r.Holds? && PlacedByMembership(a, b) { forall v ensures Member(v, a, m) ==> Member(v, b, m) { APlacementHolds(a, b, v, m); } }
      if RegionSet(a).Known? && RegionSet(b).Known? {
        RegionsDecideInclusion(a, b, m);
        if !Included(a, b, m) { NotIncludedSpills(a, b, m); }
      }
      if r.Holds? { IncludedHolds(a, b, trail, m); }
    }
  }

  lemma AnyWitnessIsReal(r: Relation, a: Schema, b: Schema, q: Setting, trail: seq<Goal>, m: Meaning)
    requires Reads(q, m) && Mismatched(a, b, trail, m) && WitnessMayGive(r, a, q, m)
    ensures (r.Holds? ==> HoldsUnder(a, b, trail, m)) && (r.Fails? ==> FailsUnder(a, b, trail, m))
  {
    hide Member, Truthful, HoldsUnder, HoldsAValueShallowly, MissesAKind, TrailTrue, Spills;
    if HoldsAValueShallowly(a) {
      AShapeHoldsAValue(a, m);
    } else if a.Complement? && MissesAKind(a.inner, q) {
      AMissedKindIsComplemented(a.inner, q, m);
    } else if !a.Union? {
      if !HasValue(a, m) { IncludedHolds(a, b, trail, m); }
    }
  }

  /** With nothing assumed, whatever a goal may be answered is a fact. */
  lemma {:induction false} AnswersWithNothingAssumedAreFacts(a: Schema, b: Schema, r: Relation, q: Setting, narrowing: bool, m: Meaning, n: nat)
    requires Reads(q, m) && GoalMayGive(a, b, r, q, Path([], narrowing), m, n)
    ensures IsAFact(r, a, b, m)
    decreases n, 4
  {
    hide Member, Truthful, HoldsUnder, GoalMayGive;
    AnyGoalIsSound(a, b, r, q, Path([], narrowing), m, n);
    if r.Holds? { HoldsOutright(a, b, [], m); }
  }

  // ---- The recursion is one such run.

  lemma {:induction false} ARunIsOne(p: Plan, q: Setting, path: Path, depth: nat, steps: nat, m: Meaning, n: nat)
    requires Reads(q, m) && n > steps
    ensures PlanMayGive(p, Run(p, q, path, depth, steps).answer, q, path, m, n)
    decreases steps, 1, p
  {
    hide IsSubtypeRec, NarrowedRun, ProductRun, EmptyAndRegion, QuestionMayGive, GoalMayGive, HasValue, Truthful;
    if p.Answer? {
    } else if p.Spent? {
      ARunIsOne(if steps == 0 then p.yes else p.no, q, path, depth, steps, m, n);
    } else if p.Empties? {
      var first := EmptyAndRegion(p.of, q, NOTHING_HELD, depth, steps);
      EmptinessIsRightAtTheRoot(p.of, q, depth, steps, m);
      assert IsRight(first.verdict, p.of, m);
      ARunIsOne(NextRead(p, first.verdict), q, path, depth, first.left, m, n);
    } else {
      var first := if p.Ask? then IsSubtypeRec(p.sub, p.sup, q, path, depth, steps)
                   else if p.Unfold? then IsSubtypeRec(p.defSub, p.defSup, q, path.(trail := path.trail + [Goal(p.sub, p.sup)]), depth, steps)
                   else if p.Narrowed? then NarrowedRun(p.sub, p.sup, q, path, depth, steps)
                   else ProductRun(p.split, p.deeper, q, path, depth, steps);
      AQuestionIsOne(p, q, path, depth, steps, first, m, n);
      ARunIsOne(Next(p, first.answer), q, path, depth, first.left, m, n);
    }
  }

  lemma {:induction false} AQuestionIsOne(p: Plan, q: Setting, path: Path, depth: nat, steps: nat, first: Ran, m: Meaning, n: nat)
    requires p.Ask? || p.Unfold? || p.Narrowed? || p.Product?
    requires Reads(q, m) && n > steps
    requires first == if p.Ask? then IsSubtypeRec(p.sub, p.sup, q, path, depth, steps)
                      else if p.Unfold? then IsSubtypeRec(p.defSub, p.defSup, q, path.(trail := path.trail + [Goal(p.sub, p.sup)]), depth, steps)
                      else if p.Narrowed? then NarrowedRun(p.sub, p.sup, q, path, depth, steps)
                      else ProductRun(p.split, p.deeper, q, path, depth, steps)
    ensures QuestionMayGive(p, first.answer, q, path, m, n)
    decreases steps, 0, 3
  {
    hide IsSubtypeRec, Run, EmptyAndRegion, GoalMayGive, PlanMayGive, ProductPlan, Truthful, IsAFact;
    match p
    case Ask(a, b, _, _, _) => AGoalIsOne(a, b, q, path, depth, steps, m, n - 1);
    case Unfold(a, b, c, d, _, _, _) => AGoalIsOne(c, d, q, path.(trail := path.trail + [Goal(a, b)]), depth, steps, m, n - 1);
    case Narrowed(a, b, _, _, _) =>
      if path.narrowing {
        AGoalIsOne(a, b, q, path, depth, steps, m, n - 1);
      } else {
        AGoalIsOne(a, b, q, Path([], true), 0, Least(steps, q.respelling), m, n - 1);
      }
    case Product(split, deeper, _, _, _) =>
      if !((deeper && depth >= q.maxDepth) || steps == 0) {
        ARunIsOne(ProductPlan(split, q), q, path, if deeper then depth + 1 else depth, steps - 1, m, n - 1);
      }
  }

  /** The goal recursion answers as one of these runs, at any budget and depth. */
  lemma {:induction false} AGoalIsOne(a: Schema, b: Schema, q: Setting, path: Path, depth: nat, steps: nat, m: Meaning, n: nat)
    requires Reads(q, m) && n >= steps
    ensures GoalMayGive(a, b, IsSubtypeRec(a, b, q, path, depth, steps).answer, q, path, m, n)
    decreases steps, 0, 2
  {
    hide IsSubtypeRec, ByRules, RulesMayGive, Truthful, WitnessMayGive, WitnessRun;
    AGoalIs(a, b, q, path, depth, steps);
    var ruled := ByRules(a, b, q, path, depth, steps);
    if ruled.answer.Fails? { AWitnessIsOne(a, q, path, depth, ruled.left, m); }
    TheRulesAreOne(a, b, q, path, depth, steps, m, n);
  }

  lemma {:induction false} TheRulesAreOne(a: Schema, b: Schema, q: Setting, path: Path, depth: nat, steps: nat, m: Meaning, n: nat)
    requires Reads(q, m) && n >= steps
    ensures RulesMayGive(a, b, ByRules(a, b, q, path, depth, steps).answer, q, path, m, n)
    decreases steps, 0, 1
  {
    hide Run, PlanMayGive, Decide, RegionSet, PlacedByMembership, Truthful;
    if steps > 0 { ARunIsOne(Decide(a, b, q, path.trail == []), q, path, depth + 1, steps - 1, m, n); }
  }

  lemma AWitnessIsOne(a: Schema, q: Setting, path: Path, depth: nat, steps: nat, m: Meaning)
    requires Reads(q, m)
    ensures WitnessMayGive(WitnessRun(a, q, path, depth, steps).answer, a, q, m)
  {
    hide EmptyAndRegion, HoldsAValueShallowly, MissesAKind, HasValue, Truthful;
    EmptinessIsRightAtTheRoot(a, q, depth, steps, m);
    assert IsRight(EmptyAndRegion(a, q, NOTHING_HELD, depth, steps).verdict, a, m);
  }
}
