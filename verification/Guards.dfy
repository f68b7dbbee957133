/** Why the definitions must be contractive: with a definition that exposes
    itself, a goal is answered by its own hypothesis. */
module Guards {
  import opened Schemas
  import opened Constructors
  import opened Values
  import opened Oracles
  import opened Readings
  import opened Emptiness
  import opened Rules
  import opened Decision

  const ITSELF: Schema := Ref(0)

  /** `defs[0]` is the reference to itself. */
  const UNGUARDED: seq<Schema> := [ITSELF]

  const LOOSE: Setting := Setting(SILENT, UNGUARDED, (_: Asked, _: Schema) => false, 8, 0, 0)

  /** No rank makes it contractive. */
  lemma AnUnguardedDefinitionIsNotContractive(m: Interpretation)
    requires m.defs == UNGUARDED
    ensures !Contractive(m)
  {
    assert |m.rank| == |m.defs| ==> Exposed(m.defs[0], m.rank) == m.rank[0] + 1;
  }

  /** Asked above `str` and below `bytes`, it is answered `Holds` both times, so
      that two sets sharing no value would each hold the other: no proof under
      such definitions is one. */
  lemma AnUnguardedReferenceIsProvedBothWays(steps: nat)
    requires steps >= 2
    ensures IsSubtypeRec(Schema.Str, ITSELF, LOOSE, ROOT, OUTSIDE, steps).answer.Holds?
    ensures IsSubtypeRec(ITSELF, Schema.Bytes, LOOSE, ROOT, OUTSIDE, steps).answer.Holds?
  {
    hide IsSubtypeRec;
    TheGoalUnfolds(Schema.Str, ITSELF, steps);
    TheGoalUnfolds(ITSELF, Schema.Bytes, steps);
  }

  lemma AGoalMetAgainHolds(a: Schema, b: Schema, q: Setting, path: Path, depth: nat, steps: nat)
    requires a != b && steps > 0 && Goal(a, b) in path.trail && (RegionSet(a).Unknown? || RegionSet(b).Unknown?)
    ensures IsSubtypeRec(a, b, q, path, depth, steps).answer.Holds?
  {
    hide Decide;
    hide Run;
    hide WitnessRun;
  }

  lemma TheRulesUnfold(a: Schema, b: Schema)
    requires (a == Schema.Str && b == ITSELF) || (a == ITSELF && b == Schema.Bytes)
    ensures ByShape(a, b, LOOSE, true) == Unfold(a, b, a, b, HOLDS, FAILS, DECLINES)
    ensures Decide(a, b, LOOSE, true) == OrElse(ByShape(a, b, LOOSE, true), Bounded(a, b, LOOSE))
  {
    hide Bounded;
    assert LOOSE.defs[0] == ITSELF;
  }

  lemma TheGoalUnfolds(a: Schema, b: Schema, steps: nat)
    requires steps >= 2 && ((a == Schema.Str && b == ITSELF) || (a == ITSELF && b == Schema.Bytes))
    ensures IsSubtypeRec(a, b, LOOSE, ROOT, OUTSIDE, steps).answer.Holds?
  {
    hide Bounded;
    hide ByShape;
    hide Decide;
    hide WitnessRun;
    var within := Path(ROOT.trail + [Goal(a, b)], false);
    assert Goal(a, b) in within.trail;
    AGoalMetAgainHolds(a, b, LOOSE, within, 1, steps - 1);
    TheRulesUnfold(a, b);
    var p := Decide(a, b, LOOSE, true);
    assert p.Unfold? && p.holds == HOLDS;
    assert Run(p, LOOSE, ROOT, ONE_IN, steps - 1).answer.Holds?;
    assert ByRules(a, b, LOOSE, ROOT, OUTSIDE, steps).answer.Holds?;
  }
}
