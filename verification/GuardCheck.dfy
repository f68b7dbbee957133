/** The check a recursive definition is accepted on, and what it accepts: exactly
    the tables a rank makes contractive. */
module GuardCheck {
  import opened Schemas
  import opened Values

  /** The path so far has passed inside a container, or it has not. */
  datatype Guarded = No | Yes

  /** A structural constructor guards what it holds; a connective does not. */
  function GuardsChildren(s: Schema): Guarded {
    if s.Seq? || s.Coll? then Yes else No
  }

  /** The join, in which a guard crossed absorbs. */
  function Joined(a: Guarded, b: Guarded): Guarded {
    if a.No? && b.No? then No else Yes
  }

  function Children(s: Schema): (r: seq<Schema>)
    ensures SizeOfAll(r) < Size(s)
  {
    match s
    case Seq(_, prefix, tail) =>
      var last := if tail.Some? then [tail.value] else [];
      assert SizeOfAll(last) == if tail.Some? then Size(tail.value) else 0 by { assert last != [] ==> last[1..] == []; }
      SizesAdd(prefix, last);
      prefix + last
    case Coll(_, element) => Alone(element)
    case Union(ms) => ms
    case Intersection(ms) => ms
    case Complement(t) => Alone(t)
    case Refine(base, _) => Alone(base)
    case _ => []
  }

  function Alone(s: Schema): (r: seq<Schema>)
    ensures SizeOfAll(r) == Size(s)
  {
    assert [s][1..] == [];
    [s]
  }

  // ---- The references met unguarded.

  /** The references a term exposes above every sequence and set. */
  ghost function Exposes(s: Schema): set<nat>
    decreases Size(s), 1
  {
    if s.Ref? then {s.definition}
    else if GuardsChildren(s).Yes? then {}
    else ExposesAny(Children(s))
  }

  ghost function ExposesAny(ms: seq<Schema>): (r: set<nat>)
    ensures forall i :: i in r <==> exists t :: t in ms && i in Exposes(t)
    decreases SizeOfAll(ms), 2, |ms|
  {
    if ms == [] then {}
    else
      assert forall t :: t in ms <==> t == ms[0] || t in ms[1..];
      Exposes(ms[0]) + ExposesAny(ms[1..])
  }

  /** A walk from definition to definition, each exposing the next. */
  ghost predicate Walk(p: seq<nat>, defs: seq<Schema>) {
    p != [] && forall k :: 0 <= k < |p| - 1 ==> p[k] < |defs| && p[k + 1] in Exposes(defs[p[k]])
  }

  ghost predicate Reaches(from: set<nat>, target: nat, defs: seq<Schema>) {
    exists p: seq<nat> :: Walk(p, defs) && p[0] in from && p[|p| - 1] == target
  }

  /** What the walk has ruled out: each reference is entered or past the table, and
      none is the target. */
  ghost predicate RuledOut(refs: set<nat>, entered: seq<nat>, target: nat, defs: seq<Schema>) {
    forall i <- refs :: i != target && (i < |defs| ==> i in entered)
  }

  ghost predicate Closed(more: seq<nat>, before: seq<nat>, entered: seq<nat>, target: nat, defs: seq<Schema>) {
    forall d <- more :: d in before || (d < |defs| && RuledOut(Exposes(defs[d]), entered, target, defs))
  }

  ghost function Unentered(entered: seq<nat>, defs: seq<Schema>): set<nat> {
    set i: nat | i < |defs| && i !in entered
  }

  /** Whether the target occurs with no constructor above it, following the
      definitions, each entered once. */
  method OccursUnguarded(s: Schema, target: nat, guarded: Guarded, defs: seq<Schema>, entered: seq<nat>) returns (found: bool, after: seq<nat>)
    ensures entered <= after
    ensures guarded.Yes? ==> !found && after == entered
    ensures guarded.No? && found ==> Reaches(Exposes(s), target, defs)
    ensures guarded.No? && !found ==> RuledOut(Exposes(s), after, target, defs) && Closed(after, entered, after, target, defs)
    decreases |Unentered(entered, defs)|, Size(s), 1
  {
    after := entered;
    if s.Ref? {
      if guarded.Yes? { return false, after; }
      if s.definition == target {
        assert Walk([target], defs);
        return true, after;
      }
      if s.definition in entered || s.definition >= |defs| { return false, after; }
      var id := s.definition;
      FewerUnentered(entered, id, defs);
      found, after := OccursUnguarded(defs[id], target, No, defs, entered + [id]);
      if found { OneStepFurther(id, target, defs); }
      assert after[|entered|] == id;
      return;
    }
    var below := Joined(guarded, GuardsChildren(s));
    found, after := AnyOccursUnguarded(Children(s), target, below, defs, entered);
  }

  method AnyOccursUnguarded(ms: seq<Schema>, target: nat, guarded: Guarded, defs: seq<Schema>, entered: seq<nat>) returns (found: bool, after: seq<nat>)
    ensures entered <= after
    ensures guarded.Yes? ==> !found && after == entered
    ensures guarded.No? && found ==> Reaches(ExposesAny(ms), target, defs)
    ensures guarded.No? && !found ==> RuledOut(ExposesAny(ms), after, target, defs) && Closed(after, entered, after, target, defs)
    decreases |Unentered(entered, defs)|, SizeOfAll(ms), 2, |ms|
  {
    hide RuledOut, Closed, Reaches, Exposes, ExposesAny, Size, SizeOfAll;
    found, after := false, entered;
    NothingIsRuledOut(entered, target, defs);
    for i := 0 to |ms|
      invariant entered <= after
      invariant guarded.Yes? ==> after == entered
      invariant guarded.No? ==> RuledOut(ExposesAny(ms[..i]), after, target, defs) && Closed(after, entered, after, target, defs)
    {
      NoMoreUnentered(entered, after, defs);
      AMemberIsNoLarger(ms, i);
      ghost var before := after;
      found, after := OccursUnguarded(ms[i], target, guarded, defs, after);
      if found {
        AMemberExposes(ms, i);
        if guarded.No? { MoreReaches(Exposes(ms[i]), ExposesAny(ms), target, defs); }
        return;
      }
      if guarded.No? { OneMoreRuledOut(ms, i, entered, before, after, target, defs); }
    }
    assert ms[..|ms|] == ms;
  }

  // ---- What the walk keeps.

  lemma NothingIsRuledOut(entered: seq<nat>, target: nat, defs: seq<Schema>)
    ensures RuledOut(ExposesAny([]), entered, target, defs) && Closed(entered, entered, entered, target, defs)
  {
  }

  lemma AMemberExposes(ms: seq<Schema>, i: nat)
    requires i < |ms|
    ensures Exposes(ms[i]) <= ExposesAny(ms)
    ensures ExposesAny(ms[..i + 1]) == ExposesAny(ms[..i]) + Exposes(ms[i])
  {
    hide Exposes, ExposesAny;
    assert ms[i] in ms;
    assert ms[..i + 1] == ms[..i] + [ms[i]];
  }

  lemma OneMoreRuledOut(ms: seq<Schema>, i: nat, entered: seq<nat>, before: seq<nat>, after: seq<nat>, target: nat, defs: seq<Schema>)
    requires i < |ms| && entered <= before <= after
    requires RuledOut(ExposesAny(ms[..i]), before, target, defs) && Closed(before, entered, before, target, defs)
    requires RuledOut(Exposes(ms[i]), after, target, defs) && Closed(after, before, after, target, defs)
    ensures RuledOut(ExposesAny(ms[..i + 1]), after, target, defs) && Closed(after, entered, after, target, defs)
  {
    hide Exposes, ExposesAny;
    AMemberExposes(ms, i);
    assert forall d <- before :: d in after;
  }

  lemma FewerUnentered(entered: seq<nat>, id: nat, defs: seq<Schema>)
    requires id < |defs| && id !in entered
    ensures |Unentered(entered + [id], defs)| < |Unentered(entered, defs)|
  {
    assert id in Unentered(entered, defs);
    assert Unentered(entered + [id], defs) == Unentered(entered, defs) - {id};
  }

  lemma NoMoreUnentered(entered: seq<nat>, after: seq<nat>, defs: seq<Schema>)
    requires entered <= after
    ensures |Unentered(after, defs)| <= |Unentered(entered, defs)|
  {
    forall i | i in entered ensures i in after {
      var k :| 0 <= k < |entered| && entered[k] == i;
      assert after[k] == i;
    }
    Fewer(Unentered(after, defs), Unentered(entered, defs));
  }

  lemma {:induction false} Fewer(a: set<nat>, b: set<nat>)
    requires a <= b
    ensures |a| <= |b|
    ensures a != b ==> |a| < |b|
  {
    if a != {} {
      var x :| x in a;
      Fewer(a - {x}, b - {x});
    }
  }

  lemma {:induction false} AMemberIsNoLarger(ms: seq<Schema>, i: nat)
    requires i < |ms|
    ensures Size(ms[i]) <= SizeOfAll(ms)
  {
    if i > 0 { AMemberIsNoLarger(ms[1..], i - 1); }
  }

  lemma OneStepFurther(id: nat, target: nat, defs: seq<Schema>)
    requires id < |defs| && Reaches(Exposes(defs[id]), target, defs)
    ensures Reaches({id}, target, defs)
  {
    var p :| Walk(p, defs) && p[0] in Exposes(defs[id]) && p[|p| - 1] == target;
    var longer := [id] + p;
    assert Walk(longer, defs) && longer[|longer| - 1] == target;
  }

  lemma MoreReaches(from: set<nat>, more: set<nat>, target: nat, defs: seq<Schema>)
    requires from <= more && Reaches(from, target, defs)
    ensures Reaches(more, target, defs)
  {
  }

  /** A walk from what is ruled out, through entered definitions that expose only
      what is ruled out, never meets the target. */
  lemma {:induction false} NeverMet(from: set<nat>, entered: seq<nat>, target: nat, defs: seq<Schema>, p: seq<nat>, k: nat)
    requires RuledOut(from, entered, target, defs) && Closed(entered, [], entered, target, defs)
    requires Walk(p, defs) && p[0] in from && k < |p|
    ensures p[k] != target && (p[k] < |defs| ==> p[k] in entered)
  {
    if k > 0 {
      NeverMet(from, entered, target, defs, p, k - 1);
      assert p[k] in Exposes(defs[p[k - 1]]);
    }
  }

  /** The check of one definition about itself, from nothing entered. */
  method OccursUnguardedUnder(s: Schema, target: nat, defs: seq<Schema>) returns (found: bool)
    ensures found <==> Reaches(Exposes(s), target, defs)
  {
    var after;
    found, after := OccursUnguarded(s, target, No, defs, []);
    if !found && Reaches(Exposes(s), target, defs) {
      var p :| Walk(p, defs) && p[0] in Exposes(s) && p[|p| - 1] == target;
      NeverMet(Exposes(s), after, target, defs, p, |p| - 1);
    }
  }

  // ---- A rank exists exactly where every definition passes.

  /** No definition reaches itself unguarded. */
  ghost predicate AllGuarded(defs: seq<Schema>) {
    forall i :: 0 <= i < |defs| ==> !Reaches(Exposes(defs[i]), i, defs)
  }

  ghost predicate Ranked(defs: seq<Schema>, rank: seq<nat>) {
    && |rank| == |defs|
    && forall i :: 0 <= i < |defs| ==> Exposed(defs[i], rank) <= rank[i]
  }

  /** What a term exposes is one past the greatest rank among its references. */
  lemma {:induction false} ExposedBounds(s: Schema, rank: seq<nat>, bound: nat)
    ensures Exposed(s, rank) <= bound <==> forall j <- Exposes(s) :: j < |rank| ==> rank[j] < bound
    decreases Size(s), 1
  {
    match s
    case Ref(_) =>
    case Union(ms) => ExposedByAnyBounds(ms, rank, bound);
    case Intersection(ms) => ExposedByAnyBounds(ms, rank, bound);
    case Complement(t) =>
      ExposedBounds(t, rank, bound);
      assert Alone(t) == [t] && t in [t];
    case Refine(base, _) =>
      ExposedBounds(base, rank, bound);
      assert Alone(base) == [base] && base in [base];
    case _ =>
  }

  lemma {:induction false} ExposedByAnyBounds(ms: seq<Schema>, rank: seq<nat>, bound: nat)
    ensures ExposedByAny(ms, rank) <= bound <==> forall j <- ExposesAny(ms) :: j < |rank| ==> rank[j] < bound
    decreases SizeOfAll(ms), 2, |ms|
  {
    if ms != [] {
      ExposedBounds(ms[0], rank, bound);
      ExposedByAnyBounds(ms[1..], rank, bound);
      assert ExposesAny(ms) == Exposes(ms[0]) + ExposesAny(ms[1..]);
    }
  }

  /** The definitions below one: those it reaches unguarded. */
  ghost function Below(i: nat, defs: seq<Schema>): set<nat>
    requires i < |defs|
  {
    set j: nat | j < |defs| && Reaches(Exposes(defs[i]), j, defs)
  }

  lemma AnExposedDefinitionIsBelow(i: nat, j: nat, defs: seq<Schema>)
    requires AllGuarded(defs) && i < |defs| && j < |defs| && j in Exposes(defs[i])
    ensures |Below(j, defs)| < |Below(i, defs)|
  {
    assert Walk([j], defs);
    forall k | k in Below(j, defs) ensures k in Below(i, defs) {
      OneStepFurther(j, k, defs);
      MoreReaches({j}, Exposes(defs[i]), k, defs);
    }
    assert j in Below(i, defs) && j !in Below(j, defs);
    Fewer(Below(j, defs), Below(i, defs));
  }

  lemma GuardedTablesHaveARank(defs: seq<Schema>) returns (rank: seq<nat>)
    requires AllGuarded(defs)
    ensures Ranked(defs, rank)
  {
    rank := seq(|defs|, i requires 0 <= i < |defs| => |Below(i, defs)|);
    forall i | 0 <= i < |defs| ensures Exposed(defs[i], rank) <= rank[i] {
      forall j | j in Exposes(defs[i]) && j < |rank| ensures rank[j] < rank[i] { AnExposedDefinitionIsBelow(i, j, defs); }
      ExposedBounds(defs[i], rank, rank[i]);
    }
  }

  /** Along a walk the rank falls. */
  lemma {:induction false} RanksFall(defs: seq<Schema>, rank: seq<nat>, i: nat, p: seq<nat>, k: nat)
    requires Ranked(defs, rank) && i < |defs| && Walk(p, defs) && p[0] in Exposes(defs[i]) && k < |p| && p[k] < |defs|
    ensures rank[p[k]] < rank[i]
  {
    if k == 0 {
      ExposedBounds(defs[i], rank, rank[i]);
    } else {
      RanksFall(defs, rank, i, p, k - 1);
      ExposedBounds(defs[p[k - 1]], rank, rank[p[k - 1]]);
    }
  }

  /** What the decision requires of a table is what the check accepts. */
  lemma GuardedTablesAreContractive(defs: seq<Schema>)
    ensures AllGuarded(defs) <==> exists rank :: Ranked(defs, rank)
    ensures forall m: Interpretation :: m.defs == defs ==> (Contractive(m) <==> Ranked(defs, m.rank))
  {
    if AllGuarded(defs) {
      var rank := GuardedTablesHaveARank(defs);
    }
    if rank :| Ranked(defs, rank) {
      forall i | 0 <= i < |defs| ensures !Reaches(Exposes(defs[i]), i, defs) {
        if p :| Walk(p, defs) && p[0] in Exposes(defs[i]) && p[|p| - 1] == i { RanksFall(defs, rank, i, p, |p| - 1); }
      }
    }
  }
}
