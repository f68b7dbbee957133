/** How much of a term stands above every sequence and set, a reference counted
    with what it unfolds to and a member list as the set it is. Unfolding a
    reference and distributing a union lower it, and no other step raises it. */
module Weights {
  import opened Schemas
  import opened Constructors
  import opened Values
  import opened Shapes
  import opened Narrowing

  ghost function Weight(s: Schema, m: Meaning): nat
    decreases Exposed(s, m.rank), s, 1
  {
    match s
    case Ref(i) => if i < |m.defs| then 1 + Weight(m.defs[i], m) else 1
    case Union(ms) => 1 + WeightOfAll(ms, m)
    case Intersection(ms) => 1 + WeightOfAll(ms, m)
    case Refine(t, _) => 1 + Weight(t, m)
    case _ => 1
  }

  /** The weights of the distinct members. */
  ghost function WeightOfAll(ms: seq<Schema>, m: Meaning): nat
    decreases ExposedByAny(ms, m.rank), ms, 0
  {
    if ms == [] then 0
    else (if ms[0] in ms[1..] then 0 else Weight(ms[0], m)) + WeightOfAll(ms[1..], m)
  }

  lemma {:induction false} WithoutAbsent(ms: seq<Schema>, x: Schema)
    requires x !in ms
    ensures Without(ms, x) == ms
  {
    if ms != [] { WithoutAbsent(ms[1..], x); }
  }

  lemma {:induction false} WithoutShrinks(ms: seq<Schema>, x: Schema)
    ensures |Without(ms, x)| <= |ms|
    ensures x in ms ==> |Without(ms, x)| < |ms|
  {
    if ms != [] { WithoutShrinks(ms[1..], x); }
  }

  /** Taking a member out takes its weight out. */
  lemma {:induction false} WeightWithout(ms: seq<Schema>, x: Schema, m: Meaning)
    requires x in ms
    ensures WeightOfAll(Without(ms, x), m) + Weight(x, m) == WeightOfAll(ms, m)
  {
    if ms[0] == x {
      if x in ms[1..] {
        WeightWithout(ms[1..], x, m);
      } else {
        WithoutAbsent(ms[1..], x);
      }
      assert Without(ms, x) == Without(ms[1..], x);
    } else {
      WeightWithout(ms[1..], x, m);
      var rest := Without(ms[1..], x);
      assert Without(ms, x) == [ms[0]] + rest;
      assert ([ms[0]] + rest)[1..] == rest;
    }
  }

  lemma {:induction false} WeightOfConcatenation(a: seq<Schema>, b: seq<Schema>, m: Meaning)
    ensures WeightOfAll(a + b, m) <= WeightOfAll(a, m) + WeightOfAll(b, m)
  {
    if a == [] {
      assert a + b == b;
    } else {
      assert (a + b)[1..] == a[1..] + b;
      WeightOfConcatenation(a[1..], b, m);
    }
  }

  lemma AMemberWeighsLess(ms: seq<Schema>, x: Schema, m: Meaning)
    requires x in ms
    ensures Weight(x, m) <= WeightOfAll(ms, m)
  {
    WeightWithout(ms, x, m);
  }

  /** A member list's weight is its set's. */
  lemma {:induction false} WeightOfSubset(a: seq<Schema>, b: seq<Schema>, m: Meaning)
    requires forall t <- a :: t in b
    ensures WeightOfAll(a, m) <= WeightOfAll(b, m)
    decreases |a|
  {
    if a != [] {
      WeightWithout(a, a[0], m);
      WeightWithout(b, a[0], m);
      WithoutShrinks(a, a[0]);
      WeightOfSubset(Without(a, a[0]), Without(b, a[0]), m);
    }
  }

  // ---- The constructors weigh no more than a node over their members.

  lemma {:induction false} JoinedHolds(ms: seq<Schema>, x: Schema)
    requires Joined(ms).Some? && x in ms
    ensures if x.Union? then forall t <- x.members :: t in Joined(ms).value else x.Nothing? || x in Joined(ms).value
  {
    if x != ms[0] { JoinedHolds(ms[1..], x); }
  }

  lemma {:induction false} MetHolds(ms: seq<Schema>, x: Schema)
    requires Met(ms).Some? && x in ms
    ensures if x.Intersection? then forall t <- x.members :: t in Met(ms).value else x.Anything? || x in Met(ms).value
  {
    if x != ms[0] { MetHolds(ms[1..], x); }
  }

  lemma {:induction false} JoinedWeighs(ms: seq<Schema>, m: Meaning)
    requires Joined(ms).Some?
    ensures WeightOfAll(Joined(ms).value, m) <= WeightOfAll(ms, m)
  {
    if ms != [] {
      JoinedWeighs(ms[1..], m);
      var rest := Joined(ms[1..]).value;
      if ms[0] in ms[1..] {
        JoinedHolds(ms[1..], ms[0]);
        WeightOfSubset(Joined(ms).value, rest, m);
      } else if ms[0].Union? {
        WeightOfConcatenation(ms[0].members, rest, m);
      } else if !ms[0].Nothing? {
        WeightOfConcatenation([ms[0]], rest, m);
      }
    }
  }

  lemma {:induction false} MetWeighs(ms: seq<Schema>, m: Meaning)
    requires Met(ms).Some?
    ensures WeightOfAll(Met(ms).value, m) <= WeightOfAll(ms, m)
  {
    if ms != [] {
      MetWeighs(ms[1..], m);
      var rest := Met(ms[1..]).value;
      if ms[0] in ms[1..] {
        MetHolds(ms[1..], ms[0]);
        WeightOfSubset(Met(ms).value, rest, m);
      } else if ms[0].Intersection? {
        WeightOfConcatenation(ms[0].members, rest, m);
      } else if !ms[0].Anything? {
        WeightOfConcatenation([ms[0]], rest, m);
      }
    }
  }

  lemma UnionWeighs(ms: seq<Schema>, gate: Gate, within: bool, m: Meaning)
    ensures Weight(UnionWithin(ms, gate, within), m) <= 1 + WeightOfAll(ms, m)
  {
    if Joined(ms).Some? {
      JoinedWeighs(ms, m);
      var members := CanonicalMembers(Joined(ms).value);
      WeightOfSubset(members, Joined(ms).value, m);
      if |members| == 1 { AMemberWeighsLess(members, members[0], m); }
    }
  }

  lemma MeetWeighs(ms: seq<Schema>, gate: Gate, within: bool, m: Meaning)
    ensures Weight(MeetWithin(ms, gate, within), m) <= 1 + WeightOfAll(ms, m)
  {
    if Met(ms).Some? {
      MetWeighs(ms, m);
      var members := CanonicalMembers(Met(ms).value);
      WeightOfSubset(members, Met(ms).value, m);
      if |members| == 1 { AMemberWeighsLess(members, members[0], m); }
    }
  }

  // ---- And narrowing weighs no more than the meet it narrows.

  lemma {:induction false} MappedWeighs(a: seq<Schema>, b: seq<Schema>, m: Meaning)
    requires |a| == |b|
    requires forall i, j :: 0 <= i < |a| && 0 <= j < |a| && a[i] == a[j] ==> b[i] == b[j]
    requires forall i :: 0 <= i < |a| ==> Weight(b[i], m) <= Weight(a[i], m)
    ensures WeightOfAll(b, m) <= WeightOfAll(a, m)
  {
    if a != [] {
      MappedWeighs(a[1..], b[1..], m);
      if a[0] in a[1..] {
        var k :| 0 <= k < |a[1..]| && a[1..][k] == a[0];
        assert a[k + 1] == a[0] && b[1..][k] == b[0];
      }
    }
  }

  lemma EqualMembersNarrowAlike(ms: seq<Schema>, i: nat, j: nat, gate: Gate)
    requires i < |ms| && j < |ms| && ms[i] == ms[j]
    ensures NarrowedMember(ms, i, gate) == NarrowedMember(ms, j, gate)
  {
    if ms[i].Union? { KeptAlike(ms[i].members, ms, i, j, gate); }
  }

  lemma {:induction false} KeptAlike(branches: seq<Schema>, ms: seq<Schema>, i: nat, j: nat, gate: Gate)
    requires i < |ms| && j < |ms| && ms[i] == ms[j]
    ensures KeptBranches(branches, ms, i, gate) == KeptBranches(branches, ms, j, gate)
  {
    if branches != [] {
      if SharesNothingBeside(branches[0], ms, i, gate) { SharesAlike(branches[0], ms, i, j, gate); }
      if SharesNothingBeside(branches[0], ms, j, gate) { SharesAlike(branches[0], ms, j, i, gate); }
      KeptAlike(branches[1..], ms, i, j, gate);
    }
  }

  /** What stands beside one of two equal members stands beside the other. */
  lemma SharesAlike(branch: Schema, ms: seq<Schema>, i: nat, j: nat, gate: Gate)
    requires i < |ms| && j < |ms| && ms[i] == ms[j] && SharesNothingBeside(branch, ms, i, gate)
    ensures SharesNothingBeside(branch, ms, j, gate)
  {
    forall t | StandsBeside(t, ms, i) ensures StandsBeside(t, ms, j) { BesideAlike(t, ms, i, j); }
    if branch.Complement? && HeldBeside(branch.inner, ms, i) && gate(Asked(true, true), branch.inner) {
      if branch.inner.Union? {
        var k :| 0 <= k < |ms| && k != i && (ms[k] == branch.inner || ms[k] in branch.inner.members);
        assert StandsBeside(ms[k], ms, i);
      }
      assert HeldBeside(branch.inner, ms, j);
    } else {
      var k :| 0 <= k < |ms| && k != i && Excludes(ms[k], branch) && gate(Asked(true, true), ms[k]);
      assert StandsBeside(ms[k], ms, i);
    }
  }

  lemma BesideAlike(t: Schema, ms: seq<Schema>, i: nat, j: nat)
    requires i < |ms| && j < |ms| && ms[i] == ms[j] && StandsBeside(t, ms, i)
    ensures StandsBeside(t, ms, j)
  {
    var k :| 0 <= k < |ms| && k != i && ms[k] == t;
    assert ms[if k == j then i else k] == t;
  }

  lemma NarrowedMeetWeighs(ms: seq<Schema>, gate: Gate, m: Meaning)
    requires NarrowedMeet(ms, gate).Some?
    ensures Weight(NarrowedMeet(ms, gate).value, m) <= 1 + WeightOfAll(ms, m)
  {
    var kept := NarrowedMembers(ms, gate);
    forall i, j | 0 <= i < |ms| && 0 <= j < |ms| && ms[i] == ms[j] ensures kept[i] == kept[j] {
      EqualMembersNarrowAlike(ms, i, j, gate);
    }
    forall i | 0 <= i < |ms| ensures Weight(kept[i], m) <= Weight(ms[i], m) {
      if ms[i].Union? {
        var branches := KeptBranches(ms[i].members, ms, i, gate);
        UnionWeighs(branches, gate, true, m);
        WeightOfSubset(branches, ms[i].members, m);
      }
    }
    MappedWeighs(ms, kept, m);
    MeetWeighs(kept, gate, true, m);
  }
}
