/** Narrowing a meet: a union among its members loses the branches that the other
    members leave nothing of. */
module Narrowing {
  import opened Verdicts
  import opened Schemas
  import opened Constructors
  import opened Values

  predicate StandsBeside(t: Schema, ms: seq<Schema>, at: nat) {
    exists i | 0 <= i < |ms| :: i != at && ms[i] == t
  }

  /** What `inner` denotes holds every value of the members other than the one
      at `at`. */
  predicate HeldBeside(inner: Schema, ms: seq<Schema>, at: nat) {
    if inner.Intersection? then forall part <- inner.members :: StandsBeside(part, ms, at)
    else if inner.Union? then exists i | 0 <= i < |ms| :: i != at && (ms[i] == inner || ms[i] in inner.members)
    else StandsBeside(inner, ms, at)
  }

  predicate Excludes(member: Schema, branch: Schema) {
    member.Complement? && (member.inner == branch || (member.inner.Union? && branch in member.inner.members))
  }

  /** A complement says `branch` shares no value with the members beside it. */
  predicate SharesNothingBeside(branch: Schema, ms: seq<Schema>, at: nat, gate: Gate) {
    || (branch.Complement? && HeldBeside(branch.inner, ms, at) && gate(Asked(true, true), branch.inner))
    || exists i | 0 <= i < |ms| :: i != at && Excludes(ms[i], branch) && gate(Asked(true, true), ms[i])
  }

  function KeptBranches(branches: seq<Schema>, ms: seq<Schema>, at: nat, gate: Gate): (r: seq<Schema>)
    ensures forall t <- r :: t in branches
    ensures forall t <- branches :: t in r || SharesNothingBeside(t, ms, at, gate)
  {
    if branches == [] then []
    else
      (if SharesNothingBeside(branches[0], ms, at, gate) then [] else [branches[0]])
      + KeptBranches(branches[1..], ms, at, gate)
  }

  function NarrowedMember(ms: seq<Schema>, at: nat, gate: Gate): Schema
    requires at < |ms|
  {
    if ms[at].Union? then UnionWithin(KeptBranches(ms[at].members, ms, at, gate), gate, true) else ms[at]
  }

  function NarrowedMembers(ms: seq<Schema>, gate: Gate): (r: seq<Schema>)
    ensures |r| == |ms| && forall i :: 0 <= i < |ms| ==> r[i] == NarrowedMember(ms, i, gate)
  {
    seq(|ms|, i requires 0 <= i < |ms| => NarrowedMember(ms, i, gate))
  }

  predicate Narrows(ms: seq<Schema>, gate: Gate) {
    exists at | 0 <= at < |ms| ::
      ms[at].Union? && exists b <- ms[at].members :: SharesNothingBeside(b, ms, at, gate)
  }

  /** The narrowed meet, or `None` where no branch is dropped. */
  function NarrowedMeet(ms: seq<Schema>, gate: Gate): Option<Schema> {
    if !Narrows(ms, gate) then None
    else
      var narrowed := MeetWithin(NarrowedMembers(ms, gate), gate, true);
      if narrowed.Intersection?
        && exists at | 0 <= at < |narrowed.members| ::
          SharesNothingBeside(narrowed.members[at], narrowed.members, at, gate)
      then Some(Nothing)
      else Some(narrowed)
  }

  ghost predicate InAllBut(v: Value, ms: seq<Schema>, at: nat, m: Meaning)
  {
    forall i :: 0 <= i < |ms| && i != at ==> Member(v, ms[i], m)
  }

  lemma SharingNothingIsSound(branch: Schema, ms: seq<Schema>, at: nat, gate: Gate, v: Value, m: Meaning)
    requires SharesNothingBeside(branch, ms, at, gate) && InAllBut(v, ms, at, m)
    ensures !Member(v, branch, m)
  {
    if branch.Complement? && HeldBeside(branch.inner, ms, at) {
      HeldBesideIsSound(branch.inner, ms, at, v, m);
    } else {
      var i :| 0 <= i < |ms| && i != at && Excludes(ms[i], branch);
      ExcludedIsOutside(ms[i], branch, v, m);
    }
  }

  lemma ExcludedIsOutside(member: Schema, branch: Schema, v: Value, m: Meaning)
    requires Excludes(member, branch)
    ensures Member(v, member, m) ==> !Member(v, branch, m)
  {
    hide Exposed;
    if member.inner.Union? && branch in member.inner.members {
      assert Member(v, branch, m) ==> Member(v, member.inner, m);
    }
  }

  lemma HeldBesideIsSound(inner: Schema, ms: seq<Schema>, at: nat, v: Value, m: Meaning)
    requires HeldBeside(inner, ms, at) && InAllBut(v, ms, at, m)
    ensures Member(v, inner, m)
  {
    if inner.Union? {
      var i :| 0 <= i < |ms| && i != at && (ms[i] == inner || ms[i] in inner.members);
      assert Member(v, ms[i], m);
    } else if inner.Intersection? {
      forall part | part in inner.members ensures Member(v, part, m) { assert StandsBeside(part, ms, at); }
    }
  }

  lemma NarrowedMemberDenotes(ms: seq<Schema>, at: nat, gate: Gate, v: Value, m: Meaning)
    requires at < |ms|
    ensures Member(v, NarrowedMember(ms, at, gate), m) ==> Member(v, ms[at], m)
    ensures InAllBut(v, ms, at, m) && Member(v, ms[at], m) ==> Member(v, NarrowedMember(ms, at, gate), m)
  {
    hide KeptBranches, Satisfied, Excludes, ElementAt;
    hide Exposed;
    hide UnionWithin;
    if ms[at].Union? {
      var kept := KeptBranches(ms[at].members, ms, at, gate);
      UnionDenotes(kept, gate, true, v, m);
      if InAllBut(v, ms, at, m) && Member(v, ms[at], m) {
        var t :| t in ms[at].members && Member(v, t, m);
        if t !in kept { SharingNothingIsSound(t, ms, at, gate, v, m); }
      }
    }
  }

  lemma InAllByIndex(v: Value, ms: seq<Schema>, m: Meaning)
    ensures InAll(v, ms, m) <==> forall i :: 0 <= i < |ms| ==> Member(v, ms[i], m)
  {
    assert forall t <- ms :: exists i :: 0 <= i < |ms| && ms[i] == t;
  }

  /** The narrowed meet is the same set. */
  lemma NarrowedMeetDenotes(ms: seq<Schema>, gate: Gate, v: Value, m: Meaning)
    requires NarrowedMeet(ms, gate).Some?
    ensures Member(v, NarrowedMeet(ms, gate).value, m) <==> InAll(v, ms, m)
  {
    hide Narrows, KeptBranches, CanonicalMembers, Satisfied, SharesNothingBeside, NarrowedMembers;
    hide InAll;
    hide MeetWithin;
    var kept := NarrowedMembers(ms, gate);
    forall at | 0 <= at < |ms|
      ensures Member(v, kept[at], m) ==> Member(v, ms[at], m)
      ensures InAllBut(v, ms, at, m) && Member(v, ms[at], m) ==> Member(v, kept[at], m)
    {
      NarrowedMemberDenotes(ms, at, gate, v, m);
    }
    InAllByIndex(v, ms, m);
    InAllByIndex(v, kept, m);
    MeetDenotes(kept, gate, true, v, m);
    var narrowed := MeetWithin(kept, gate, true);
    if NarrowedMeet(ms, gate) == Some(Nothing) && narrowed != Nothing && Member(v, narrowed, m) {
      var at :| 0 <= at < |narrowed.members| && SharesNothingBeside(narrowed.members[at], narrowed.members, at, gate);
      InAllByIndex(v, narrowed.members, m);
      SharingNothingIsSound(narrowed.members[at], narrowed.members, at, gate, v, m);
    }
  }

  lemma NarrowedMeetExposes(ms: seq<Schema>, gate: Gate, rank: seq<nat>, bound: nat)
    requires ExposeAtMost(ms, rank, bound) && NarrowedMeet(ms, gate).Some?
    ensures Exposed(NarrowedMeet(ms, gate).value, rank) <= bound
  {
    var kept := NarrowedMembers(ms, gate);
    forall at | 0 <= at < |ms| ensures Exposed(kept[at], rank) <= bound {
      assert ms[at] in ms;
      if ms[at].Union? {
        UnionExposes(KeptBranches(ms[at].members, ms, at, gate), gate, true, rank, bound);
      }
    }
    assert forall t <- kept :: exists i :: 0 <= i < |kept| && kept[i] == t;
    MeetExposes(kept, gate, true, rank, bound);
  }
}
