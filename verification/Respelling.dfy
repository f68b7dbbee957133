/** The other forms of a declined pair: equal sets, written as the laws of complement,
    union and meet allow. */
module Respelling {
  import opened Verdicts
  import opened Schemas
  import opened Constructors
  import opened Values
  import opened Oracles
  import opened KindWalk
  import opened Tables
  import opened Shapes
  import opened Emptiness
  import opened EmptinessRight
  import opened Rules
  import opened Decision
  import opened DecisionSound

  // ---- The members of a union, nested ones in their place.

  lemma {:induction false} FlatOfTwo(a: seq<Schema>, b: seq<Schema>)
    ensures FlatMembers(a + b) == FlatMembers(a) + FlatMembers(b)
  {
    if a == [] {
      assert a + b == b;
    } else {
      assert (a + b)[1..] == a[1..] + b;
      FlatOfTwo(a[1..], b);
    }
  }

  lemma OneMember(member: Schema)
    ensures FlatMembers([member]) == if member.Union? then FlatMembers(member.members) else [member]
    ensures SizeOfAll([member]) == Size(member)
    ensures member.Union? ==> SizeOfAll(member.members) < Size(member)
  {
    assert [member][1..] == [];
  }

  /** One member taken from either end of a list. */
  lemma TakenApart(rest: seq<Schema>, member: Schema)
    ensures multiset(FlatMembers(rest + [member])) == multiset(FlatMembers(rest)) + multiset(FlatMembers([member]))
    ensures multiset(FlatMembers([member] + rest)) == multiset(FlatMembers([member])) + multiset(FlatMembers(rest))
    ensures SizeOfAll(rest + [member]) == SizeOfAll([member] + rest) == SizeOfAll(rest) + Size(member)
  {
    FlatOfTwo(rest, [member]);
    FlatOfTwo([member], rest);
    SizesAdd(rest, [member]);
    SizesAdd([member], rest);
    OneMember(member);
  }

  /** A worklist: the nested unions met so far, and the members not looked at.
      Every member that is no union is yielded exactly once. */
  method FlatMembersOf(ms: seq<Schema>) returns (flat: seq<Schema>)
    ensures multiset(flat) == multiset(FlatMembers(ms))
  {
    hide FlatMembers;
    hide Size;
    hide SizeOfAll;
    flat := [];
    var nested: seq<Schema> := [];
    var top := 0;
    NothingIsFlat();
    assert ms[top..] == ms;
    while nested != [] || top < |ms|
      invariant 0 <= top <= |ms|
      invariant multiset(flat) + multiset(FlatMembers(nested)) + multiset(FlatMembers(ms[top..])) == multiset(FlatMembers(ms))
      decreases SizeOfAll(nested) + SizeOfAll(ms[top..])
    {
      var member;
      if nested != [] {
        member := nested[|nested| - 1];
        assert nested == nested[..|nested| - 1] + [member];
        nested := nested[..|nested| - 1];
        TakenApart(nested, member);
      } else {
        member := ms[top];
        assert ms[top..] == [member] + ms[top + 1..];
        TakenApart(ms[top + 1..], member);
        top := top + 1;
      }
      OneMember(member);
      if member.Union? {
        FlatOfTwo(nested, member.members);
        SizesAdd(nested, member.members);
        nested := nested + member.members;
      } else {
        flat := flat + [member];
      }
    }
    assert ms[top..] == [] && nested == [];
  }

  lemma NothingIsFlat()
    ensures FlatMembers([]) == []
  {
  }

  // ---- The complements moved across.

  /** The inner sets of the complements among the members, and the members left. */
  function Inners(ms: seq<Schema>, gate: Gate): seq<Schema> {
    if ms == [] then []
    else (if ms[0].Complement? && gate(Asked(true, true), ms[0].inner) then [ms[0].inner] else []) + Inners(ms[1..], gate)
  }

  function Others(ms: seq<Schema>, gate: Gate): seq<Schema> {
    if ms == [] then []
    else (if ms[0].Complement? && gate(Asked(true, true), ms[0].inner) then [] else [ms[0]]) + Others(ms[1..], gate)
  }

  lemma {:induction false} SplitMembers(ms: seq<Schema>, gate: Gate, v: Value, m: Meaning)
    ensures InAny(v, ms, m) <==> InAny(v, Others(ms, gate), m) || !InAll(v, Inners(ms, gate), m)
  {
    hide ExposedByAny;
    hide Exposed, ElementAt, Satisfied;
    hide Member;
    if ms != [] {
      InSplit(v, ms, m);
      SplitMembers(ms[1..], gate, v, m);
      AtEveryNode(v, m);
      if ms[0].Complement? && gate(Asked(true, true), ms[0].inner) {
        InConcatenation(v, [ms[0].inner], Inners(ms[1..], gate), m);
        assert ms[0].inner in [ms[0].inner];
      } else {
        InConcatenation(v, [ms[0]], Others(ms[1..], gate), m);
        assert ms[0] in [ms[0]];
      }
    }
  }

  /** `a` met with the inner sets, and the union of the members left: `a <= b or
      not c` is `a and c <= b`. */
  function Moved(a: Schema, b: Schema, gate: Gate): Goal
    requires b.Union?
  {
    var flat := FlatMembers(b.members);
    Goal(MeetWithin([a] + Inners(flat, gate), gate, true), UnionWithin(Others(flat, gate), gate, true))
  }

  /** The pair moved across is the pair, value by value. */
  lemma MovingChangesNothing(a: Schema, b: Schema, gate: Gate, v: Value, m: Meaning)
    requires b.Union?
    ensures Member(v, Moved(a, b, gate).sub, m) && !Member(v, Moved(a, b, gate).sup, m) <==> Member(v, a, m) && !Member(v, b, m)
  {
    hide Member;
    var flat := FlatMembers(b.members);
    MeetDenotes([a] + Inners(flat, gate), gate, true, v, m);
    UnionDenotes(Others(flat, gate), gate, true, v, m);
    SplitMembers(flat, gate, v, m);
    FlatMembersDenote(b.members, v, m);
    AtEveryNode(v, m);
    InConcatenation(v, [a], Inners(flat, gate), m);
    assert a in [a];
  }

  lemma MovingKeepsTheQuestion(a: Schema, b: Schema, gate: Gate, m: Meaning)
    requires b.Union?
    ensures var moved := Moved(a, b, gate);
      && (Included(moved.sub, moved.sup, m) <==> Included(a, b, m))
      && (Spills(moved.sub, moved.sup, m) <==> Spills(a, b, m))
  {
    hide Member;
    var moved := Moved(a, b, gate);
    forall v ensures Member(v, moved.sub, m) && !Member(v, moved.sup, m) <==> Member(v, a, m) && !Member(v, b, m) {
      MovingChangesNothing(a, b, gate, v, m);
    }
    if Included(moved.sub, moved.sup, m) {
      forall v ensures Member(v, a, m) ==> Member(v, b, m) { }
    }
    if Included(a, b, m) {
      forall v ensures Member(v, moved.sub, m) ==> Member(v, moved.sup, m) { }
    }
  }

  // ---- The spellings, each under the allowance given.

  /** Whether the rules read the meet of the two with no value. */
  function Emptied(a: Schema, b: Schema, q: Setting, steps: nat): Ran {
    var r := EmptyAndRegion(MeetWithin([a, b], q.gate, true), q, NOTHING_HELD, OUTSIDE, steps);
    Ran(Proven(r.verdict.Empty?), r.left, r.met, steps - r.left)
  }

  function Then(first: Ran, second: Ran): Ran {
    if first.answer.Unknown? then second.After(first.met, first.work) else first
  }

  lemma TheSecondIsThen(first: Ran, second: Ran)
    ensures Then(first, second) == if !first.answer.Unknown? then first
      else Ran(second.answer, second.left, first.met || second.met, first.work + second.work)
  {
  }

  /** A complement of a union pushed through it. */
  function PushedThrough(a: Schema, b: Schema, q: Setting, given: nat): Ran {
    if a.Complement? && a.inner.Union?
    then IsSubtypeRec(MeetWithin(ComplementedAll(a.inner.members), q.gate, true), b, q, ROOT, OUTSIDE, given)
    else Done(Relation.Unknown, given)
  }

  /** Against a table of constants, the meet with its complement. */
  function AgainstATable(a: Schema, b: Schema, q: Setting, given: nat): Ran {
    if FiniteSet(b).Some? then Emptied(a, Complemented(b), q, given) else Done(Relation.Unknown, given)
  }

  /** Against a union holding complements, the complements moved across, and then
      the difference itself. */
  function AgainstAUnion(a: Schema, b: Schema, q: Setting, given: nat): Ran
    requires b.Union?
  {
    if Inners(FlatMembers(b.members), q.gate) == [] then Done(Relation.Unknown, given)
    else
      var moved := Moved(a, b, q.gate);
      var first := IsSubtypeRec(moved.sub, moved.sup, q, ROOT, OUTSIDE, given);
      Then(first, Emptied(a, Complemented(b), q, first.left))
  }

  /** Against a complement, the meet with its inner set below nothing, the pair
      from its other side, and the meet read empty. */
  function AgainstAComplement(a: Schema, b: Schema, q: Setting, given: nat): Ran
    requires b.Complement?
  {
    var meet := IsSubtypeRec(MeetWithin([a, b.inner], q.gate, true), Nothing, q, ROOT, OUTSIDE, given);
    var other := Then(meet, IsSubtypeRec(b.inner, Complemented(a), q, ROOT, OUTSIDE, meet.left));
    Then(other, Emptied(a, b.inner, q, other.left))
  }

  /** A meet against a meet: refuted where the two together hold nothing and the
      subject holds a value. */
  function TwoMeetsTogether(a: Schema, b: Schema, q: Setting, given: nat): Ran {
    var together := Emptied(a, b, q, given);
    if !together.answer.Holds? then together
    else
      var held := EmptyAndRegion(a, q, NOTHING_HELD, OUTSIDE, together.left);
      Ran(if held.verdict.Inhabited? then Relation.Fails else Relation.Unknown, held.left, held.met, together.left - held.left)
        .After(together.met, together.work)
  }

  lemma TwoMeetsAre(a: Schema, b: Schema, q: Setting, given: nat)
    ensures var together := Emptied(a, b, q, given);
      var held := EmptyAndRegion(a, q, NOTHING_HELD, OUTSIDE, together.left);
      TwoMeetsTogether(a, b, q, given) ==
        if !together.answer.Holds? then together
        else Ran(if held.verdict.Inhabited? then Relation.Fails else Relation.Unknown,
                 held.left, together.met || held.met, together.work + (together.left - held.left))
  {
    hide EmptyAndRegion;
  }

  /** Each spelling in turn, under `given` steps of its own. */
  function Respelled(a: Schema, b: Schema, q: Setting, given: nat): Ran {
    if SpillsAKindInto(a, b, q) then Done(Relation.Fails, given)
    else
      var early := Then(PushedThrough(a, b, q, given), AgainstATable(a, b, q, given));
      if !early.answer.Unknown? || b.Nothing? then early
      else if b.Union? then Then(early, AgainstAUnion(a, b, q, given))
      else if b.Complement? then Then(early, AgainstAComplement(a, b, q, given))
      else if a.Intersection? && b.Intersection? then Then(early, TwoMeetsTogether(a, b, q, given))
      else early
  }

  // ---- And what each answers is the pair's.

  ghost predicate Answers(r: Ran, a: Schema, b: Schema, m: Meaning) {
    (r.answer.Holds? ==> Included(a, b, m)) && (r.answer.Fails? ==> Spills(a, b, m))
  }

  lemma AnEmptiedMeetIsApart(a: Schema, b: Schema, q: Setting, steps: nat, m: Meaning)
    requires Reads(q, m)
    ensures !Emptied(a, b, q, steps).answer.Fails?
    ensures Emptied(a, b, q, steps).answer.Holds? ==> forall v :: !(Member(v, a, m) && Member(v, b, m))
  {
    hide Member;
    hide Truthful;
    hide EmptyAndRegion;
    var meet := MeetWithin([a, b], q.gate, true);
    EmptinessIsRightAtTheRoot(meet, q, 0, steps, m);
    if Emptied(a, b, q, steps).answer.Holds? {
      forall v ensures !(Member(v, a, m) && Member(v, b, m)) {
        MeetDenotes([a, b], q.gate, true, v, m);
        InSplit(v, [a, b], m);
        assert [a, b][1..] == [b] && b in [b];
      }
    }
  }

  lemma AnEmptyDifferenceIncludes(a: Schema, b: Schema, q: Setting, steps: nat, m: Meaning)
    requires Reads(q, m)
    ensures Answers(Emptied(a, Complemented(b), q, steps), a, b, m)
  {
    hide Member;
    hide Emptied;
    hide Truthful;
    AnEmptiedMeetIsApart(a, Complemented(b), q, steps, m);
    if Emptied(a, Complemented(b), q, steps).answer.Holds? {
      forall v ensures Member(v, a, m) ==> Member(v, b, m) { ComplementedDenotes(b, v, m); }
    }
  }

  lemma PushingAnswers(a: Schema, b: Schema, q: Setting, given: nat, m: Meaning)
    requires Reads(q, m)
    ensures Answers(PushedThrough(a, b, q, given), a, b, m)
  {
    hide Member;
    hide IsSubtypeRec;
    hide Truthful;
    if a.Complement? && a.inner.Union? {
      var pushed := MeetWithin(ComplementedAll(a.inner.members), q.gate, true);
      forall v ensures Member(v, pushed, m) <==> Member(v, a, m) {
        MeetDenotes(ComplementedAll(a.inner.members), q.gate, true, v, m);
        ComplementedAllDenote(a.inner.members, v, m);
        AtEveryNode(v, m);
      }
      TheDecisionIsSound(pushed, b, q, false, 0, given, m);
    }
  }

  lemma AUnionAnswers(a: Schema, b: Schema, q: Setting, given: nat, m: Meaning)
    requires Reads(q, m) && b.Union?
    ensures Answers(AgainstAUnion(a, b, q, given), a, b, m)
  {
    hide Member;
    hide IsSubtypeRec;
    hide Emptied;
    hide Truthful;
    hide Moved;
    var moved := Moved(a, b, q.gate);
    var first := IsSubtypeRec(moved.sub, moved.sup, q, ROOT, OUTSIDE, given);
    TheDecisionIsSound(moved.sub, moved.sup, q, false, 0, given, m);
    MovingKeepsTheQuestion(a, b, q.gate, m);
    AnEmptyDifferenceIncludes(a, b, q, first.left, m);
  }

  lemma AComplementAnswers(a: Schema, b: Schema, q: Setting, given: nat, m: Meaning)
    requires Reads(q, m) && b.Complement?
    ensures Answers(AgainstAComplement(a, b, q, given), a, b, m)
  {
    hide Member;
    hide IsSubtypeRec;
    hide Emptied;
    hide Truthful;
    var meet := MeetWithin([a, b.inner], q.gate, true);
    forall v
      ensures Member(v, meet, m) <==> Member(v, a, m) && !Member(v, b, m)
      ensures Member(v, b.inner, m) <==> !Member(v, b, m)
      ensures Member(v, Complemented(a), m) <==> !Member(v, a, m)
      ensures !Member(v, Nothing, m)
    {
      MeetDenotes([a, b.inner], q.gate, true, v, m);
      InSplit(v, [a, b.inner], m);
      assert [a, b.inner][1..] == [b.inner] && b.inner in [b.inner];
      AtEveryNode(v, m);
      ComplementedDenotes(a, v, m);
    }
    var first := IsSubtypeRec(meet, Nothing, q, ROOT, OUTSIDE, given);
    var second := IsSubtypeRec(b.inner, Complemented(a), q, ROOT, OUTSIDE, first.left);
    TheDecisionIsSound(meet, Nothing, q, false, 0, given, m);
    TheDecisionIsSound(b.inner, Complemented(a), q, false, 0, first.left, m);
    AnEmptiedMeetIsApart(a, b.inner, q, Then(first, second).left, m);
  }

  lemma TwoMeetsAnswer(a: Schema, b: Schema, q: Setting, given: nat, m: Meaning)
    requires Reads(q, m)
    ensures Answers(TwoMeetsTogether(a, b, q, given), a, b, m)
  {
    hide Member;
    hide Emptied;
    hide Truthful;
    hide EmptyAndRegion;
    hide TwoMeetsTogether;
    TwoMeetsAre(a, b, q, given);
    var together := Emptied(a, b, q, given);
    AnEmptiedMeetIsApart(a, b, q, given, m);
    EmptinessIsRightAtTheRoot(a, q, 0, together.left, m);
    if together.answer.Holds? && HasValue(a, m) {
      var v :| Member(v, a, m);
      assert !Member(v, b, m);
    }
  }

  /** Every spelling answers the pair it respells. */
  lemma RespellingIsSound(a: Schema, b: Schema, q: Setting, given: nat, m: Meaning)
    requires Reads(q, m)
    ensures Answers(Respelled(a, b, q, given), a, b, m)
  {
    hide Member;
    hide Truthful;
    hide PushedThrough;
    hide AgainstATable;
    hide AgainstAUnion;
    hide AgainstAComplement;
    hide TwoMeetsTogether;
    hide SpillsAKindInto;
    hide Included;
    hide Spills;
    if SpillsAKindInto(a, b, q) {
      ASpilledKindRefutes(a, b, q, m);
    } else {
      PushingAnswers(a, b, q, given, m);
      ATableAnswers(a, b, q, given, m);
      if b.Union? { AUnionAnswers(a, b, q, given, m); }
      if b.Complement? { AComplementAnswers(a, b, q, given, m); }
      TwoMeetsAnswer(a, b, q, given, m);
    }
  }

  lemma ATableAnswers(a: Schema, b: Schema, q: Setting, given: nat, m: Meaning)
    requires Reads(q, m)
    ensures Answers(AgainstATable(a, b, q, given), a, b, m)
  {
    hide Member;
    hide Emptied;
    hide Truthful;
    AnEmptyDifferenceIncludes(a, b, q, given, m);
  }
}
