/** The finitely many terms a question can reach: written in its own leaves and
    constraints, and no larger than it began, or the meet of terms that are. */
module Closure {
  import opened Verdicts
  import opened Schemas
  import opened SortedLists
  import opened Constructors
  import opened Oracles
  import opened Shapes
  import opened Bounds
  import opened Narrowing

  /** What terms are written in. */
  datatype Letters = Letters(leaves: set<Schema>, constraints: set<Constraint>, longest: nat)

  type Alphabet = a: Letters |
    Anything in a.leaves && Nothing in a.leaves && |a.constraints| <= a.longest
    witness Letters({Anything, Nothing}, {}, 0)

  /** An alphabet, and the largest term written in it. */
  datatype Space = Space(alphabet: Alphabet, most: nat)

  predicate Within(s: Schema, a: Alphabet)
    decreases s
  {
    match s
    case Seq(_, prefix, tail) => (forall i | 0 <= i < |prefix| :: Within(prefix[i], a)) && (tail.Some? ==> Within(tail.value, a))
    case Coll(_, t) => Within(t, a)
    case Union(ms) => forall i | 0 <= i < |ms| :: Within(ms[i], a)
    case Intersection(ms) => forall i | 0 <= i < |ms| :: Within(ms[i], a)
    case Complement(t) => Within(t, a)
    case Refine(t, cs) => Within(t, a) && |cs| <= a.longest && forall c <- cs :: c in a.constraints
    case _ => s in a.leaves
  }

  predicate AllWithin(ms: seq<Schema>, a: Alphabet) { forall t <- ms :: Within(t, a) }

  predicate Small(s: Schema, p: Space) { Within(s, p.alphabet) && Size(s) <= p.most }

  /** Small, or the meet of small terms. */
  predicate Reached(s: Schema, p: Space) {
    Small(s, p) || (s.Intersection? && forall t <- s.members :: Small(t, p))
  }

  // ---- There are finitely many.

  ghost function Lists<T(!new)>(xs: set<T>, n: nat): set<seq<T>> {
    if n == 0 then {[]}
    else {[]} + set x, l | x in xs && l in Lists(xs, n - 1) :: [x] + l
  }

  lemma {:induction false} AListIsListed<T(!new)>(l: seq<T>, xs: set<T>, n: nat)
    requires |l| <= n && forall x <- l :: x in xs
    ensures l in Lists(xs, n)
  {
    if l != [] {
      AListIsListed(l[1..], xs, n - 1);
      assert l == [l[0]] + l[1..];
    }
  }

  /** A sorted list is no longer than a set that holds its elements. */
  lemma {:induction false} SortedIsShort<T(!new)>(l: seq<T>, xs: set<T>, less: (T, T) -> bool)
    requires StrictOrder(less) && Sorted(l, less) && forall x <- l :: x in xs
    ensures |l| <= |xs|
  {
    if l != [] {
      forall x | x in l[1..] ensures x in xs - {l[0]} {
        var i :| 0 <= i < |l[1..]| && l[1..][i] == x;
        assert less(l[0], l[i + 1]);
      }
      SortedIsShort(l[1..], xs - {l[0]}, less);
    }
  }

  /** The terms one constructor builds of the terms, lists and constraints given. */
  ghost function Around(terms: set<Schema>, lists: set<seq<Schema>>, bounds: set<seq<Constraint>>): set<Schema> {
    (set k: SeqKind, l | l in lists :: Seq(k, l, None))
    + (set k: SeqKind, l, t | l in lists && t in terms :: Seq(k, l, Some(t)))
    + (set k: CollKind, t | t in terms :: Coll(k, t))
    + (set l | l in lists :: Union(l))
    + (set l | l in lists :: Intersection(l))
    + (set t | t in terms :: Complement(t))
    + (set t, cs | t in terms && cs in bounds :: Refine(t, cs))
  }

  lemma AConstructorIsAround(s: Schema, terms: set<Schema>, lists: set<seq<Schema>>, bounds: set<seq<Constraint>>)
    requires match s
      case Seq(_, l, tail) => l in lists && (tail.Some? ==> tail.value in terms)
      case Coll(_, t) => t in terms
      case Union(l) => l in lists
      case Intersection(l) => l in lists
      case Complement(t) => t in terms
      case Refine(t, cs) => t in terms && cs in bounds
      case _ => false
    ensures s in Around(terms, lists, bounds)
  {
    if s.Seq? && s.tail.Some? { assert s == Seq(s.container, s.prefix, Some(s.tail.value)); }
  }

  ghost function Terms(a: Alphabet, n: nat): set<Schema> {
    if n == 0 then {}
    else a.leaves + Around(Terms(a, n - 1), Lists(Terms(a, n - 1), n), Lists(a.constraints, a.longest))
  }

  lemma {:induction false} ATermIsListed(s: Schema, a: Alphabet, n: nat)
    requires Within(s, a) && Size(s) <= n
    ensures s in Terms(a, n)
    decreases s, 1
  {
    hide Lists, Around;
    match s {
    case Seq(_, prefix, tail) =>
      MembersAreListed(prefix, a, n);
      if tail.Some? { ATermIsListed(tail.value, a, n - 1); }
    case Coll(_, t) => ATermIsListed(t, a, n - 1);
    case Union(ms) => MembersAreListed(ms, a, n);
    case Intersection(ms) => MembersAreListed(ms, a, n);
    case Complement(t) => ATermIsListed(t, a, n - 1);
    case Refine(t, cs) =>
      ATermIsListed(t, a, n - 1);
      AListIsListed(cs, a.constraints, a.longest);
    case _ =>
    }
    assert Terms(a, n) == a.leaves + Around(Terms(a, n - 1), Lists(Terms(a, n - 1), n), Lists(a.constraints, a.longest));
    if s !in a.leaves { AConstructorIsAround(s, Terms(a, n - 1), Lists(Terms(a, n - 1), n), Lists(a.constraints, a.longest)); }
  }

  lemma {:induction false} MembersAreListed(ms: seq<Schema>, a: Alphabet, n: nat)
    requires AllWithin(ms, a) && SizeOfAll(ms) < n
    ensures ms in Lists(Terms(a, n - 1), n)
    decreases ms, 0
  {
    hide Terms, Lists;
    forall i | 0 <= i < |ms| ensures ms[i] in Terms(a, n - 1) { ATermIsListed(ms[i], a, n - 1); }
    NoMoreThanItsSize(ms);
    AListIsListed(ms, Terms(a, n - 1), n);
  }

  lemma {:induction false} NoMoreThanItsSize(ms: seq<Schema>)
    ensures |ms| <= SizeOfAll(ms)
  {
    if ms != [] { NoMoreThanItsSize(ms[1..]); }
  }

  /** The sorted lists of small terms, and more. */
  ghost function Meets(p: Space): set<seq<Schema>> {
    Lists(Terms(p.alphabet, p.most), |Terms(p.alphabet, p.most)|)
  }

  lemma AMeetIsListed(ms: seq<Schema>, p: Space)
    requires Sorted(ms, Precedes) && forall t <- ms :: Small(t, p)
    ensures ms in Meets(p)
  {
    hide Terms;
    hide Lists;
    SchemasAreOrdered();
    forall t | t in ms ensures t in Terms(p.alphabet, p.most) { ATermIsListed(t, p.alphabet, p.most); }
    SortedIsShort(ms, Terms(p.alphabet, p.most), Precedes);
    AListIsListed(ms, Terms(p.alphabet, p.most), |Terms(p.alphabet, p.most)|);
  }

  // ---- The constructors stay within the alphabet, and grow by their node alone.

  lemma {:induction false} AMembersSize(ms: seq<Schema>, t: Schema)
    requires t in ms
    ensures Size(t) <= SizeOfAll(ms)
    ensures |ms| > 1 ==> Size(t) < SizeOfAll(ms)
  {
    if ms[0] != t { AMembersSize(ms[1..], t); }
    else if |ms| > 1 { NoMoreThanItsSize(ms[1..]); }
  }

  lemma {:induction false} CanonicalIsNoLarger(ms: seq<Schema>)
    ensures SizeOfAll(CanonicalMembers(ms)) <= SizeOfAll(ms)
  {
    if ms != [] {
      CanonicalIsNoLarger(ms[1..]);
      InsertedIsNoLarger(ms[0], CanonicalMembers(ms[1..]));
    }
  }

  lemma {:induction false} InsertedIsNoLarger(t: Schema, ms: seq<Schema>)
    ensures SizeOfAll(Insert(t, ms, Precedes)) <= Size(t) + SizeOfAll(ms)
  {
    hide Size, Precedes;
    assert [t][1..] == [];
    if ms != [] && t != ms[0] {
      InsertedIsNoLarger(t, ms[1..]);
      SizesAdd([t], ms);
      SizesAdd([ms[0]], Insert(t, ms[1..], Precedes));
      assert [ms[0]][1..] == [];
    }
  }

  lemma {:induction false} JoinedIsNoLarger(ms: seq<Schema>)
    requires Joined(ms).Some?
    ensures SizeOfAll(Joined(ms).value) <= SizeOfAll(ms)
  {
    if ms != [] {
      JoinedIsNoLarger(ms[1..]);
      SizesAdd(if ms[0].Union? then ms[0].members else [ms[0]], Joined(ms[1..]).value);
    }
  }

  lemma {:induction false} JoinedStays(ms: seq<Schema>, a: Alphabet)
    requires Joined(ms).Some? && AllWithin(ms, a)
    ensures AllWithin(Joined(ms).value, a)
  {
    if ms != [] {
      assert ms[0] in ms;
      JoinedStays(ms[1..], a);
    }
  }

  lemma {:induction false} MetIsNoLarger(ms: seq<Schema>)
    requires Met(ms).Some?
    ensures SizeOfAll(Met(ms).value) <= SizeOfAll(ms)
  {
    if ms != [] {
      MetIsNoLarger(ms[1..]);
      SizesAdd(if ms[0].Intersection? then ms[0].members else [ms[0]], Met(ms[1..]).value);
    }
  }

  lemma {:induction false} MetStays(ms: seq<Schema>, a: Alphabet)
    requires Met(ms).Some? && AllWithin(ms, a)
    ensures AllWithin(Met(ms).value, a)
  {
    if ms != [] {
      assert ms[0] in ms;
      MetStays(ms[1..], a);
    }
  }

  lemma AListIsWithin(ms: seq<Schema>, a: Alphabet)
    ensures Within(Union(ms), a) <==> AllWithin(ms, a)
    ensures Within(Intersection(ms), a) <==> AllWithin(ms, a)
    ensures Within(Anything, a) && Within(Nothing, a)
  {
  }

  lemma UnionStays(ms: seq<Schema>, gate: Gate, within: bool, a: Alphabet)
    ensures Size(UnionWithin(ms, gate, within)) <= 1 + SizeOfAll(ms)
    ensures AllWithin(ms, a) ==> Within(UnionWithin(ms, gate, within), a)
  {
    hide HasComplementaryPair, Within, Joined;
    AListIsWithin([], a);
    if Joined(ms).Some? {
      AListIsWithin(CanonicalMembers(Joined(ms).value), a);
      JoinedIsNoLarger(ms);
      if AllWithin(ms, a) { JoinedStays(ms, a); }
      var flat := Joined(ms).value;
      CanonicalIsNoLarger(flat);
      if |CanonicalMembers(flat)| == 1 { AMembersSize(CanonicalMembers(flat), CanonicalMembers(flat)[0]); }
    }
  }

  lemma MeetStays(ms: seq<Schema>, gate: Gate, within: bool, a: Alphabet)
    ensures Size(MeetWithin(ms, gate, within)) <= 1 + SizeOfAll(ms)
    ensures AllWithin(ms, a) ==> Within(MeetWithin(ms, gate, within), a)
  {
    hide HasComplementaryPair, Within, Met;
    AListIsWithin([], a);
    if Met(ms).Some? {
      AListIsWithin(CanonicalMembers(Met(ms).value), a);
      MetIsNoLarger(ms);
      if AllWithin(ms, a) { MetStays(ms, a); }
      var flat := Met(ms).value;
      CanonicalIsNoLarger(flat);
      if |CanonicalMembers(flat)| == 1 { AMembersSize(CanonicalMembers(flat), CanonicalMembers(flat)[0]); }
    }
  }

  /** The members of a meet of reached terms are small, and in order. */
  lemma AMeetIsReached(ms: seq<Schema>, gate: Gate, within: bool, p: Space)
    requires p.most > 0 && forall t <- ms :: Reached(t, p)
    ensures Reached(MeetWithin(ms, gate, within), p)
    ensures Small(MeetWithin(ms, gate, within), p) || Sorted(MeetWithin(ms, gate, within).members, Precedes)
  {
    hide HasComplementaryPair;
    if Met(ms).Some? {
      MetAreSmall(ms, p);
      SchemasAreOrdered();
      CanonicalIsSorted(Met(ms).value, Precedes);
    }
  }

  lemma {:induction false} MetAreSmall(ms: seq<Schema>, p: Space)
    requires Met(ms).Some? && forall t <- ms :: Reached(t, p)
    ensures forall t <- Met(ms).value :: Small(t, p)
  {
    if ms != [] {
      MetAreSmall(ms[1..], p);
      assert ms[0] in ms;
      if ms[0].Intersection? && Small(ms[0], p) {
        forall t | t in ms[0].members ensures Small(t, p) { AMembersSize(ms[0].members, t); }
      }
    }
  }

  lemma AComplementIsNoLarger(s: Schema, a: Alphabet)
    ensures Size(Complemented(s)) <= 1 + Size(s)
    ensures Within(s, a) ==> Within(Complemented(s), a)
  {
  }

  // ---- Refinements gathered stay written in the alphabet.

  lemma ARefinementStays(base: Schema, cs: seq<Constraint>, a: Alphabet)
    requires Within(base, a) && forall c <- cs :: c in a.constraints
    ensures Within(Refined(base, cs), a)
    ensures Size(Refined(base, cs)) <= if base.Refine? then Size(base) else 1 + Size(base)
  {
    var all := if base.Refine? then cs + base.constraints else cs;
    var held := Canonical(all, ConstraintPrecedes);
    ConstraintsAreOrdered();
    CanonicalIsSorted(all, ConstraintPrecedes);
    SortedIsShort(held, a.constraints, ConstraintPrecedes);
  }

  // ---- What a narrowed meet and a merged split leave is smaller.

  lemma {:induction false} WithoutIsSmaller(ms: seq<Schema>, t: Schema)
    ensures SizeOfAll(Without(ms, t)) + (if t in ms then Size(t) else 0) <= SizeOfAll(ms)
  {
    if ms != [] {
      WithoutIsSmaller(ms[1..], t);
      var rest := Without(ms[1..], t);
      assert t in ms <==> ms[0] == t || t in ms[1..];
      if ms[0] == t { assert Without(ms, t) == rest; } else { assert ([ms[0]] + rest)[1..] == rest; }
    }
  }

  lemma {:induction false} KeptAreNoMore(branches: seq<Schema>, ms: seq<Schema>, at: nat, gate: Gate)
    ensures SizeOfAll(KeptBranches(branches, ms, at, gate)) <= SizeOfAll(branches)
  {
    hide SharesNothingBeside;
    if branches != [] {
      KeptAreNoMore(branches[1..], ms, at, gate);
      SizesAdd(if SharesNothingBeside(branches[0], ms, at, gate) then [] else [branches[0]], KeptBranches(branches[1..], ms, at, gate));
    }
  }

  lemma {:induction false} OneFewerIsKept(branches: seq<Schema>, b: Schema, ms: seq<Schema>, at: nat, gate: Gate)
    requires b in branches && SharesNothingBeside(b, ms, at, gate)
    ensures SizeOfAll(KeptBranches(branches, ms, at, gate)) < SizeOfAll(branches)
  {
    hide SharesNothingBeside;
    var rest := KeptBranches(branches[1..], ms, at, gate);
    if branches[0] == b {
      KeptAreNoMore(branches[1..], ms, at, gate);
      assert KeptBranches(branches, ms, at, gate) == rest;
    } else {
      OneFewerIsKept(branches[1..], b, ms, at, gate);
      SizesAdd(if SharesNothingBeside(branches[0], ms, at, gate) then [] else [branches[0]], rest);
    }
  }

  ghost predicate LosesABranch(ms: seq<Schema>, at: nat, gate: Gate)
    requires at < |ms|
  {
    ms[at].Union? && exists b <- ms[at].members :: SharesNothingBeside(b, ms, at, gate)
  }

  lemma ANarrowedMemberStays(ms: seq<Schema>, at: nat, gate: Gate, p: Space)
    requires at < |ms|
    ensures Size(NarrowedMember(ms, at, gate)) <= Size(ms[at])
    ensures Small(ms[at], p) ==> Small(NarrowedMember(ms, at, gate), p)
    ensures LosesABranch(ms, at, gate) ==> Size(NarrowedMember(ms, at, gate)) < Size(ms[at])
  {
    hide SharesNothingBeside, UnionWithin, KeptBranches;
    if ms[at].Union? {
      var kept := KeptBranches(ms[at].members, ms, at, gate);
      KeptAreNoMore(ms[at].members, ms, at, gate);
      if b :| b in ms[at].members && SharesNothingBeside(b, ms, at, gate) { OneFewerIsKept(ms[at].members, b, ms, at, gate); }
      UnionStays(kept, gate, true, p.alphabet);
    }
  }

  lemma {:induction false} SmallerSomewhere(kept: seq<Schema>, ms: seq<Schema>)
    requires |kept| == |ms| && forall i :: 0 <= i < |ms| ==> Size(kept[i]) <= Size(ms[i])
    ensures SizeOfAll(kept) <= SizeOfAll(ms)
    ensures (exists i :: 0 <= i < |ms| && Size(kept[i]) < Size(ms[i])) ==> SizeOfAll(kept) < SizeOfAll(ms)
  {
    if ms != [] {
      SmallerSomewhere(kept[1..], ms[1..]);
      if i :| 0 <= i < |ms| && Size(kept[i]) < Size(ms[i]) {
        if i > 0 { assert kept[1..][i - 1] == kept[i] && ms[1..][i - 1] == ms[i]; }
      }
    }
  }

  lemma ANarrowingLosesABranch(ms: seq<Schema>, gate: Gate) returns (at: nat)
    requires Narrows(ms, gate)
    ensures at < |ms| && LosesABranch(ms, at, gate)
  {
    hide SharesNothingBeside;
    at :| 0 <= at < |ms| && ms[at].Union? && exists b <- ms[at].members :: SharesNothingBeside(b, ms, at, gate);
  }

  lemma ANarrowedMeetIsSmaller(ms: seq<Schema>, gate: Gate, p: Space)
    requires NarrowedMeet(ms, gate).Some?
    ensures Size(NarrowedMeet(ms, gate).value) < Size(Intersection(ms))
  {
    hide SizeOfAll, NarrowedMembers, AllWithin;
    hide SharesNothingBeside, MeetWithin, NarrowedMember, Within, Narrows, LosesABranch;
    var kept := NarrowedMembers(ms, gate);
    forall i | 0 <= i < |ms|
      ensures Size(kept[i]) <= Size(ms[i])
      ensures LosesABranch(ms, i, gate) ==> Size(kept[i]) < Size(ms[i])
    {
      ANarrowedMemberStays(ms, i, gate, p);
    }
    var at := ANarrowingLosesABranch(ms, gate);
    SmallerSomewhere(kept, ms);
    MeetStays(kept, gate, true, p.alphabet);
  }

  lemma ANarrowedMeetIsReached(ms: seq<Schema>, gate: Gate, p: Space)
    requires NarrowedMeet(ms, gate).Some? && p.most > 0 && forall t <- ms :: Small(t, p)
    ensures Reached(NarrowedMeet(ms, gate).value, p)
    ensures Small(NarrowedMeet(ms, gate).value, p) || Sorted(NarrowedMeet(ms, gate).value.members, Precedes)
  {
    hide SharesNothingBeside, MeetWithin, NarrowedMember, Within, Narrows, Size;
    var kept := NarrowedMembers(ms, gate);
    forall i | 0 <= i < |ms| ensures Small(kept[i], p) {
      assert ms[i] in ms;
      ANarrowedMemberStays(ms, i, gate, p);
    }
    forall t | t in kept ensures Small(t, p) { var i :| 0 <= i < |kept| && kept[i] == t; }
    AMeetIsReached(kept, gate, true, p);
    NothingIsSmall(p);
  }

  lemma NothingIsSmall(p: Space)
    ensures p.most > 0 ==> Small(Nothing, p) && Small(Anything, p)
  {
  }

  lemma {:induction false} ConjunctsStay(s: Schema, a: Alphabet)
    ensures SizeOfAll(Conjuncts(s)) <= Size(s)
    ensures Within(s, a) ==> AllWithin(Conjuncts(s), a)
    decreases s, 1
  {
    if s.Intersection? {
      AllConjunctsStay(s.members, a);
    } else {
      assert [s][1..] == [];
    }
  }

  lemma {:induction false} AllConjunctsStay(ms: seq<Schema>, a: Alphabet)
    ensures SizeOfAll(ConjunctsOfAll(ms)) <= SizeOfAll(ms)
    ensures AllWithin(ms, a) ==> AllWithin(ConjunctsOfAll(ms), a)
    decreases ms, 0
  {
    if ms != [] {
      ConjunctsStay(ms[0], a);
      AllConjunctsStay(ms[1..], a);
      SizesAdd(Conjuncts(ms[0]), ConjunctsOfAll(ms[1..]));
      assert ms[0] in ms;
    }
  }

  /** Two branches merged are smaller than the two. */
  lemma MergingIsSmaller(ms: seq<Schema>, at: nat, paired: nat, complement: Schema, gate: Gate, a: Alphabet)
    requires at < |ms| && paired < |ms| && at != paired && ms[at].Intersection?
    requires complement in Conjuncts(ms[at]) && complement.Complement?
    ensures var merged := UnionWithin(OtherThan(ms, at, paired) + [MeetWithin(Without(Conjuncts(ms[at]), complement), gate, true)], gate, true);
      Size(merged) < Size(Union(ms)) && (AllWithin(ms, a) ==> Within(merged, a))
  {
    hide UnionWithin, MeetWithin, Conjuncts, Without, OtherThan, Within, SizeOfAll;
    var merged, rest := MeetWithin(Without(Conjuncts(ms[at]), complement), gate, true), OtherThan(ms, at, paired);
    AMergedMeetIsSmaller(ms[at], complement, gate, a);
    OtherThanTwo(ms, at, paired);
    OneTakenOut(rest, merged, []);
    assert rest + [merged] + [] == rest + [merged] && rest + [] == rest;
    UnionStays(rest + [merged], gate, true, a);
    if AllWithin(ms, a) {
      assert ms[at] in ms;
      assert AllWithin(rest + [merged], a);
    }
  }

  lemma AMergedMeetIsSmaller(s: Schema, complement: Schema, gate: Gate, a: Alphabet)
    requires complement in Conjuncts(s) && complement.Complement?
    ensures var merged := MeetWithin(Without(Conjuncts(s), complement), gate, true);
      Size(merged) <= Size(s) && (Within(s, a) ==> Within(merged, a))
  {
    hide MeetWithin, Conjuncts, Without, Within, SizeOfAll;
    var shared := Without(Conjuncts(s), complement);
    ConjunctsStay(s, a);
    WithoutIsSmaller(Conjuncts(s), complement);
    MeetStays(shared, gate, true, a);
    if Within(s, a) { assert AllWithin(shared, a); }
  }

  lemma OneTakenOut(low: seq<Schema>, t: Schema, high: seq<Schema>)
    ensures SizeOfAll(low + [t] + high) == SizeOfAll(low + high) + Size(t)
  {
    assert [t][1..] == [];
    SizesAdd(low + [t], high);
    SizesAdd(low, [t]);
    SizesAdd(low, high);
  }

  lemma InFive<T>(ms: seq<T>, low: nat, high: nat)
    requires low < high < |ms|
    ensures ms == ms[..low] + [ms[low]] + (ms[low + 1..high] + [ms[high]] + ms[high + 1..])
  {
  }

  lemma TwoTakenOut(a: seq<Schema>, s: Schema, b: seq<Schema>, t: Schema, c: seq<Schema>)
    ensures SizeOfAll(a + [s] + (b + [t] + c)) == SizeOfAll(a + b + c) + Size(s) + Size(t)
  {
    hide SizeOfAll, Size;
    OneTakenOut(a, s, b + [t] + c);
    OneTakenOut(a + b, t, c);
    assert a + (b + [t] + c) == a + b + [t] + c;
  }

  lemma OtherThanInOrder(ms: seq<Schema>, low: nat, high: nat)
    requires low < high < |ms|
    ensures SizeOfAll(OtherThanBoth(ms, low, high)) + Size(ms[low]) + Size(ms[high]) == SizeOfAll(ms)
  {
    hide SizeOfAll, Size;
    var a, b, c := ms[..low], ms[low + 1..high], ms[high + 1..];
    TwoTakenOut(a, ms[low], b, ms[high], c);
    assert ms == a + [ms[low]] + (b + [ms[high]] + c) by { InFive(ms, low, high); }
  }

  lemma OtherThanTwo(ms: seq<Schema>, at: nat, paired: nat)
    requires at < |ms| && paired < |ms| && at != paired
    ensures SizeOfAll(OtherThan(ms, at, paired)) + Size(ms[at]) + Size(ms[paired]) == SizeOfAll(ms)
  {
    hide SizeOfAll, Size, OtherThanBoth;
    if at < paired { OtherThanInOrder(ms, at, paired); } else { OtherThanInOrder(ms, paired, at); }
  }

  lemma {:induction false} ASplitIsSmaller(ms: seq<Schema>, at: nat, from: nat, gate: Gate, a: Alphabet)
    requires at < |ms| && ms[at].Intersection? && from <= |Conjuncts(ms[at])|
    ensures var r := SplitFrom(ms, at, Conjuncts(ms[at]), from, gate);
      r.Some? ==> Size(r.value) < Size(Union(ms)) && (AllWithin(ms, a) ==> Within(r.value, a))
    decreases |Conjuncts(ms[at])| - from
  {
    hide Splits, UnionWithin, MeetWithin, Without, OtherThan, PairedAt, ConjunctsOfAll, Conjuncts, Within, Size;
    var holding := Conjuncts(ms[at]);
    if from < |holding| {
      ASplitIsSmaller(ms, at, from + 1, gate, a);
      if holding[from].Complement? {
        var paired := PairedAt(ms, at, Without(holding, holding[from]), Conjuncts(holding[from].inner), 0);
        if paired.Some? { MergingIsSmaller(ms, at, paired.value, holding[from], gate, a); }
      }
    }
  }

  lemma {:induction false} AMergedSplitIsSmaller(ms: seq<Schema>, at: nat, gate: Gate, a: Alphabet)
    requires at <= |ms|
    ensures var r := MergedFrom(ms, at, gate); r.Some? ==> Size(r.value) < Size(Union(ms)) && (AllWithin(ms, a) ==> Within(r.value, a))
    decreases |ms| - at
  {
    hide SplitFrom, Within, Size, Conjuncts;
    if at < |ms| {
      if MayHoldASplit(ms[at]) { ASplitIsSmaller(ms, at, 0, gate, a); }
      AMergedSplitIsSmaller(ms, at + 1, gate, a);
    }
  }

  // ---- Some space holds the terms a question begins with.

  ghost function Written(s: Schema): Letters
    decreases s, 1
  {
    match s
    case Seq(_, prefix, tail) => if tail.Some? then Together(WrittenInAll(prefix), Written(tail.value)) else WrittenInAll(prefix)
    case Coll(_, t) => Written(t)
    case Union(ms) => WrittenInAll(ms)
    case Intersection(ms) => WrittenInAll(ms)
    case Complement(t) => Written(t)
    case Refine(t, cs) => Together(Written(t), Letters({}, set c | c in cs, |cs|))
    case _ => Letters({s}, {}, 0)
  }

  ghost function WrittenInAll(ms: seq<Schema>): Letters
    decreases ms, 0
  {
    if ms == [] then Letters({}, {}, 0) else Together(Written(ms[0]), WrittenInAll(ms[1..]))
  }

  ghost function Together(a: Letters, b: Letters): Letters {
    Letters(a.leaves + b.leaves, a.constraints + b.constraints, a.longest + b.longest)
  }

  ghost predicate Covers(a: Letters, b: Letters) { b.leaves <= a.leaves && b.constraints <= a.constraints && b.longest <= a.longest }

  lemma {:induction false} ATermIsWithin(s: Schema, a: Alphabet)
    requires Covers(a, Written(s))
    ensures Within(s, a)
    decreases s, 1
  {
    match s
    case Seq(_, prefix, tail) =>
      EachIsWithin(prefix, a);
      if tail.Some? { ATermIsWithin(tail.value, a); }
    case Coll(_, t) => ATermIsWithin(t, a);
    case Union(ms) => EachIsWithin(ms, a);
    case Intersection(ms) => EachIsWithin(ms, a);
    case Complement(t) => ATermIsWithin(t, a);
    case Refine(t, cs) => ATermIsWithin(t, a);
    case _ =>
  }

  lemma {:induction false} EachIsWithin(ms: seq<Schema>, a: Alphabet)
    requires Covers(a, WrittenInAll(ms))
    ensures forall i | 0 <= i < |ms| :: Within(ms[i], a)
    decreases ms, 0
  {
    hide Within, Written;
    if ms != [] {
      ATermIsWithin(ms[0], a);
      EachIsWithin(ms[1..], a);
      forall i | 0 <= i < |ms| ensures Within(ms[i], a) {
        if i > 0 { assert ms[i] == ms[1..][i - 1]; }
      }
    }
  }

  /** The space of the terms given. */
  ghost function SpaceOf(ms: seq<Schema>): (p: Space)
    ensures p.most > 0 && forall t <- ms :: Small(t, p)
  {
    var w := WrittenInAll(ms);
    var a: Alphabet := Letters(w.leaves + {Anything, Nothing}, w.constraints, w.longest + |w.constraints|);
    EachIsWithin(ms, a);
    Space(a, 1 + SizeOfAll(ms))
  }

  // ---- The definitions and the parts of a small term.

  ghost predicate SmallDefinitions(q: Setting, p: Space) { p.most > 0 && forall d <- q.defs :: Small(d, p) }

  lemma SmallMembers(s: Schema, t: Schema, p: Space)
    requires Small(s, p) && (s.Union? || s.Intersection?) && t in s.members
    ensures Small(t, p)
  {
    AMembersSize(s.members, t);
  }

  lemma ElementsAreSmall(s: Schema, p: Space)
    requires Small(s, p) && s.Seq?
    ensures forall t <- s.prefix :: Small(t, p)
    ensures s.tail.Some? ==> Small(s.tail.value, p)
  {
    forall t | t in s.prefix ensures Small(t, p) { AMembersSize(s.prefix, t); }
  }

  lemma OneOnTheList(s: Schema)
    ensures SizeOfAll([s]) == Size(s)
  {
    assert [s][1..] == [];
  }
}
