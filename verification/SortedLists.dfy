/** Sorting and deduplicating a list that stands for a set. */
module SortedLists {

  ghost predicate StrictOrder<T(!new)>(less: (T, T) -> bool) {
    && (forall x, y, z :: less(x, y) && less(y, z) ==> less(x, z))
    && (forall x, y :: less(x, y) || less(y, x) || x == y)
    && (forall x :: !less(x, x))
  }

  /** Sorted and distinct. */
  predicate Sorted<T>(ms: seq<T>, less: (T, T) -> bool) {
    forall i, j :: 0 <= i < j < |ms| ==> less(ms[i], ms[j])
  }

  function Insert<T(==,!new)>(x: T, ms: seq<T>, less: (T, T) -> bool): (r: seq<T>)
    ensures forall y :: y in r <==> y == x || y in ms
  {
    if ms == [] then [x]
    else if x == ms[0] then ms
    else if less(x, ms[0]) then [x] + ms
    else
      var rest := Insert(x, ms[1..], less);
      assert forall y :: y in ms <==> y == ms[0] || y in ms[1..];
      [ms[0]] + rest
  }

  /** What `sort` followed by `dedup` leaves. */
  function Canonical<T(==,!new)>(ms: seq<T>, less: (T, T) -> bool): (r: seq<T>)
    ensures forall y :: y in r <==> y in ms
  {
    if ms == [] then [] else Insert(ms[0], Canonical(ms[1..], less), less)
  }

  lemma {:induction false} InsertKeepsSorted<T(!new)>(x: T, ms: seq<T>, less: (T, T) -> bool)
    requires StrictOrder(less) && Sorted(ms, less)
    ensures Sorted(Insert(x, ms, less), less)
  {
    if ms != [] && x != ms[0] && !less(x, ms[0]) {
      InsertKeepsSorted(x, ms[1..], less);
      var rest := Insert(x, ms[1..], less);
      forall j | 0 <= j < |rest| ensures less(ms[0], rest[j]) {
        assert rest[j] in rest;
        if rest[j] != x {
          var k :| 0 <= k < |ms[1..]| && ms[1..][k] == rest[j];
          assert less(ms[0], ms[k + 1]);
        }
      }
    } else if ms != [] && less(x, ms[0]) {
      forall j | 0 <= j < |ms| ensures less(x, ms[j]) {
        if j > 0 { assert less(ms[0], ms[j]); }
      }
    }
  }

  lemma {:induction false} CanonicalIsSorted<T(!new)>(ms: seq<T>, less: (T, T) -> bool)
    requires StrictOrder(less)
    ensures Sorted(Canonical(ms, less), less)
  {
    if ms != [] {
      CanonicalIsSorted(ms[1..], less);
      InsertKeepsSorted(ms[0], Canonical(ms[1..], less), less);
    }
  }

  /** A set has one sorted list. */
  lemma {:induction false} SortedIsUnique<T(!new)>(a: seq<T>, b: seq<T>, less: (T, T) -> bool)
    requires StrictOrder(less) && Sorted(a, less) && Sorted(b, less)
    requires forall x :: x in a <==> x in b
    ensures a == b
  {
    assert a != [] ==> a[0] in b;
    assert b != [] ==> b[0] in a;
    if a != [] && b != [] {
      assert a[0] == b[0];
      forall x ensures x in a[1..] <==> x in b[1..] {
        if x in a[1..] {
          var i :| 0 <= i < |a[1..]| && a[1..][i] == x;
          assert less(a[0], a[i + 1]) && x in b && x != b[0];
          var k :| 0 <= k < |b| && b[k] == x;
          assert b[1..][k - 1] == x;
        }
        if x in b[1..] {
          var i :| 0 <= i < |b[1..]| && b[1..][i] == x;
          assert less(b[0], b[i + 1]) && x in a && x != a[0];
          var k :| 0 <= k < |a| && a[k] == x;
          assert a[1..][k - 1] == x;
        }
      }
      SortedIsUnique(a[1..], b[1..], less);
      assert a == [a[0]] + a[1..] && b == [b[0]] + b[1..];
    }
  }

  /** Two lists of one set have one canonical list, and a sorted list is its own. */
  lemma CanonicalIsUnique<T(!new)>(a: seq<T>, b: seq<T>, less: (T, T) -> bool)
    requires StrictOrder(less)
    requires forall x :: x in a <==> x in b
    ensures Canonical(a, less) == Canonical(b, less)
    ensures Sorted(b, less) ==> Canonical(a, less) == b
  {
    CanonicalIsSorted(a, less);
    CanonicalIsSorted(b, less);
    SortedIsUnique(Canonical(a, less), Canonical(b, less), less);
    if Sorted(b, less) { SortedIsUnique(Canonical(a, less), b, less); }
  }
}
