/** Sorting by a total order, as a specification of the language's `sorted`. */
module Sorting {

  ghost predicate IsTotalOrder<T(!new)>(leq: (T, T) -> bool) {
    && (forall x :: leq(x, x))
    && (forall x, y :: leq(x, y) || leq(y, x))
    && (forall x, y :: leq(x, y) && leq(y, x) ==> x == y)
    && (forall x, y, z :: leq(x, y) && leq(y, z) ==> leq(x, z))
  }

  ghost predicate IsSorted<T(!new)>(s: seq<T>, leq: (T, T) -> bool) {
    forall i, j :: 0 <= i < j < |s| ==> leq(s[i], s[j])
  }

  function Insert<T>(x: T, s: seq<T>, leq: (T, T) -> bool): seq<T> {
    if s == [] then [x]
    else if leq(x, s[0]) then [x] + s
    else [s[0]] + Insert(x, s[1..], leq)
  }

  function Sort<T>(s: seq<T>, leq: (T, T) -> bool): seq<T> {
    if s == [] then [] else Insert(s[0], Sort(s[1..], leq), leq)
  }

  lemma {:induction false} InsertKeeps<T(!new)>(x: T, s: seq<T>, leq: (T, T) -> bool)
    requires IsTotalOrder(leq) && IsSorted(s, leq)
    ensures IsSorted(Insert(x, s, leq), leq)
    ensures multiset(Insert(x, s, leq)) == multiset(s) + multiset{x}
  {
    if s == [] {
    } else {
      assert s == [s[0]] + s[1..];
      if !leq(x, s[0]) {
        var rest := s[1..];
        InsertKeeps(x, rest, leq);
        var inserted := Insert(x, rest, leq);
        forall i | 0 <= i < |inserted|
          ensures leq(s[0], inserted[i])
        {
          assert inserted[i] in multiset(inserted);
          if inserted[i] != x {
            assert inserted[i] in rest;
          }
        }
      }
    }
  }

  lemma {:induction false} SortSorts<T(!new)>(s: seq<T>, leq: (T, T) -> bool)
    requires IsTotalOrder(leq)
    ensures IsSorted(Sort(s, leq), leq)
    ensures multiset(Sort(s, leq)) == multiset(s)
  {
    if s == [] {
    } else {
      SortSorts(s[1..], leq);
      InsertKeeps(s[0], Sort(s[1..], leq), leq);
      assert s == [s[0]] + s[1..];
    }
  }

  /** A multiset has one sorted arrangement. */
  lemma {:induction false} SortedIsUnique<T(!new)>(a: seq<T>, b: seq<T>, leq: (T, T) -> bool)
    requires IsTotalOrder(leq) && IsSorted(a, leq) && IsSorted(b, leq) && multiset(a) == multiset(b)
    ensures a == b
  {
    assert |multiset(a)| == |a| && |multiset(b)| == |b|;
    if a != [] {
      assert a == [a[0]] + a[1..] && b == [b[0]] + b[1..];
      assert a[0] in multiset(b) && b[0] in multiset(a);
      assert leq(b[0], a[0]) && leq(a[0], b[0]);
      assert multiset(a[1..]) == multiset(a) - multiset{a[0]};
      SortedIsUnique(a[1..], b[1..], leq);
    }
  }

  /** Sorting forgets the order of its input. */
  lemma SortOfPermutation<T(!new)>(s: seq<T>, t: seq<T>, leq: (T, T) -> bool)
    requires IsTotalOrder(leq) && multiset(s) == multiset(t)
    ensures Sort(s, leq) == Sort(t, leq)
  {
    SortSorts(s, leq);
    SortSorts(t, leq);
    SortedIsUnique(Sort(s, leq), Sort(t, leq), leq);
  }

  lemma SortOfSorted<T(!new)>(s: seq<T>, leq: (T, T) -> bool)
    requires IsTotalOrder(leq) && IsSorted(s, leq)
    ensures Sort(s, leq) == s
  {
    SortSorts(s, leq);
    SortedIsUnique(Sort(s, leq), s, leq);
  }
}
