/** Permuting keeps every leaf, and which orders do. Leaves are counted by the index set that
    carries them, so a bijection of indices is an equality of multisets. */
module LeafMultisets {
  import opened NestedLists
  import opened Permutations
  import opened AxisPermute

  // ---------------------------------------------------------------- index sets

  ghost function Prefixed(i: nat, tails: set<seq<nat>>): set<seq<nat>> {
    set t | t in tails :: [i] + t
  }

  ghost function IndicesBelow(n: nat, tails: set<seq<nat>>): set<seq<nat>> {
    if n == 0 then {} else IndicesBelow(n - 1, tails) + Prefixed(n - 1, tails)
  }

  ghost function Indices(s: Shape): set<seq<nat>> {
    if s == [] then {[]} else IndicesBelow(s[0], Indices(s[1..]))
  }

  lemma {:induction false} IndicesBelowMembers(n: nat, tails: set<seq<nat>>, idx: seq<nat>)
    ensures idx in IndicesBelow(n, tails) <==> idx != [] && idx[0] < n && idx[1..] in tails
  {
    if n == 0 {
    } else {
      IndicesBelowMembers(n - 1, tails, idx);
      if idx != [] && idx[0] == n - 1 && idx[1..] in tails {
        assert idx == [n - 1] + idx[1..];
      }
      if idx in Prefixed(n - 1, tails) {
        var t :| t in tails && idx == [n - 1] + t;
        assert idx[1..] == t;
      }
    }
  }

  lemma {:induction false} IndicesAreTheBounds(s: Shape, idx: seq<nat>)
    ensures idx in Indices(s) <==> InBounds(idx, s)
    decreases s
  {
    if s == [] {
    } else {
      IndicesBelowMembers(s[0], Indices(s[1..]), idx);
      if idx != [] {
        IndicesAreTheBounds(s[1..], idx[1..]);
        if InBounds(idx[1..], s[1..]) && idx[0] < s[0] {
          forall k | 0 <= k < |s|
            ensures idx[k] < s[k]
          {
            if k > 0 {
              assert idx[1..][k - 1] < s[1..][k - 1];
            }
          }
        }
      }
    }
  }

  /** The indices at which a full array holds `x`. */
  ghost function Carriers<T>(v: Nested<T>, s: Shape, x: T): set<seq<nat>>
    requires HasShape(v, s)
  {
    set idx | idx in Indices(s) && InBounds(idx, s) && At(v, s, idx) == x
  }

  /** Those among the first `n` elements of a list. */
  ghost function CarriersBelow<T>(items: seq<Nested<T>>, s: Shape, x: T, n: nat): set<seq<nat>>
    requires n <= |items| && forall i :: 0 <= i < |items| ==> HasShape(items[i], s)
  {
    if n == 0 then {} else CarriersBelow(items, s, x, n - 1) + Prefixed(n - 1, Carriers(items[n - 1], s, x))
  }

  lemma {:induction false} CarriersBelowMembers<T>(items: seq<Nested<T>>, s: Shape, x: T, n: nat, idx: seq<nat>)
    requires n <= |items| && forall i :: 0 <= i < |items| ==> HasShape(items[i], s)
    ensures idx in CarriersBelow(items, s, x, n) <==>
            idx != [] && idx[0] < n && idx[1..] in Carriers(items[idx[0]], s, x)
  {
    if n == 0 {
    } else {
      CarriersBelowMembers(items, s, x, n - 1, idx);
      var tails := Carriers(items[n - 1], s, x);
      if idx != [] && idx[0] == n - 1 && idx[1..] in tails {
        assert idx == [n - 1] + idx[1..];
      }
      if idx in Prefixed(n - 1, tails) {
        var t :| t in tails && idx == [n - 1] + t;
        assert idx[1..] == t;
      }
    }
  }

  lemma CarriersOfList<T>(v: Nested<T>, s: Shape, x: T)
    requires s != [] && HasShape(v, s)
    ensures Carriers(v, s, x) == CarriersBelow(v.items, s[1..], x, s[0])
  {
    forall idx: seq<nat>
      ensures idx in Carriers(v, s, x) <==> idx in CarriersBelow(v.items, s[1..], x, s[0])
    {
      CarriersBelowMembers(v.items, s[1..], x, s[0], idx);
      IndicesAreTheBounds(s, idx);
      if idx != [] {
        IndicesAreTheBounds(s[1..], idx[1..]);
        if idx[0] < s[0] && InBounds(idx[1..], s[1..]) {
          forall k | 0 <= k < |idx|
            ensures idx[k] < s[k]
          {
            if k > 0 {
              assert idx[1..][k - 1] < s[1..][k - 1];
            }
          }
        }
      }
    }
  }

  // ---------------------------------------------------------------- counting

  lemma {:induction false} InjectiveImageSize<A, B>(a: set<A>, b: set<B>, f: A -> B)
    requires forall x, y :: x in a && y in a && x != y ==> f(x) != f(y)
    requires forall x :: x in a ==> f(x) in b
    requires forall y :: y in b ==> exists x :: x in a && f(x) == y
    ensures |a| == |b|
    decreases |a|
  {
    if a == {} {
      assert b == {};
    } else {
      var x :| x in a;
      forall y | y in b - {f(x)}
        ensures exists z :: z in a - {x} && f(z) == y
      {
        var z :| z in a && f(z) == y;
        assert z in a - {x};
      }
      InjectiveImageSize(a - {x}, b - {f(x)}, f);
    }
  }

  lemma PrefixedSize(i: nat, tails: set<seq<nat>>)
    ensures |Prefixed(i, tails)| == |tails|
  {
    var f := (t: seq<nat>) => [i] + t;
    forall x, y | x in tails && y in tails && x != y
      ensures f(x) != f(y)
    {
      assert f(x)[1..] == x && f(y)[1..] == y;
    }
    forall y | y in Prefixed(i, tails)
      ensures exists t :: t in tails && f(t) == y
    {
      var t :| t in tails && y == [i] + t;
      assert f(t) == y;
    }
    InjectiveImageSize(tails, Prefixed(i, tails), f);
  }

  lemma {:induction false} FlattenAllAppend<T>(items: seq<Nested<T>>, last: Nested<T>)
    ensures FlattenAll(items + [last]) == FlattenAll(items) + Flatten(last)
  {
    if items == [] {
      assert [last][1..] == [];
      assert FlattenAll([last]) == Flatten(last) + FlattenAll([]);
    } else {
      assert (items + [last])[1..] == items[1..] + [last];
      FlattenAllAppend(items[1..], last);
    }
  }

  lemma BelowAndNextAreApart<T>(items: seq<Nested<T>>, s: Shape, x: T, n: nat)
    requires n < |items| && forall i :: 0 <= i < |items| ==> HasShape(items[i], s)
    ensures CarriersBelow(items, s, x, n) !! Prefixed(n, Carriers(items[n], s, x))
  {
    forall idx | idx in CarriersBelow(items, s, x, n)
      ensures idx !in Prefixed(n, Carriers(items[n], s, x))
    {
      CarriersBelowMembers(items, s, x, n, idx);
    }
  }

  lemma {:induction false} CountBelow<T>(items: seq<Nested<T>>, s: Shape, x: T, n: nat)
    requires n <= |items| && forall i :: 0 <= i < |items| ==> HasShape(items[i], s)
    ensures multiset(FlattenAll(items[..n]))[x] == |CarriersBelow(items, s, x, n)|
    decreases items, 0, n
  {
    if n == 0 {
    } else {
      CountBelow(items, s, x, n - 1);
      CountIsCarriers(items[n - 1], s, x);
      assert items[..n] == items[..n - 1] + [items[n - 1]];
      FlattenAllAppend(items[..n - 1], items[n - 1]);
      var old_, new_ := CarriersBelow(items, s, x, n - 1), Prefixed(n - 1, Carriers(items[n - 1], s, x));
      PrefixedSize(n - 1, Carriers(items[n - 1], s, x));
      BelowAndNextAreApart(items, s, x, n - 1);
      assert |old_ + new_| == |old_| + |new_|;
    }
  }

  /** A value occurs among the leaves as often as there are indices that carry it. */
  lemma {:induction false} CountIsCarriers<T>(v: Nested<T>, s: Shape, x: T)
    requires HasShape(v, s)
    ensures multiset(Flatten(v))[x] == |Carriers(v, s, x)|
    decreases v, 1, 0
  {
    if s == [] {
      assert Flatten(v) == [v.value];
      assert Carriers(v, s, x) == if v.value == x then {[]} else {};
    } else {
      CarriersOfList(v, s, x);
      CountBelow(v.items, s[1..], x, s[0]);
      assert v.items[..s[0]] == v.items;
    }
  }

  // ---------------------------------------------------------------- permutation of leaves

  lemma SourceIndexIsInjective(p: seq<nat>, i: seq<nat>, j: seq<nat>)
    requires IsPermutation(p) && |i| == |p| && |j| == |p| && i != j
    ensures SourceIndex(p, i) != SourceIndex(p, j)
  {
    SourceIndexAt(p, i);
    SourceIndexAt(p, j);
    var k :| 0 <= k < |p| && i[k] != j[k];
    assert SourceIndex(p, i)[p[k]] == i[k] && SourceIndex(p, j)[p[k]] == j[k];
  }

  /** The index of the permuted array whose leaf comes from index `j`. */
  lemma TargetIndex(s: Shape, p: seq<nat>, j: seq<nat>) returns (i: seq<nat>)
    requires IsPermutation(p) && |p| == |s| && InBounds(j, s)
    ensures InBounds(i, PermuteShape(s, p)) && SourceIndex(p, i) == j
  {
    i := seq(|p|, k requires 0 <= k < |p| => j[p[k]]);
    SourceIndexAt(p, i);
    assert forall k :: 0 <= k < |p| ==> SourceIndex(p, i)[p[k]] == i[k];
    IndexDeterminedAlong(p, SourceIndex(p, i), j);
  }

  /** Where a leaf of the permuted array comes from holds the same leaf, and back. */
  lemma CarrierMoves<T>(v: Nested<T>, s: Shape, p: seq<nat>, x: T, i: seq<nat>)
    requires HasShape(v, s) && Positive(s) && IsPermutation(p) && |p| == |s|
    requires Permute(v, p).Success? && HasShape(Permute(v, p).value, PermuteShape(s, p))
    requires InBounds(i, PermuteShape(s, p))
    ensures i in Carriers(Permute(v, p).value, PermuteShape(s, p), x) <==> SourceIndex(p, i) in Carriers(v, s, x)
  {
    AxesOfPermutation(p);
    PermuteIndexLaw(v, s, p);
    IndicesAreTheBounds(PermuteShape(s, p), i);
    IndicesAreTheBounds(s, SourceIndex(p, i));
  }

  lemma CarriersAlongPermutation<T>(v: Nested<T>, s: Shape, p: seq<nat>, x: T)
    requires HasShape(v, s) && Positive(s) && IsPermutation(p) && |p| == |s|
    requires Permute(v, p).Success? && HasShape(Permute(v, p).value, PermuteShape(s, p))
    ensures |Carriers(Permute(v, p).value, PermuteShape(s, p), x)| == |Carriers(v, s, x)|
  {
    var out := PermuteShape(s, p);
    var a, b := Carriers(Permute(v, p).value, out, x), Carriers(v, s, x);
    var f := (idx: seq<nat>) => if |idx| == |p| then SourceIndex(p, idx) else idx;
    forall i, j | i in a && j in a && i != j
      ensures f(i) != f(j)
    {
      SourceIndexIsInjective(p, i, j);
    }
    forall i | i in a
      ensures f(i) in b
    {
      CarrierMoves(v, s, p, x, i);
    }
    forall j | j in b
      ensures exists i :: i in a && f(i) == j
    {
      var i := TargetIndex(s, p, j);
      CarrierMoves(v, s, p, x, i);
      assert i in a && f(i) == j;
    }
    InjectiveImageSize(a, b, f);
  }

  /** Permuting neither loses, adds nor changes a leaf, at any rank. */
  lemma PermutePreservesLeaves<T(!new)>(v: Nested<T>, s: Shape, p: seq<nat>)
    requires HasShape(v, s) && Positive(s) && IsPermutation(p) && |p| == |s|
    ensures Permute(v, p).Success?
    ensures multiset(Flatten(Permute(v, p).value)) == multiset(Flatten(v))
  {
    AxesOfPermutation(p);
    PermuteIndexLaw(v, s, p);
    var w, out := Permute(v, p).value, PermuteShape(s, p);
    forall x: T
      ensures multiset(Flatten(w))[x] == multiset(Flatten(v))[x]
    {
      CarriersAlongPermutation(v, s, p, x);
      CountIsCarriers(w, out, x);
      CountIsCarriers(v, s, x);
    }
  }

  // ---------------------------------------------------------------- exactly which orders

  /** The array of shape `s` with `f(idx)` at each index. */
  ghost function Tabulate<T>(s: Shape, f: seq<nat> -> T): (v: Nested<T>)
    ensures HasShape(v, s)
    decreases s
  {
    if s == [] then Leaf(f([]))
    else List(seq(s[0], i requires 0 <= i < s[0] => Tabulate(s[1..], (t: seq<nat>) => f([i] + t))))
  }

  lemma {:induction false} TabulateAt<T>(s: Shape, f: seq<nat> -> T, idx: seq<nat>)
    requires InBounds(idx, s)
    ensures At(Tabulate(s, f), s, idx) == f(idx)
    decreases s
  {
    if s == [] {
      assert idx == [];
    } else {
      TabulateAt(s[1..], (t: seq<nat>) => f([idx[0]] + t), idx[1..]);
      assert [idx[0]] + idx[1..] == idx;
    }
  }

  /** The order keeps the leaves of every full array of matching rank. */
  ghost predicate KeepsLeaves(order: seq<int>) {
    forall v: Nested<bool>, s: Shape :: HasShape(v, s) && Positive(s) && |s| == |order| ==>
      Permute(v, order).Success? && multiset(Flatten(Permute(v, order).value)) == multiset(Flatten(v))
  }

  lemma NotOntoMissesAnAxis(p: seq<nat>) returns (m: nat)
    requires (forall i :: 0 <= i < |p| ==> p[i] < |p|) && !IsPermutation(p)
    ensures m < |p| && forall i :: 0 <= i < |p| ==> p[i] != m
  {
    if forall x: nat :: x in Range(|p|) ==> x in Values(p) {
      assert Values(p) == Range(|p|);
      var i, j :| 0 <= i < j < |p| && p[i] == p[j];
      var shorter := p[..j] + p[j + 1..];
      forall x | x in Values(p)
        ensures x in Values(shorter)
      {
        var k :| 0 <= k < |p| && p[k] == x;
        var k' := if k == j then i else k;
        assert p[k'] == x;
        assert shorter[if k' < j then k' else k' - 1] == x;
      }
      assert Values(p) <= Values(shorter);
      CardinalityMonotone(Values(p), Values(shorter));
      ValuesAtMost(shorter);
      assert false;
    }
    m :| m in Range(|p|) && m !in Values(p);
  }

  lemma {:induction false} ValuesAtMost(p: seq<nat>)
    ensures |Values(p)| <= |p|
  {
    if p == [] {
    } else {
      var k := |p| - 1;
      assert p == p[..k] + [p[k]];
      assert Values(p) == Values(p[..k]) + {p[k]};
      ValuesAtMost(p[..k]);
    }
  }

  /** An order that repeats an axis loses a leaf of some array. */
  lemma RepeatedAxisLosesALeaf(order: seq<int>)
    requires AxesInRange(order) && !IsPermutation(Axes(order))
    ensures !KeepsLeaves(order)
  {
    var p := Axes(order);
    var m := NotOntoMissesAnAxis(p);
    var s: Shape := seq(|p|, _ => 2);
    var f := (idx: seq<nat>) => m < |idx| && idx[m] == 1;
    var v := Tabulate(s, f);
    PermuteIndexLaw(v, s, order);
    var w, out := Permute(v, order).value, PermuteShape(s, p);
    CountIsCarriers(v, s, true);
    CountIsCarriers(w, out, true);
    var ones: seq<nat> := seq(|p|, _ => 1);
    TabulateAt(s, f, ones);
    IndicesAreTheBounds(s, ones);
    assert ones in Carriers(v, s, true);
    forall idx | idx in Carriers(w, out, true)
      ensures false
    {
      UnnamedAxisStaysZero(p, idx, m);
      TabulateAt(s, f, SourceIndex(p, idx));
      assert false;
    }
    assert Carriers(w, out, true) == {};
    assert multiset(Flatten(w)) != multiset(Flatten(v));
  }

  /** The rank check of `_permute` is not enough: leaves are kept for every array of the
      rank exactly when the order names existing axes and is a permutation of them. */
  lemma KeepsLeavesIff(order: seq<int>)
    ensures KeepsLeaves(order) <==> AxesInRange(order) && IsPermutation(Axes(order))
  {
    var twos: Shape := seq(|order|, _ => 2);
    var v := Tabulate(twos, (_: seq<nat>) => true);
    if !AxesInRange(order) {
      LeadingShapeOfArray(v, twos);
      assert Permute(v, order).Failure?;
    } else if !IsPermutation(Axes(order)) {
      RepeatedAxisLosesALeaf(order);
    } else {
      forall v: Nested<bool>, s: Shape | HasShape(v, s) && Positive(s) && |s| == |order|
        ensures Permute(v, order).Success?
        ensures multiset(Flatten(Permute(v, order).value)) == multiset(Flatten(v))
      {
        var p := Axes(order);
        AxesOfPermutation(p);
        PermutePreservesLeaves(v, s, p);
        LeadingShapeOfArray(v, s);
        assert Permute(v, order) == Permute(v, p);
      }
    }
  }

  /** `[0, 0]` passes the rank check on every matrix and loses leaves of some. */
  lemma RepeatedAxisExample()
    ensures !KeepsLeaves([0, 0])
  {
    assert Axes([0, 0])[0] == Axes([0, 0])[1];
    RepeatedAxisLosesALeaf([0, 0]);
  }
}
