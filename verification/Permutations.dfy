/** Axis permutations and the index rearrangement that `_permute` performs. */
module Permutations {
  import opened NestedLists

  ghost predicate IsPermutation(p: seq<nat>) {
    && (forall i :: 0 <= i < |p| ==> p[i] < |p|)
    && (forall i, j :: 0 <= i < j < |p| ==> p[i] != p[j])
  }

  /** Permuting by `p` and then by `q` is permuting by `i -> p[q[i]]`. */
  function Compose(p: seq<nat>, q: seq<nat>): (r: seq<nat>)
    requires |p| == |q| && forall i :: 0 <= i < |q| ==> q[i] < |q|
    ensures |r| == |p| && forall i :: 0 <= i < |q| ==> r[i] == p[q[i]]
  {
    seq(|q|, i requires 0 <= i < |q| => p[q[i]])
  }

  /** The array of shape `s` seen with its axes in the order `p`. */
  function PermuteShape(s: Shape, p: seq<nat>): (r: Shape)
    requires forall i :: 0 <= i < |p| ==> p[i] < |s|
    ensures |r| == |p| && forall i :: 0 <= i < |p| ==> r[i] == s[p[i]]
  {
    seq(|p|, i requires 0 <= i < |p| => s[p[i]])
  }

  /** `src_idx` after the writes `src_idx[p[k]] = idx[k]`, in order, over zeros. */
  function SourceIndex(p: seq<nat>, idx: seq<nat>): (r: seq<nat>)
    requires |idx| <= |p| && forall i :: 0 <= i < |p| ==> p[i] < |p|
    ensures |r| == |p|
  {
    if idx == [] then seq(|p|, _ => 0)
    else
      var k := |idx| - 1;
      SourceIndex(p, idx[..k])[p[k] := idx[k]]
  }

  ghost function Range(n: nat): (r: set<nat>)
    ensures forall m: nat :: m in r <==> m < n
    ensures |r| == n
  {
    if n == 0 then {} else Range(n - 1) + {n - 1}
  }

  ghost function Values(p: seq<nat>): set<nat> {
    set x | x in p
  }

  lemma {:induction false} DistinctValuesCounted(p: seq<nat>)
    requires forall i, j :: 0 <= i < j < |p| ==> p[i] != p[j]
    ensures |Values(p)| == |p|
  {
    if p == [] {
    } else {
      var k := |p| - 1;
      var init := p[..k];
      DistinctValuesCounted(init);
      assert p == init + [p[k]];
      assert Values(p) == Values(init) + {p[k]};
      assert p[k] !in init;
    }
  }

  lemma SubsetOfSameSize<T>(a: set<T>, b: set<T>)
    requires a <= b && |a| >= |b|
    ensures a == b
  {
    assert b == a + (b - a);
    assert |b| == |a| + |b - a|;
  }

  /** Pigeonhole: a permutation hits every axis. Returns the axis position holding `m`. */
  lemma PermutationIsOnto(p: seq<nat>, m: nat) returns (k: nat)
    requires IsPermutation(p) && m < |p|
    ensures k < |p| && p[k] == m
  {
    DistinctValuesCounted(p);
    var values := Values(p);
    SubsetOfSameSize(values, Range(|p|));
    assert m in values;
    k :| k < |p| && p[k] == m;
  }

  /** What the writes leave behind, for a permutation: `src_idx[p[k]] == idx[k]`. */
  lemma {:induction false} SourceIndexAt(p: seq<nat>, idx: seq<nat>)
    requires IsPermutation(p) && |idx| <= |p|
    ensures forall k :: 0 <= k < |idx| ==> SourceIndex(p, idx)[p[k]] == idx[k]
  {
    if idx == [] {
    } else {
      var last := |idx| - 1;
      SourceIndexAt(p, idx[..last]);
      assert forall k :: 0 <= k < last ==> p[k] != p[last];
    }
  }

  /** A source index is pinned down by its values along a permutation. */
  lemma IndexDeterminedAlong(p: seq<nat>, a: seq<nat>, b: seq<nat>)
    requires IsPermutation(p) && |a| == |p| && |b| == |p|
    requires forall k :: 0 <= k < |p| ==> a[p[k]] == b[p[k]]
    ensures a == b
  {
    forall m | 0 <= m < |a|
      ensures a[m] == b[m]
    {
      var k := PermutationIsOnto(p, m);
      assert a[p[k]] == b[p[k]];
    }
  }

  /** Whatever the order, the writes stay inside a source without empty dimensions. */
  lemma {:induction false} SourceIndexInBounds(p: seq<nat>, s: Shape, idx: seq<nat>)
    requires |p| == |s| && |idx| <= |p| && Positive(s)
    requires forall i :: 0 <= i < |p| ==> p[i] < |p|
    requires forall k :: 0 <= k < |idx| ==> idx[k] < s[p[k]]
    ensures InBounds(SourceIndex(p, idx), s)
  {
    if idx == [] {
    } else {
      SourceIndexInBounds(p, s, idx[..|idx| - 1]);
    }
  }

  /** An axis that `p` never names is read at index zero only. */
  lemma {:induction false} UnnamedAxisStaysZero(p: seq<nat>, idx: seq<nat>, m: nat)
    requires |idx| <= |p| && m < |p|
    requires forall i :: 0 <= i < |p| ==> p[i] < |p| && p[i] != m
    ensures SourceIndex(p, idx)[m] == 0
  {
    if idx == [] {
    } else {
      UnnamedAxisStaysZero(p, idx[..|idx| - 1], m);
    }
  }

  lemma ComposeIsPermutation(p: seq<nat>, q: seq<nat>)
    requires IsPermutation(p) && IsPermutation(q) && |p| == |q|
    ensures IsPermutation(Compose(p, q))
  {
    var r := Compose(p, q);
    forall i, j | 0 <= i < j < |r|
      ensures r[i] != r[j]
    {
      assert q[i] != q[j];
      if q[i] < q[j] {
        assert p[q[i]] != p[q[j]];
      } else {
        assert p[q[j]] != p[q[i]];
      }
    }
  }

  /** Going through two rearrangements of an index is going through the composite one. */
  lemma SourceIndexComposes(p: seq<nat>, q: seq<nat>, idx: seq<nat>)
    requires IsPermutation(p) && IsPermutation(q) && |p| == |q| == |idx|
    requires IsPermutation(Compose(p, q))
    ensures SourceIndex(p, SourceIndex(q, idx)) == SourceIndex(Compose(p, q), idx)
  {
    var r := Compose(p, q);
    var a := SourceIndex(p, SourceIndex(q, idx));
    var b := SourceIndex(r, idx);
    SourceIndexAt(q, idx);
    SourceIndexAt(p, SourceIndex(q, idx));
    SourceIndexAt(r, idx);
    forall k | 0 <= k < |r|
      ensures a[r[k]] == b[r[k]]
    {
      assert a[p[q[k]]] == SourceIndex(q, idx)[q[k]];
    }
    IndexDeterminedAlong(r, a, b);
  }

  ghost predicate AreInverse(p: seq<nat>, q: seq<nat>) {
    |p| == |q| && (forall i :: 0 <= i < |q| ==> q[i] < |p|) && forall i :: 0 <= i < |q| ==> p[q[i]] == i
  }

  lemma IdentityIndex(p: seq<nat>, idx: seq<nat>)
    requires |p| == |idx| && forall i :: 0 <= i < |p| ==> p[i] == i
    ensures IsPermutation(p) && SourceIndex(p, idx) == idx
  {
    SourceIndexAt(p, idx);
    assert forall k :: 0 <= k < |idx| ==> SourceIndex(p, idx)[p[k]] == idx[k];
    assert forall k :: 0 <= k < |idx| ==> SourceIndex(p, idx)[k] == idx[k];
  }

  /** `src_idx` as the source fills it: a zeroed buffer written in place. */
  method FillSourceIndex(order: seq<nat>, prefix: seq<nat>) returns (srcIdx: array<nat>)
    requires |prefix| == |order| && forall i :: 0 <= i < |order| ==> order[i] < |order|
    ensures fresh(srcIdx) && srcIdx[..] == SourceIndex(order, prefix)
  {
    srcIdx := new nat[|order|](_ => 0);
    assert prefix[..0] == [];
    for outAx := 0 to |prefix|
      invariant srcIdx[..] == SourceIndex(order, prefix[..outAx])
    {
      assert prefix[..outAx + 1][..outAx] == prefix[..outAx];
      srcIdx[order[outAx]] := prefix[outAx];
    }
    assert prefix[..|prefix|] == prefix;
  }
}
