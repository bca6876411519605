/** The `permute` transform: axes of a nested list of any rank rearranged by index walk. */
module AxisPermute {
  import opened Outcomes
  import opened NestedLists
  import opened Permutations

  /** `RankMismatch`, `MissingStats` and `NotAList` are the source's own TransformError; the
      others are the language errors its expressions raise. */
  datatype TransformError = RankMismatch | MissingStats | NotAList | IndexError | TypeError | ZeroDivision

  type Outcome<T> = Result<T, TransformError>

  // ---------------------------------------------------------------- permute

  /** The shape walk of `_permute`, which indexes `x[0]` even of an empty list. */
  function LeadingShape<T>(v: Nested<T>): Outcome<Shape> {
    match v
    case Leaf(_) => Success([])
    case List(items) =>
      if items == [] then Failure(IndexError)
      else
        var rest :- LeadingShape(items[0]);
        Success([|items|] + rest)
  }

  function Get<T>(v: Nested<T>, idx: seq<nat>): Outcome<Nested<T>> {
    if idx == [] then Success(v)
    else
      match v
      case Leaf(_) => Failure(TypeError)
      case List(items) => if idx[0] < |items| then Get(items[idx[0]], idx[1..]) else Failure(IndexError)
  }

  predicate AxesInRange(order: seq<int>) {
    forall i :: 0 <= i < |order| ==> -|order| <= order[i] < |order|
  }

  /** Negative axes count from the end. */
  function Axes(order: seq<int>): (p: seq<nat>)
    requires AxesInRange(order)
    ensures |p| == |order| && forall i :: 0 <= i < |p| ==> p[i] < |p|
    ensures forall i :: 0 <= i < |p| ==> p[i] == order[i] || p[i] == order[i] + |order|
  {
    seq(|order|, i requires 0 <= i < |order| => if order[i] < 0 then order[i] + |order| else order[i])
  }

  function Build<T>(v: Nested<T>, p: seq<nat>, out: Shape, prefix: seq<nat>): Outcome<Nested<T>>
    requires |p| == |out| && |prefix| <= |out| && forall i :: 0 <= i < |p| ==> p[i] < |p|
    decreases |out| - |prefix|
  {
    if |prefix| == |out| then Get(v, SourceIndex(p, prefix))
    else
      var items :- Collect(seq(out[|prefix|], i requires 0 <= i < out[|prefix|] => Build(v, p, out, prefix + [i])));
      Success(List(items))
  }

  function Permute<T>(v: Nested<T>, order: seq<int>): Outcome<Nested<T>> {
    var src :- LeadingShape(v);
    if |order| != |src| then Failure(RankMismatch)
    else if !AxesInRange(order) then Failure(IndexError)
    else Build(v, Axes(order), PermuteShape(src, Axes(order)), [])
  }

  method GetLoop<T>(v: Nested<T>, idx: seq<nat>) returns (r: Outcome<Nested<T>>)
    ensures r == Get(v, idx)
  {
    var cur := v;
    for k := 0 to |idx|
      invariant Get(v, idx) == Get(cur, idx[k..])
    {
      assert idx[k..][0] == idx[k] && idx[k..][1..] == idx[k + 1..];
      if cur.Leaf? {
        return Failure(TypeError);
      }
      if idx[k] >= |cur.items| {
        return Failure(IndexError);
      }
      cur := cur.items[idx[k]];
    }
    return Success(cur);
  }

  method BuildLoop<T>(v: Nested<T>, p: seq<nat>, out: Shape, prefix: seq<nat>) returns (r: Outcome<Nested<T>>)
    requires |p| == |out| && |prefix| <= |out| && forall i :: 0 <= i < |p| ==> p[i] < |p|
    ensures r == Build(v, p, out, prefix)
    decreases |out| - |prefix|
  {
    if |prefix| == |out| {
      var srcIdx := FillSourceIndex(p, prefix);
      r := GetLoop(v, srcIdx[..]);
      return;
    }
    var n := out[|prefix|];
    ghost var children := seq(n, i requires 0 <= i < n => Build(v, p, out, prefix + [i]));
    var items := [];
    for i := 0 to n
      invariant |items| == i && forall j :: 0 <= j < i ==> children[j] == Success(items[j])
    {
      var child := BuildLoop(v, p, out, prefix + [i]);
      if child.Failure? {
        assert children[i] == child;
        return Failure(child.error);
      }
      items := items + [child.value];
    }
    assert Collect(children).value == items;
    return Success(List(items));
  }

  /** `_permute`, with its buffer of source indices. */
  method PermuteLoop<T>(v: Nested<T>, order: seq<int>) returns (r: Outcome<Nested<T>>)
    ensures r == Permute(v, order)
  {
    var src := LeadingShape(v);
    if src.Failure? {
      return Failure(src.error);
    }
    if |order| != |src.value| {
      return Failure(RankMismatch);
    }
    if !AxesInRange(order) {
      return Failure(IndexError);
    }
    r := BuildLoop(v, Axes(order), PermuteShape(src.value, Axes(order)), []);
  }

  // ---------------------------------------------------------------- permute: the laws

  lemma {:induction false} LeadingShapeOfArray<T>(v: Nested<T>, s: Shape)
    requires HasShape(v, s) && Tight(s)
    ensures LeadingShape(v) == if Positive(s) then Success(s) else Failure(IndexError)
    decreases s
  {
    if s == [] {
    } else {
      TightTail(s);
      assert Positive(s) <==> s[0] > 0 && Positive(s[1..]) by {
        if s[0] > 0 && Positive(s[1..]) {
          forall i | 0 <= i < |s|
            ensures s[i] > 0
          {
            if i > 0 {
              assert s[1..][i - 1] > 0;
            }
          }
        }
      }
      if v.items != [] {
        LeadingShapeOfArray(v.items[0], s[1..]);
        assert [s[0]] + s[1..] == s;
      }
    }
  }

  lemma {:induction false} GetReadsAt<T>(v: Nested<T>, s: Shape, idx: seq<nat>)
    requires HasShape(v, s) && InBounds(idx, s)
    ensures Get(v, idx) == Success(Leaf(At(v, s, idx)))
    decreases s
  {
    if s == [] {
    } else {
      GetReadsAt(v.items[idx[0]], s[1..], idx[1..]);
    }
  }

  /** `r` is the part of the permuted array below `prefix`. */
  ghost predicate ReadsThrough<T>(r: Nested<T>, v: Nested<T>, s: Shape, p: seq<nat>, out: Shape, prefix: seq<nat>)
    requires HasShape(v, s) && |prefix| <= |out| == |p| && forall i :: 0 <= i < |p| ==> p[i] < |p|
  {
    && HasShape(r, out[|prefix|..])
    && forall rest :: InBounds(rest, out[|prefix|..]) ==>
         && InBounds(SourceIndex(p, prefix + rest), s)
         && At(r, out[|prefix|..], rest) == At(v, s, SourceIndex(p, prefix + rest))
  }

  lemma ReadsThroughChild<T>(items: seq<Nested<T>>, v: Nested<T>, s: Shape, p: seq<nat>, out: Shape, prefix: seq<nat>,
                             rest: seq<nat>)
    requires HasShape(v, s) && |prefix| < |out| == |p| && forall i :: 0 <= i < |p| ==> p[i] < |p|
    requires |items| == out[|prefix|] && HasShape(List(items), out[|prefix|..]) && InBounds(rest, out[|prefix|..])
    requires forall i: nat :: i < |items| ==> ReadsThrough(items[i], v, s, p, out, prefix + [i])
    ensures InBounds(SourceIndex(p, prefix + rest), s)
    ensures At(List(items), out[|prefix|..], rest) == At(v, s, SourceIndex(p, prefix + rest))
  {
    var i := rest[0];
    assert out[|prefix|..][1..] == out[|prefix| + 1..];
    assert prefix + [i] + rest[1..] == prefix + rest;
    assert InBounds(rest[1..], out[|prefix| + 1..]);
    assert ReadsThrough(items[i], v, s, p, out, prefix + [i]);
  }

  lemma ReadsThroughChildren<T>(items: seq<Nested<T>>, v: Nested<T>, s: Shape, p: seq<nat>, out: Shape, prefix: seq<nat>)
    requires HasShape(v, s) && |prefix| < |out| == |p| && forall i :: 0 <= i < |p| ==> p[i] < |p|
    requires |items| == out[|prefix|]
    requires forall i: nat :: i < |items| ==> ReadsThrough(items[i], v, s, p, out, prefix + [i])
    ensures ReadsThrough(List(items), v, s, p, out, prefix)
  {
    var tail := out[|prefix|..];
    assert tail[1..] == out[|prefix| + 1..];
    forall i: nat | i < |items|
      ensures HasShape(items[i], tail[1..])
    {
      assert ReadsThrough(items[i], v, s, p, out, prefix + [i]);
    }
    forall rest | InBounds(rest, tail)
      ensures InBounds(SourceIndex(p, prefix + rest), s)
      ensures At(List(items), tail, rest) == At(v, s, SourceIndex(p, prefix + rest))
    {
      ReadsThroughChild(items, v, s, p, out, prefix, rest);
    }
  }

  lemma {:induction false} BuildFollowsIndex<T>(v: Nested<T>, s: Shape, p: seq<nat>, out: Shape, prefix: seq<nat>)
    requires HasShape(v, s) && Positive(s) && |p| == |s|
    requires forall i :: 0 <= i < |p| ==> p[i] < |p|
    requires out == PermuteShape(s, p)
    requires |prefix| <= |out| && forall k :: 0 <= k < |prefix| ==> prefix[k] < out[k]
    ensures Build(v, p, out, prefix).Success?
    ensures ReadsThrough(Build(v, p, out, prefix).value, v, s, p, out, prefix)
    decreases |out| - |prefix|
  {
    if |prefix| == |out| {
      SourceIndexInBounds(p, s, prefix);
      GetReadsAt(v, s, SourceIndex(p, prefix));
      assert prefix + [] == prefix;
    } else {
      var n := out[|prefix|];
      forall i: nat | i < n
        ensures Build(v, p, out, prefix + [i]).Success?
        ensures ReadsThrough(Build(v, p, out, prefix + [i]).value, v, s, p, out, prefix + [i])
      {
        BuildFollowsIndex(v, s, p, out, prefix + [i]);
      }
      ReadsThroughChildren(Build(v, p, out, prefix).value.items, v, s, p, out, prefix);
    }
  }

  /** The index law, for any order whose axes exist: the result has the permuted shape and
      holds at `idx` what the source holds at the rearranged index. */
  lemma PermuteIndexLaw<T>(v: Nested<T>, s: Shape, order: seq<int>)
    requires HasShape(v, s) && Positive(s) && |order| == |s| && AxesInRange(order)
    ensures Permute(v, order).Success?
    ensures HasShape(Permute(v, order).value, PermuteShape(s, Axes(order)))
    ensures forall idx :: InBounds(idx, PermuteShape(s, Axes(order))) ==>
              && InBounds(SourceIndex(Axes(order), idx), s)
              && At(Permute(v, order).value, PermuteShape(s, Axes(order)), idx)
                 == At(v, s, SourceIndex(Axes(order), idx))
  {
    LeadingShapeOfArray(v, s);
    var p := Axes(order);
    var out := PermuteShape(s, p);
    BuildFollowsIndex(v, s, p, out, []);
    assert out[0..] == out;
    forall idx | InBounds(idx, out)
      ensures InBounds(SourceIndex(p, idx), s)
      ensures At(Permute(v, order).value, out, idx) == At(v, s, SourceIndex(p, idx))
    {
      assert [] + idx == idx;
    }
  }

  /** A rectangular input is permuted exactly when the rank fits, the axes exist and no
      dimension is empty. */
  lemma PermuteSucceedsIff<T>(v: Nested<T>, s: Shape, order: seq<int>)
    requires RectShape(v) == Some(s)
    ensures Permute(v, order).Success? <==> Positive(s) && |order| == |s| && AxesInRange(order)
    ensures !Positive(s) ==> Permute(v, order) == Failure(IndexError)
    ensures Positive(s) && |order| != |s| ==> Permute(v, order) == Failure(RankMismatch)
    ensures Positive(s) && |order| == |s| && !AxesInRange(order) ==> Permute(v, order) == Failure(IndexError)
  {
    RectShapeIsTheShape(v, s);
    LeadingShapeOfArray(v, s);
    if Positive(s) && |order| == |s| && AxesInRange(order) {
      PermuteIndexLaw(v, s, order);
    }
  }

  lemma AxesOfPermutation(p: seq<nat>)
    requires IsPermutation(p)
    ensures AxesInRange(p) && Axes(p) == p
  {
  }

  lemma PermutePositive(s: Shape, p: seq<nat>)
    requires Positive(s) && |p| == |s| && IsPermutation(p)
    ensures Positive(PermuteShape(s, p))
  {
  }

  /** Two permutes in a row are one permute by the composite order. */
  lemma PermuteComposes<T>(v: Nested<T>, s: Shape, p: seq<nat>, q: seq<nat>)
    requires HasShape(v, s) && Positive(s)
    requires IsPermutation(p) && IsPermutation(q) && |p| == |q| == |s|
    ensures Permute(v, p).Success?
    ensures Permute(Permute(v, p).value, q) == Permute(v, Compose(p, q))
  {
    var r := Compose(p, q);
    ComposeIsPermutation(p, q);
    AxesOfPermutation(p);
    AxesOfPermutation(q);
    AxesOfPermutation(r);
    PermuteIndexLaw(v, s, p);
    PermuteIndexLaw(v, s, r);
    var sp := PermuteShape(s, p);
    var w := Permute(v, p).value;
    PermuteIndexLaw(w, sp, q);
    var out := PermuteShape(s, r);
    assert PermuteShape(sp, q) == out;
    var left, right := Permute(w, q).value, Permute(v, r).value;
    forall idx | InBounds(idx, out)
      ensures At(left, out, idx) == At(right, out, idx)
    {
      SourceIndexComposes(p, q, idx);
      assert At(left, out, idx) == At(w, sp, SourceIndex(q, idx));
    }
    Extensionality(left, right, out);
  }

  lemma PermuteByIdentity<T>(v: Nested<T>, s: Shape, r: seq<nat>)
    requires HasShape(v, s) && Positive(s) && |r| == |s| && forall i :: 0 <= i < |r| ==> r[i] == i
    ensures Permute(v, r) == Success(v)
  {
    AxesOfPermutation(r);
    PermuteIndexLaw(v, s, r);
    var w := Permute(v, r).value;
    assert PermuteShape(s, r) == s;
    forall idx | InBounds(idx, s)
      ensures At(w, s, idx) == At(v, s, idx)
    {
      IdentityIndex(r, idx);
    }
    Extensionality(w, v, s);
  }

  /** Permuting by the inverse order restores the array. */
  lemma PermuteInverse<T>(v: Nested<T>, s: Shape, p: seq<nat>, q: seq<nat>)
    requires HasShape(v, s) && Positive(s)
    requires IsPermutation(p) && IsPermutation(q) && |p| == |s| && AreInverse(p, q)
    ensures Permute(v, p).Success?
    ensures Permute(Permute(v, p).value, q) == Success(v)
  {
    PermuteComposes(v, s, p, q);
    PermuteByIdentity(v, s, Compose(p, q));
  }
}
