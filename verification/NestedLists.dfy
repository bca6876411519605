/** Tensors as the source holds them: arbitrarily nested lists, ragged ones included. */
module NestedLists {
  import opened Outcomes

  datatype Nested<+T> = Leaf(value: T) | List(items: seq<Nested<T>>)

  type Shape = seq<nat>

  // ---------------------------------------------------------------- the source's walks

  function Flatten<T>(v: Nested<T>): seq<T> {
    match v
    case Leaf(x) => [x]
    case List(items) => FlattenAll(items)
  }

  function FlattenAll<T>(items: seq<Nested<T>>): seq<T> {
    if items == [] then [] else Flatten(items[0]) + FlattenAll(items[1..])
  }

  /** The parity metrics' shape: the lengths met by walking down first elements. */
  function FirstShape<T>(v: Nested<T>): Shape {
    match v
    case Leaf(_) => []
    case List(items) => [|items|] + if items == [] then [] else FirstShape(items[0])
  }

  function FirstShapes<T(==)>(items: seq<Nested<T>>): set<Shape> {
    set x | x in items :: FirstShape(x)
  }

  /** The parity metrics' rectangularity test: one shape among the elements, at every level. */
  predicate IsRectangular<T(==)>(v: Nested<T>) {
    match v
    case Leaf(_) => true
    case List(items) =>
      && |FirstShapes(items)| <= 1
      && forall i :: 0 <= i < |items| ==> IsRectangular(items[i])
  }

  /** The payload validator's strict shape: `None` for a ragged list. */
  function RectShape<T>(v: Nested<T>): Option<Shape> {
    match v
    case Leaf(_) => Some([])
    case List(items) =>
      if exists i :: 0 <= i < |items| && RectShape(items[i]).None? then None
      else if exists i :: 0 <= i < |items| && RectShape(items[i]) != RectShape(items[0]) then None
      else Some([|items|] + if items == [] then [] else RectShape(items[0]).value)
  }

  /** Going one list down moves one dimension from what is left to what is found. */
  lemma OneListDown<T>(s: Shape, items: seq<Nested<T>>)
    ensures s + FirstShape(List(items)) == s + [|items|] + if items == [] then [] else FirstShape(items[0])
    ensures items != [] && items[0].Leaf? ==> s + [|items|] + FirstShape(items[0]) == s + [|items|]
  {
    var rest := if items == [] then [] else FirstShape(items[0]);
    assert s + ([|items|] + rest) == s + [|items|] + rest;
  }

  /** The shape loop of the parity metrics, step by step. `listing` says `cur` is a list. */
  method ShapeLoop<T>(v: Nested<T>) returns (s: Shape)
    ensures s == FirstShape(v)
  {
    s := [];
    var cur := v;
    var listing := v.List?;
    while listing
      invariant listing ==> cur.List? && FirstShape(v) == s + FirstShape(cur)
      invariant !listing ==> FirstShape(v) == s
      decreases listing, cur
    {
      var items := cur.items;
      OneListDown(s, items);
      s := s + [|items|];
      if items == [] {
        listing := false;
      } else {
        cur := items[0];
        listing := cur.List?;
      }
    }
  }

  // ---------------------------------------------------------------- reference notions

  /** `v` is a full array of the given dimensions. */
  ghost predicate HasShape<T>(v: Nested<T>, s: Shape)
    decreases s
  {
    if s == [] then v.Leaf?
    else v.List? && |v.items| == s[0] && forall i :: 0 <= i < |v.items| ==> HasShape(v.items[i], s[1..])
  }

  /** Only the last dimension may be zero: nothing can be known below an empty list. */
  ghost predicate Tight(s: Shape) {
    forall i :: 0 <= i < |s| - 1 ==> s[i] > 0
  }

  ghost predicate Positive(s: Shape) {
    forall i :: 0 <= i < |s| ==> s[i] > 0
  }

  function Product(s: Shape): nat {
    if s == [] then 1 else s[0] * Product(s[1..])
  }

  lemma TightTail(s: Shape)
    requires s != []
    ensures Tight(s) <==> (|s| > 1 ==> s[0] > 0) && Tight(s[1..])
  {
    if (|s| > 1 ==> s[0] > 0) && Tight(s[1..]) {
      forall i | 0 <= i < |s| - 1
        ensures s[i] > 0
      {
        if i > 0 {
          assert s[1..][i - 1] > 0;
        }
      }
    }
  }

  /** The validator's shape is the shape: it answers `s` exactly on the full arrays of
      dimensions `s` that determine `s`. */
  lemma {:induction false} RectShapeIsTheShape<T>(v: Nested<T>, s: Shape)
    ensures RectShape(v) == Some(s) <==> HasShape(v, s) && Tight(s)
    decreases v
  {
    match v
    case Leaf(_) =>
    case List(items) =>
      if s != [] {
        TightTail(s);
        forall i | 0 <= i < |items|
          ensures RectShape(items[i]) == Some(s[1..]) <==> HasShape(items[i], s[1..]) && Tight(s[1..])
        {
          RectShapeIsTheShape(items[i], s[1..]);
        }
        if items != [] {
          assert [|items|] + s[1..] == s <==> |items| == s[0];
          if RectShape(v) == Some(s) {
            assert RectShape(items[0]) == Some(s[1..]) by {
              assert s[1..] == ([|items|] + RectShape(items[0]).value)[1..];
            }
          }
        } else {
          assert RectShape(v) == Some([0]) && [0] == [s[0]] + s[1..] <==> s == [0];
        }
      }
  }

  lemma AtMostOneShape<T>(items: seq<Nested<T>>)
    ensures |FirstShapes(items)| <= 1 <==>
            forall i :: 0 <= i < |items| ==> FirstShape(items[i]) == FirstShape(items[0])
  {
    var shapes := FirstShapes(items);
    if items == [] {
      assert shapes == {};
    } else {
      var first := FirstShape(items[0]);
      assert items[0] in items && first in shapes;
      if forall i :: 0 <= i < |items| ==> FirstShape(items[i]) == first {
        forall x | x in items
          ensures FirstShape(x) == first
        {
          var i :| 0 <= i < |items| && items[i] == x;
        }
        assert shapes == {first};
      } else {
        var i :| 0 <= i < |items| && FirstShape(items[i]) != first;
        assert items[i] in items && FirstShape(items[i]) in shapes;
        assert {first, FirstShape(items[i])} <= shapes;
        CardinalityMonotone({first, FirstShape(items[i])}, shapes);
      }
    }
  }

  lemma CardinalityMonotone<T>(a: set<T>, b: set<T>)
    requires a <= b
    ensures |a| <= |b|
  {
    assert b == a + (b - a);
  }

  lemma OneMoreTime(n: nat, k: nat)
    ensures (n + 1) * k == k + n * k
  {
  }

  lemma {:induction false} LeafCountAll<T>(items: seq<Nested<T>>, s: Shape)
    requires forall i :: 0 <= i < |items| ==> HasShape(items[i], s)
    ensures |FlattenAll(items)| == |items| * Product(s)
    decreases items, 0
  {
    if items == [] {
    } else {
      LeafCount(items[0], s);
      LeafCountAll(items[1..], s);
      OneMoreTime(|items[1..]|, Product(s));
    }
  }

  /** A full array has as many leaves as the product of its dimensions. */
  lemma {:induction false} LeafCount<T>(v: Nested<T>, s: Shape)
    requires HasShape(v, s)
    ensures |Flatten(v)| == Product(s)
    decreases v, 1
  {
    if v.Leaf? {
    } else {
      LeafCountAll(v.items, s[1..]);
    }
  }

  lemma {:induction false} RectangularIffRectShape<T>(v: Nested<T>)
    ensures IsRectangular(v) <==> RectShape(v).Some?
    ensures RectShape(v).Some? ==> RectShape(v).value == FirstShape(v)
    decreases v
  {
    match v
    case Leaf(_) =>
    case List(items) =>
      AtMostOneShape(items);
      forall i | 0 <= i < |items|
        ensures IsRectangular(items[i]) <==> RectShape(items[i]).Some?
        ensures RectShape(items[i]).Some? ==> RectShape(items[i]).value == FirstShape(items[i])
      {
        RectangularIffRectShape(items[i]);
      }
      if RectShape(v).Some? {
        assert forall i :: 0 <= i < |items| ==> RectShape(items[i]).Some? && RectShape(items[i]) == RectShape(items[0]);
      } else if IsRectangular(v) {
        assert forall i :: 0 <= i < |items| ==> RectShape(items[i]) == Some(FirstShape(items[0]));
      }
  }

  /** The two independently written shape checkers agree, and the leaf count follows. */
  lemma ShapeCheckersAgree<T>(v: Nested<T>)
    ensures IsRectangular(v) <==> RectShape(v).Some?
    ensures IsRectangular(v) ==>
              && RectShape(v) == Some(FirstShape(v))
              && HasShape(v, FirstShape(v))
              && |Flatten(v)| == Product(FirstShape(v))
  {
    RectangularIffRectShape(v);
    if IsRectangular(v) {
      RectShapeIsTheShape(v, FirstShape(v));
      LeafCount(v, FirstShape(v));
    }
  }

  // ---------------------------------------------------------------- indices

  ghost predicate InBounds(idx: seq<nat>, s: Shape) {
    |idx| == |s| && forall k :: 0 <= k < |s| ==> idx[k] < s[k]
  }

  /** The leaf at a multi-index of a full array. */
  ghost function At<T>(v: Nested<T>, s: Shape, idx: seq<nat>): T
    requires HasShape(v, s) && InBounds(idx, s)
    decreases s
  {
    if s == [] then v.value else At(v.items[idx[0]], s[1..], idx[1..])
  }

  /** Full arrays of one shape are equal when they agree at every index. */
  lemma {:induction false} Extensionality<T>(v: Nested<T>, w: Nested<T>, s: Shape)
    requires HasShape(v, s) && HasShape(w, s)
    requires forall idx :: InBounds(idx, s) ==> At(v, s, idx) == At(w, s, idx)
    ensures v == w
    decreases s
  {
    if s == [] {
      assert InBounds([], s);
      assert At(v, s, []) == At(w, s, []);
    } else {
      forall i | 0 <= i < s[0]
        ensures v.items[i] == w.items[i]
      {
        forall idx | InBounds(idx, s[1..])
          ensures At(v.items[i], s[1..], idx) == At(w.items[i], s[1..], idx)
        {
          var full: seq<nat> := [i] + idx;
          assert full[1..] == idx;
          assert InBounds(full, s);
          assert At(v, s, full) == At(w, s, full);
        }
        Extensionality(v.items[i], w.items[i], s[1..]);
      }
      assert v.items == w.items;
    }
  }

  // ---------------------------------------------------------------- the order of the leaves

  /** Where the leaf at a multi-index stands when the last index runs fastest. */
  function RowMajor(idx: seq<nat>, s: Shape): nat
    requires |idx| == |s|
  {
    if s == [] then 0 else idx[0] * Product(s[1..]) + RowMajor(idx[1..], s[1..])
  }

  lemma {:induction false} FlattenAllAt<T>(items: seq<Nested<T>>, size: nat, i: nat, k: nat)
    requires forall j :: 0 <= j < |items| ==> |Flatten(items[j])| == size
    requires i < |items| && k < size
    ensures |FlattenAll(items)| == |items| * size
    ensures i * size + k < |items| * size && FlattenAll(items)[i * size + k] == Flatten(items[i])[k]
    decreases |items|
  {
    OneMoreTime(|items| - 1, size);
    if |items| == 1 {
      assert FlattenAll(items[1..]) == [];
      assert 0 * size == 0 && 1 * size == size;
    } else if i == 0 {
      FlattenAllAt(items[1..], size, 0, k);
    } else {
      FlattenAllAt(items[1..], size, i - 1, k);
      OneMoreTime(i - 1, size);
    }
  }

  /** Flattening lists the leaves in that order. */
  lemma {:induction false} FlattenAt<T>(v: Nested<T>, s: Shape, idx: seq<nat>)
    requires HasShape(v, s) && InBounds(idx, s)
    ensures RowMajor(idx, s) < |Flatten(v)| && Flatten(v)[RowMajor(idx, s)] == At(v, s, idx)
    decreases s
  {
    if s == [] {
    } else {
      forall j | 0 <= j < |v.items|
        ensures |Flatten(v.items[j])| == Product(s[1..])
      {
        LeafCount(v.items[j], s[1..]);
      }
      FlattenAt(v.items[idx[0]], s[1..], idx[1..]);
      FlattenAllAt(v.items, Product(s[1..]), idx[0], RowMajor(idx[1..], s[1..]));
    }
  }

  /** And nothing else: every position is that of some multi-index. */
  lemma {:induction false} FlattenOnto<T>(v: Nested<T>, s: Shape, p: nat) returns (idx: seq<nat>)
    requires HasShape(v, s) && p < |Flatten(v)|
    ensures InBounds(idx, s) && RowMajor(idx, s) == p
    decreases s
  {
    LeafCount(v, s);
    if s == [] {
      idx := [];
    } else {
      var size := Product(s[1..]);
      var i, k := SplitPosition(p, s[0], size);
      LeafCount(v.items[i], s[1..]);
      var tail := FlattenOnto(v.items[i], s[1..], k);
      idx := [i] + tail;
      assert idx[1..] == tail;
    }
  }

  lemma SplitPosition(p: nat, n: nat, size: nat) returns (i: nat, k: nat)
    requires p < n * size
    ensures i < n && k < size && p == i * size + k
  {
    i, k := 0, p;
    while k >= size
      invariant p == i * size + k && i < n
      decreases k
    {
      OneMoreTime(i, size);
      assert i + 1 == n ==> n * size == i * size + size;
      i, k := i + 1, k - size;
    }
  }
}
