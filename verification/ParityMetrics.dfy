/** Element-wise parity metrics between two nested numeric arrays. Finite leaves are reals. The
    square root is a parameter: the metrics are defined for any function in its place, and the
    laws that need a root ask for it at the two sums of squares only. */
module ParityMetrics {
  import opened NestedLists
  import opened Numbers
  import opened RealArithmetic

  /** A JSON number keeps its spelling: `1` and `1.0` are equal values with different bytes. */
  datatype ArrayLeaf = IntNum(integer: int) | FloatNum(number: Number)

  type Array = Nested<ArrayLeaf>

  function ToFloat(leaf: ArrayLeaf): Number {
    match leaf
    case IntNum(i) => Fin(i as real)
    case FloatNum(n) => n
  }

  function Floats(leaves: seq<ArrayLeaf>): (r: seq<Number>)
    ensures |r| == |leaves| && forall i :: 0 <= i < |r| ==> r[i] == ToFloat(leaves[i])
  {
    seq(|leaves|, i requires 0 <= i < |leaves| => ToFloat(leaves[i]))
  }

  function NonFiniteCount(ns: seq<Number>): nat {
    if ns == [] then 0 else (if ns[0].Fin? then 0 else 1) + NonFiniteCount(ns[1..])
  }

  lemma {:induction false} NoNonFinite(ns: seq<Number>)
    ensures NonFiniteCount(ns) == 0 <==> forall i :: 0 <= i < |ns| ==> ns[i].Fin?
  {
    if ns == [] {
    } else {
      NoNonFinite(ns[1..]);
      assert forall i :: 1 <= i < |ns| ==> ns[i] == ns[1..][i - 1];
    }
  }

  function Reals(ns: seq<Number>): (r: seq<real>)
    ensures |r| == |ns| && forall i :: 0 <= i < |r| && ns[i].Fin? ==> r[i] == ns[i].value
  {
    seq(|ns|, i requires 0 <= i < |ns| => if ns[i].Fin? then ns[i].value else 0.0)
  }

  // ---------------------------------------------------------------- sums and extremes

  function Sum(xs: seq<real>): real {
    if xs == [] then 0.0 else xs[0] + Sum(xs[1..])
  }

  function MaxOf(xs: seq<real>): real
    requires xs != []
  {
    if |xs| == 1 then xs[0] else (var m := MaxOf(xs[1..]); if xs[0] > m then xs[0] else m)
  }

  function Diffs(a: seq<real>, b: seq<real>): (r: seq<real>)
    requires |a| == |b|
    ensures |r| == |a| && forall i :: 0 <= i < |r| ==> r[i] == Abs(a[i] - b[i])
  {
    seq(|a|, i requires 0 <= i < |a| => Abs(a[i] - b[i]))
  }

  function Absolutes(a: seq<real>): (r: seq<real>)
    ensures |r| == |a| && forall i :: 0 <= i < |r| ==> r[i] == Abs(a[i])
  {
    seq(|a|, i requires 0 <= i < |a| => Abs(a[i]))
  }

  function Dot(a: seq<real>, b: seq<real>): real
    requires |a| == |b|
  {
    if a == [] then 0.0 else Times(a[0], b[0]) + Dot(a[1..], b[1..])
  }

  function MaxError(a: seq<real>, b: seq<real>): real
    requires |a| == |b| && a != []
  {
    MaxOf(Diffs(a, b))
  }

  function MeanError(a: seq<real>, b: seq<real>): real
    requires |a| == |b| && a != []
  {
    Over(Sum(Diffs(a, b)), |a| as real)
  }

  function NormProduct(na: real, nb: real): (r: real)
    requires na > 0.0 && nb > 0.0
    ensures r > 0.0
  {
    TimesPositive(na, nb);
    Times(na, nb)
  }

  function Cosine(a: seq<real>, b: seq<real>, sqrt: real -> real): real
    requires |a| == |b|
  {
    var na, nb := sqrt(Dot(a, a)), sqrt(Dot(b, b));
    if na > 0.0 && nb > 0.0 then Over(Dot(a, b), NormProduct(na, nb)) else if na == nb then 1.0 else 0.0
  }

  // ---------------------------------------------------------------- the metrics record

  datatype Metrics = Metrics(
    shapeRef: Shape,
    shapeCand: Shape,
    shapeMatch: bool,
    count: nat,
    nonfiniteRef: nat,
    nonfiniteCand: nat,
    maxAbsError: Number,
    meanAbsError: Number,
    relativeMae: Number,
    cosineSimilarity: real)

  function Max(a: nat, b: nat): nat {
    if a < b then b else a
  }

  function ComputeMetrics(reference: Array, candidate: Array, sqrt: real -> real): Metrics {
    var sr, sc := FirstShape(reference), FirstShape(candidate);
    var ref, cand := Floats(Flatten(reference)), Floats(Flatten(candidate));
    var nr, nc := NonFiniteCount(ref), NonFiniteCount(cand);
    if !IsRectangular(reference) || !IsRectangular(candidate) then
      Metrics(sr, sc, false, Max(|ref|, |cand|), nr, nc, PosInf, PosInf, PosInf, 0.0)
    else if sr != sc || |ref| != |cand| then
      Metrics(sr, sc, false, Max(|ref|, |cand|), nr, nc, PosInf, PosInf, PosInf, 0.0)
    else if nr != 0 || nc != 0 then
      Metrics(sr, sc, true, |ref|, nr, nc, PosInf, PosInf, PosInf, 0.0)
    else if ref == [] then
      Metrics(sr, sc, true, 0, 0, 0, Fin(0.0), Fin(0.0), Fin(0.0), 1.0)
    else
      var a, b := Reals(ref), Reals(cand);
      var mae := MeanError(a, b);
      var denom := Over(Sum(Absolutes(a)), |a| as real);
      var relative := if denom > 0.0 then Fin(Over(mae, denom)) else if mae == 0.0 then Fin(0.0) else PosInf;
      Metrics(sr, sc, true, |ref|, 0, 0, Fin(MaxError(a, b)), Fin(mae), relative, Cosine(a, b, sqrt))
  }

  /** The leaves as reals, for an array all of whose leaves are finite. */
  function Values(v: Array): seq<real> {
    Reals(Floats(Flatten(v)))
  }

  ghost predicate AllFinite(v: Array) {
    forall i :: 0 <= i < |Flatten(v)| ==> ToFloat(Flatten(v)[i]).Fin?
  }

  /** Two arrays whose elements can be compared one by one. */
  ghost predicate Comparable(a: Array, b: Array) {
    exists s: Shape :: HasShape(a, s) && HasShape(b, s) && Tight(s)
  }

  lemma AllFiniteCount(v: Array)
    ensures AllFinite(v) <==> NonFiniteCount(Floats(Flatten(v))) == 0
  {
    NoNonFinite(Floats(Flatten(v)));
  }

  /** Shapes match exactly for full arrays of one shape, and then so do the leaf counts: the
      separate comparison of the lengths never decides. */
  lemma ShapeMatchMeaning(a: Array, b: Array, sqrt: real -> real)
    ensures ComputeMetrics(a, b, sqrt).shapeMatch <==> Comparable(a, b)
    ensures IsRectangular(a) && IsRectangular(b) && FirstShape(a) == FirstShape(b) ==> |Flatten(a)| == |Flatten(b)|
  {
    ShapeCheckersAgree(a);
    ShapeCheckersAgree(b);
    if IsRectangular(a) && IsRectangular(b) && FirstShape(a) == FirstShape(b) {
      RectShapeIsTheShape(a, FirstShape(a));
    }
    if s: Shape :| HasShape(a, s) && HasShape(b, s) && Tight(s) {
      RectShapeIsTheShape(a, s);
      RectShapeIsTheShape(b, s);
    }
  }

  // ---------------------------------------------------------------- error bounds

  lemma {:induction false} MaxOfMeaning(xs: seq<real>)
    requires xs != []
    ensures MaxOf(xs) in xs
    ensures forall i :: 0 <= i < |xs| ==> xs[i] <= MaxOf(xs)
  {
    if |xs| <= 1 {
    } else {
      MaxOfMeaning(xs[1..]);
      assert forall i :: 1 <= i < |xs| ==> xs[i] == xs[1..][i - 1];
    }
  }

  /** The maximum error is within a limit exactly when every pair of leaves is. */
  lemma MaxErrorPointwise(a: seq<real>, b: seq<real>, limit: real)
    requires |a| == |b| && a != []
    ensures MaxError(a, b) <= limit <==> forall i :: 0 <= i < |a| ==> Abs(a[i] - b[i]) <= limit
  {
    var d := Diffs(a, b);
    MaxOfMeaning(d);
    var i :| 0 <= i < |d| && d[i] == MaxOf(d);
    assert Abs(a[i] - b[i]) == MaxOf(d);
    assert forall k :: 0 <= k < |a| ==> d[k] == Abs(a[k] - b[k]);
  }

  lemma {:induction false} SumBounds(xs: seq<real>, m: real)
    requires forall i :: 0 <= i < |xs| ==> 0.0 <= xs[i] <= m
    ensures 0.0 <= Sum(xs) <= Times(m, |xs| as real)
    ensures forall i :: 0 <= i < |xs| ==> xs[i] <= Sum(xs)
  {
    if xs == [] {
    } else {
      SumBounds(xs[1..], m);
      assert forall i :: 1 <= i < |xs| ==> xs[i] == xs[1..][i - 1];
      TimesSum(1.0, |xs[1..]| as real, m);
      TimesCommutes(m, |xs| as real);
      TimesCommutes(m, |xs[1..]| as real);
      assert Times(1.0, m) == m;
    }
  }

  /** `mean <= max <= count * mean`, for the absolute errors. */
  lemma MeanAndMaxError(a: seq<real>, b: seq<real>)
    requires |a| == |b| && a != []
    ensures 0.0 <= MeanError(a, b) <= MaxError(a, b) <= Times(MeanError(a, b), |a| as real)
  {
    var d, n := Diffs(a, b), |a| as real;
    MaxOfMeaning(d);
    SumBounds(d, MaxOf(d));
    var i :| 0 <= i < |d| && d[i] == MaxOf(d);
    assert MaxOf(d) <= Sum(d);
    MeanBounds(Sum(d), n, MaxOf(d));
  }

  lemma {:induction false} SumTriangle(xs: seq<real>, ys: seq<real>, zs: seq<real>)
    requires |xs| == |ys| == |zs| && forall i :: 0 <= i < |xs| ==> xs[i] <= ys[i] + zs[i]
    ensures Sum(xs) <= Sum(ys) + Sum(zs)
  {
    if xs == [] {
    } else {
      SumTriangle(xs[1..], ys[1..], zs[1..]);
    }
  }

  /** Both errors obey the triangle inequality. */
  lemma ErrorTriangle(a: seq<real>, b: seq<real>, c: seq<real>)
    requires |a| == |b| == |c| && a != []
    ensures MaxError(a, c) <= MaxError(a, b) + MaxError(b, c)
    ensures MeanError(a, c) <= MeanError(a, b) + MeanError(b, c)
  {
    MaxErrorPointwise(a, b, MaxError(a, b));
    MaxErrorPointwise(b, c, MaxError(b, c));
    forall i | 0 <= i < |a|
      ensures Abs(a[i] - c[i]) <= Abs(a[i] - b[i]) + Abs(b[i] - c[i]) <= MaxError(a, b) + MaxError(b, c)
    {
    }
    MaxErrorPointwise(a, c, MaxError(a, b) + MaxError(b, c));
    SumTriangle(Diffs(a, c), Diffs(a, b), Diffs(b, c));
    var n := |a| as real;
    OverSum(Sum(Diffs(a, c)), Sum(Diffs(a, b)), Sum(Diffs(b, c)), n);
  }

  // ---------------------------------------------------------------- cosine similarity

  lemma {:induction false} SquaredDistance(a: seq<real>, b: seq<real>, t: real)
    requires |a| == |b|
    ensures Quadratic(Dot(a, a), Dot(a, b), Dot(b, b), t) >= 0.0
  {
    if a == [] {
    } else {
      SquaredDistance(a[1..], b[1..], t);
      AddSquare(a[0], b[0], Dot(a[1..], a[1..]), Dot(a[1..], b[1..]), Dot(b[1..], b[1..]), t);
    }
  }

  lemma {:induction false} SquaresNonnegative(a: seq<real>)
    ensures Dot(a, a) >= 0.0
  {
    if a == [] {
    } else {
      SquareNonnegative(a[0]);
      SquaresNonnegative(a[1..]);
    }
  }

  lemma {:induction false} ZeroSquares(a: seq<real>, b: seq<real>)
    requires |a| == |b| && Dot(b, b) == 0.0
    ensures Dot(a, b) == 0.0
  {
    if a == [] {
    } else {
      SquaresNonnegative(b[1..]);
      SquareNonnegative(b[0]);
      SquareZero(b[0]);
      assert Times(a[0], 0.0) == 0.0;
      ZeroSquares(a[1..], b[1..]);
    }
  }

  /** The Cauchy-Schwarz inequality on the code's own sums. */
  lemma CauchySchwarz(a: seq<real>, b: seq<real>)
    requires |a| == |b|
    ensures Times(Dot(a, b), Dot(a, b)) <= Times(Dot(a, a), Dot(b, b))
  {
    var p, d, q := Dot(a, a), Dot(a, b), Dot(b, b);
    SquaresNonnegative(b);
    if q == 0.0 {
      ZeroSquares(a, b);
      assert Times(0.0, 0.0) == 0.0 && Times(p, 0.0) == 0.0;
    } else {
      var t := Over(d, q);
      OverTimes(d, q);
      SquaredDistance(a, b, t);
      Discriminant(p, d, q, t);
    }
  }

  ghost predicate IsRoot(r: real, x: real) {
    r >= 0.0 && Times(r, r) == x
  }

  /** Cosine similarity lies in [-1, 1] for all arrays of one shape. */
  lemma CosineBounded(a: seq<real>, b: seq<real>, sqrt: real -> real)
    requires |a| == |b|
    requires IsRoot(sqrt(Dot(a, a)), Dot(a, a)) && IsRoot(sqrt(Dot(b, b)), Dot(b, b))
    ensures -1.0 <= Cosine(a, b, sqrt) <= 1.0
  {
    var na, nb, d := sqrt(Dot(a, a)), sqrt(Dot(b, b)), Dot(a, b);
    if na > 0.0 && nb > 0.0 {
      CauchySchwarz(a, b);
      var n := NormProduct(na, nb);
      SquareOfProduct(na, nb);
      SquareBound(d, n);
      RatioBound(d, n);
    }
  }

  // ---------------------------------------------------------------- identity and stages

  lemma NumericMetrics(a: Array, b: Array, sqrt: real -> real)
    requires Comparable(a, b) && AllFinite(a) && AllFinite(b)
    ensures |Values(a)| == |Values(b)|
    ensures var m := ComputeMetrics(a, b, sqrt);
            if Values(a) == [] then m.maxAbsError == Fin(0.0) && m.meanAbsError == Fin(0.0)
            else m.maxAbsError == Fin(MaxError(Values(a), Values(b))) && m.meanAbsError == Fin(MeanError(Values(a), Values(b)))
  {
    ShapeMatchMeaning(a, b, sqrt);
    AllFiniteCount(a);
    AllFiniteCount(b);
  }

  /** Stages compose: within t1 and within t2 is within t1 + t2, for maximum and mean error. */
  lemma StagesCompose(a: Array, b: Array, c: Array, t1: real, t2: real, sqrt: real -> real)
    requires Comparable(a, b) && Comparable(b, c)
    requires AllFinite(a) && AllFinite(b) && AllFinite(c)
    ensures Comparable(a, c)
    ensures var ab, bc, ac := ComputeMetrics(a, b, sqrt), ComputeMetrics(b, c, sqrt), ComputeMetrics(a, c, sqrt);
            && ab.maxAbsError.Fin? && bc.maxAbsError.Fin? && ac.maxAbsError.Fin?
            && ab.meanAbsError.Fin? && bc.meanAbsError.Fin? && ac.meanAbsError.Fin?
            && (ab.maxAbsError.value <= t1 && bc.maxAbsError.value <= t2 ==> ac.maxAbsError.value <= t1 + t2)
            && (ab.meanAbsError.value <= t1 && bc.meanAbsError.value <= t2 ==> ac.meanAbsError.value <= t1 + t2)
  {
    var s: Shape :| HasShape(a, s) && HasShape(b, s) && Tight(s);
    var t: Shape :| HasShape(b, t) && HasShape(c, t) && Tight(t);
    RectShapeIsTheShape(b, s);
    RectShapeIsTheShape(b, t);
    assert HasShape(a, s) && HasShape(c, s) && Tight(s);
    NumericMetrics(a, b, sqrt);
    NumericMetrics(b, c, sqrt);
    NumericMetrics(a, c, sqrt);
    if Values(a) != [] {
      ErrorTriangle(Values(a), Values(b), Values(c));
    }
  }

  // ---------------------------------------------------------------- the metrics on the leaves

  lemma {:induction false} SumAppend(a: seq<real>, b: seq<real>)
    ensures Sum(a + b) == Sum(a) + Sum(b)
    ensures |a| == 1 ==> Sum(a) == a[0]
  {
    if a == [] {
      assert a + b == b;
    } else {
      assert (a + b)[1..] == a[1..] + b;
      SumAppend(a[1..], b);
    }
  }

  function Products(a: seq<real>, b: seq<real>): (r: seq<real>)
    requires |a| == |b|
    ensures |r| == |a| && forall i :: 0 <= i < |r| ==> r[i] == Times(a[i], b[i])
  {
    seq(|a|, i requires 0 <= i < |a| => Times(a[i], b[i]))
  }

  lemma {:induction false} DotIsSumOfProducts(a: seq<real>, b: seq<real>)
    requires |a| == |b|
    ensures Dot(a, b) == Sum(Products(a, b))
  {
    if a == [] {
    } else {
      DotIsSumOfProducts(a[1..], b[1..]);
      assert Products(a, b)[1..] == Products(a[1..], b[1..]);
    }
  }

  ghost function NonFinitePositions(ns: seq<Number>): set<nat> {
    set i: nat | i < |ns| && !ns[i].Fin?
  }

  lemma {:induction false} NonFiniteCountMeaning(ns: seq<Number>)
    ensures NonFiniteCount(ns) == |NonFinitePositions(ns)|
  {
    if ns == [] {
      assert NonFinitePositions(ns) == {};
    } else {
      var init, last := ns[..|ns| - 1], ns[|ns| - 1];
      NonFiniteCountMeaning(init);
      NonFiniteCountAppend(init, [last]);
      assert ns == init + [last];
      assert NonFinitePositions(ns) == NonFinitePositions(init) + if last.Fin? then {} else {|ns| - 1};
    }
  }

  lemma {:induction false} NonFiniteCountAppend(a: seq<Number>, b: seq<Number>)
    ensures NonFiniteCount(a + b) == NonFiniteCount(a) + NonFiniteCount(b)
  {
    if a == [] {
      assert a + b == b;
    } else {
      assert (a + b)[1..] == a[1..] + b;
      NonFiniteCountAppend(a[1..], b);
    }
  }

  /** The value of a numeric leaf. */
  function LeafNumber(leaf: ArrayLeaf): Number {
    match leaf
    case IntNum(i) => Fin(i as real)
    case FloatNum(n) => n
  }

  function LeafNumbers(v: Array): (r: seq<Number>)
    ensures |r| == |Flatten(v)| && forall i :: 0 <= i < |r| ==> r[i] == LeafNumber(Flatten(v)[i])
  {
    var leaves := Flatten(v);
    seq(|leaves|, i requires 0 <= i < |leaves| => LeafNumber(leaves[i]))
  }

  lemma LeafNumbersAreFloats(v: Array)
    ensures LeafNumbers(v) == Floats(Flatten(v))
  {
  }

  /** The values of a finite array stand in row-major order. */
  lemma ValuesAt(v: Array, s: Shape, idx: seq<nat>)
    requires AllFinite(v) && HasShape(v, s) && InBounds(idx, s)
    ensures RowMajor(idx, s) < |Values(v)|
    ensures match At(v, s, idx)
            case IntNum(i) => Values(v)[RowMajor(idx, s)] == i as real
            case FloatNum(n) => n.Fin? && Values(v)[RowMajor(idx, s)] == n.value
  {
    FlattenAt(v, s, idx);
    var p := RowMajor(idx, s);
    assert ToFloat(Flatten(v)[p]).Fin?;
  }

  /** Every field of the record for any two arrays, but the errors of comparable finite ones. */
  lemma MetricsMeaning(a: Array, b: Array, sqrt: real -> real)
    ensures var m := ComputeMetrics(a, b, sqrt);
            && (RectShape(a).Some? ==> HasShape(a, m.shapeRef) && Tight(m.shapeRef))
            && (RectShape(b).Some? ==> HasShape(b, m.shapeCand) && Tight(m.shapeCand))
            && (m.shapeMatch <==> Comparable(a, b))
            && m.nonfiniteRef == |NonFinitePositions(LeafNumbers(a))|
            && m.nonfiniteCand == |NonFinitePositions(LeafNumbers(b))|
            && m.count >= |Flatten(a)| && m.count >= |Flatten(b)| && (m.count == |Flatten(a)| || m.count == |Flatten(b)|)
            && (Comparable(a, b) ==> m.count == |Flatten(a)| == |Flatten(b)|)
            && (!(Comparable(a, b) && AllFinite(a) && AllFinite(b)) ==>
                  m.maxAbsError.PosInf? && m.meanAbsError.PosInf? && m.relativeMae.PosInf? && m.cosineSimilarity == 0.0)
  {
    ShapeMatchMeaning(a, b, sqrt);
    AllFiniteCount(a);
    AllFiniteCount(b);
    LeafNumbersAreFloats(a);
    LeafNumbersAreFloats(b);
    NonFiniteCountMeaning(LeafNumbers(a));
    NonFiniteCountMeaning(LeafNumbers(b));
    ShapeCheckersAgree(a);
    ShapeCheckersAgree(b);
    if RectShape(a).Some? {
      RectShapeIsTheShape(a, FirstShape(a));
    }
    if RectShape(b).Some? {
      RectShapeIsTheShape(b, FirstShape(b));
    }
  }

  // ---------------------------------------------------------------- limits on the leaves

  /** The sum of the differences is within a multiple of the sum of the reference's magnitudes;
      without any magnitude there must be no difference. */
  ghost predicate RelativeWithin(a: seq<real>, b: seq<real>, limit: real)
    requires |a| == |b|
  {
    if exists i :: 0 <= i < |a| && a[i] != 0.0 then Sum(Diffs(a, b)) <= Times(limit, Sum(Absolutes(a)))
    else a == b && limit >= 0.0
  }

  /** The dot product compared with a multiple of the norms; a zero vector is like another zero
      vector and unlike any other. */
  ghost predicate CosineAtLeast(a: seq<real>, b: seq<real>, limit: real, sqrt: real -> real)
    requires |a| == |b|
  {
    var na, nb := sqrt(Dot(a, a)), sqrt(Dot(b, b));
    if na > 0.0 && nb > 0.0 then Times(limit, Times(na, nb)) <= Dot(a, b)
    else limit <= if na == nb then 1.0 else 0.0
  }

  ghost predicate CosineAtMost(a: seq<real>, b: seq<real>, limit: real, sqrt: real -> real)
    requires |a| == |b|
  {
    var na, nb := sqrt(Dot(a, a)), sqrt(Dot(b, b));
    if na > 0.0 && nb > 0.0 then Dot(a, b) <= Times(limit, Times(na, nb))
    else (if na == nb then 1.0 else 0.0) <= limit
  }

  lemma CosineMeaning(a: seq<real>, b: seq<real>, limit: real, sqrt: real -> real)
    requires |a| == |b|
    ensures limit <= Cosine(a, b, sqrt) <==> CosineAtLeast(a, b, limit, sqrt)
    ensures Cosine(a, b, sqrt) <= limit <==> CosineAtMost(a, b, limit, sqrt)
  {
    var na, nb := sqrt(Dot(a, a)), sqrt(Dot(b, b));
    if na > 0.0 && nb > 0.0 {
      QuotientWithin(Dot(a, b), NormProduct(na, nb), limit);
    }
  }

  lemma ZeroNorm(a: seq<real>, root: real)
    requires IsRoot(root, Dot(a, a))
    ensures root == 0.0 <==> forall i :: 0 <= i < |a| ==> a[i] == 0.0
  {
    var m := Products(a, a);
    DotIsSumOfProducts(a, a);
    forall i | 0 <= i < |a|
      ensures m[i] >= 0.0 && (m[i] == 0.0 <==> a[i] == 0.0)
    {
      SquareNonnegative(a[i]);
      if m[i] == 0.0 {
        SquareZero(a[i]);
      }
      assert a[i] == 0.0 ==> Times(0.0, 0.0) == 0.0;
    }
    SumVanishes(m);
    if Times(root, root) == 0.0 {
      SquareZero(root);
    }
  }

  lemma {:induction false} SumVanishes(xs: seq<real>)
    requires forall i :: 0 <= i < |xs| ==> xs[i] >= 0.0
    ensures Sum(xs) >= 0.0
    ensures Sum(xs) == 0.0 <==> forall i :: 0 <= i < |xs| ==> xs[i] == 0.0
  {
    if xs == [] {
    } else {
      SumVanishes(xs[1..]);
      assert forall i :: 1 <= i < |xs| ==> xs[i] == xs[1..][i - 1];
    }
  }

  /** With true roots, two zero vectors are as similar as can be, and one alone is not similar. */
  lemma CosineOfZeroVectors(a: seq<real>, b: seq<real>, sqrt: real -> real)
    requires |a| == |b|
    requires IsRoot(sqrt(Dot(a, a)), Dot(a, a)) && IsRoot(sqrt(Dot(b, b)), Dot(b, b))
    requires (forall i :: 0 <= i < |a| ==> a[i] == 0.0) || forall i :: 0 <= i < |b| ==> b[i] == 0.0
    ensures Cosine(a, b, sqrt) == if a == b then 1.0 else 0.0
  {
    ZeroNorm(a, sqrt(Dot(a, a)));
    ZeroNorm(b, sqrt(Dot(b, b)));
  }

  lemma RelativeMeaning(a: Array, b: Array, limit: real, sqrt: real -> real)
    requires Comparable(a, b) && AllFinite(a) && AllFinite(b)
    ensures |Values(a)| == |Values(b)|
    ensures !Less(Fin(limit), ComputeMetrics(a, b, sqrt).relativeMae) <==> RelativeWithin(Values(a), Values(b), limit)
  {
    ShapeMatchMeaning(a, b, sqrt);
    AllFiniteCount(a);
    AllFiniteCount(b);
    var x, y := Values(a), Values(b);
    if x != [] {
      var n := |x| as real;
      var d, m := Diffs(x, y), Absolutes(x);
      SumVanishes(d);
      SumVanishes(m);
      OverTimes(Sum(d), n);
      OverTimes(Sum(m), n);
      assert Times(0.0, n) == 0.0;
      if exists i :: 0 <= i < |x| && x[i] != 0.0 {
        assert Sum(m) > 0.0 by {
          var i :| 0 <= i < |x| && x[i] != 0.0;
          assert m[i] != 0.0;
        }
        RatioOfMeansWithin(Sum(d), Sum(m), n, limit);
      } else {
        assert forall i :: 0 <= i < |m| ==> m[i] == 0.0;
        Unscale(Over(Sum(m), n), 0.0, n);
        DifferencesVanish(x, y);
        assert Sum(d) == 0.0 <==> x == y;
        Unscale(0.0, Over(Sum(d), n), n);
      }
    }
  }

  lemma DifferencesVanish(a: seq<real>, b: seq<real>)
    requires |a| == |b|
    ensures Sum(Diffs(a, b)) == 0.0 <==> a == b
  {
    var d := Diffs(a, b);
    SumVanishes(d);
    if a != b {
      var i :| 0 <= i < |a| && a[i] != b[i];
      assert d[i] != 0.0;
    }
  }
}
