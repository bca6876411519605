/** Interpolated percentiles and the safety bounds calibrated from them. */
module Calibration {
  import opened Outcomes
  import opened RealArithmetic
  import opened Sorting

  predicate AtMost(x: real, y: real) {
    x <= y
  }

  function SortedReals(values: seq<real>): seq<real> {
    Sort(values, AtMost)
  }

  lemma SortedRealsFacts(values: seq<real>)
    ensures var s := SortedReals(values);
            && |s| == |values| && multiset(s) == multiset(values)
            && forall i, j :: 0 <= i <= j < |s| ==> s[i] <= s[j]
  {
    SortSorts(values, AtMost);
    assert |multiset(SortedReals(values))| == |multiset(values)|;
  }

  // ---------------------------------------------------------------- percentiles

  function Interpolate(s: seq<real>, k: real): real
    requires s != [] && 0.0 <= k <= (|s| - 1) as real
  {
    var lo := k.Floor;
    var hi := if lo + 1 < |s| - 1 then lo + 1 else |s| - 1;
    s[lo] + Times(s[hi] - s[lo], k - lo as real)
  }

  function Rank(n: nat, p: real): (k: real)
    requires n > 0 && 0.0 <= p <= 1.0
    ensures 0.0 <= k <= (n - 1) as real
  {
    RankInRange((n - 1) as real, p);
    Times((n - 1) as real, p)
  }

  lemma RankInRange(m: real, p: real)
    requires m >= 0.0 && 0.0 <= p <= 1.0
    ensures 0.0 <= Times(m, p) <= m
  {
    TimesNonnegative(m, p);
    TimesNonnegative(m, 1.0 - p);
    assert Times(m, p) + Times(m, 1.0 - p) == m;
  }

  /** `_percentile`, for a quantile between zero and one. */
  function Percentile(values: seq<real>, p: real): Option<real>
    requires 0.0 <= p <= 1.0
  {
    if values == [] then None
    else
      SortedRealsFacts(values);
      Some(Interpolate(SortedReals(values), Rank(|values|, p)))
  }

  lemma InterpolateBetween(s: seq<real>, k: real)
    requires s != [] && 0.0 <= k <= (|s| - 1) as real
    requires forall i, j :: 0 <= i <= j < |s| ==> s[i] <= s[j]
    ensures s[k.Floor] <= Interpolate(s, k)
    ensures forall j :: k.Floor < j < |s| ==> Interpolate(s, k) <= s[j]
    ensures Interpolate(s, k) <= s[|s| - 1]
  {
    var lo := k.Floor;
    var hi := if lo + 1 < |s| - 1 then lo + 1 else |s| - 1;
    RankInRange(s[hi] - s[lo], k - lo as real);
  }

  /** The percentile lies between the least and the greatest sample. */
  lemma PercentileWithinSamples(values: seq<real>, p: real)
    requires 0.0 <= p <= 1.0 && values != []
    ensures exists low, high :: low in values && high in values && low <= Percentile(values, p).value <= high
    ensures (forall v :: v in values ==> v <= Percentile(values, 1.0).value)
            && forall v :: v in values ==> Percentile(values, 0.0).value <= v
  {
    var s := SortedReals(values);
    SortedRealsFacts(values);
    InterpolateBetween(s, Rank(|s|, p));
    assert s[0] in multiset(s) && s[|s| - 1] in multiset(s);
    assert s[0] in values && s[|s| - 1] in values;
    assert s[0] <= Percentile(values, p).value <= s[|s| - 1];
    assert Rank(|s|, 1.0) == (|s| - 1) as real && Rank(|s|, 0.0) == 0.0;
    InterpolateBetween(s, Rank(|s|, 1.0));
    assert Interpolate(s, 0.0) == s[0] by {
      assert Times(s[if 0 + 1 < |s| - 1 then 1 else |s| - 1] - s[0], 0.0) == 0.0;
    }
    forall v | v in values
      ensures s[0] <= v <= s[|s| - 1]
    {
      assert v in multiset(s);
      var i :| 0 <= i < |s| && s[i] == v;
    }
  }

  /** Between two neighbouring samples the percentile runs linearly, and reaches both: the rank
      of a sample gives that sample. */
  lemma InterpolateLinear(s: seq<real>, j: nat, k: real)
    requires j + 1 < |s| && j as real <= k <= (j + 1) as real
    ensures Interpolate(s, k) == s[j] + Times(s[j + 1] - s[j], k - j as real)
    ensures k == j as real ==> Interpolate(s, k) == s[j]
    ensures k == (j + 1) as real ==> Interpolate(s, k) == s[j + 1]
  {
    assert Times(s[j + 1] - s[j], 0.0) == 0.0 && Times(s[j + 1] - s[j], 1.0) == s[j + 1] - s[j];
    if k == (j + 1) as real {
      assert k.Floor == j + 1;
      var hi := if j + 2 < |s| - 1 then j + 2 else |s| - 1;
      assert Times(s[hi] - s[j + 1], 0.0) == 0.0;
    } else {
      assert k.Floor == j;
    }
  }

  lemma PercentileLinear(values: seq<real>, p: real, j: nat)
    requires 0.0 <= p <= 1.0 && j + 1 < |values| && j as real <= Rank(|values|, p) <= (j + 1) as real
    ensures var s := SortedReals(values);
            && |s| == |values|
            && Percentile(values, p).value == s[j] + Times(s[j + 1] - s[j], Rank(|values|, p) - j as real)
            && (Rank(|values|, p) == j as real ==> Percentile(values, p).value == s[j])
            && (Rank(|values|, p) == (j + 1) as real ==> Percentile(values, p).value == s[j + 1])
  {
    SortedRealsFacts(values);
    InterpolateLinear(SortedReals(values), j, Rank(|values|, p));
  }

  /** The percentile of any ascending arrangement of the samples, cell by cell: where `(n - 1) p`
      falls between two neighbours it lies as far between them. */
  lemma PercentileInOrder(values: seq<real>, s: seq<real>, p: real, j: nat)
    requires 0.0 <= p <= 1.0 && multiset(s) == multiset(values)
    requires forall i, k :: 0 <= i <= k < |s| ==> s[i] <= s[k]
    requires j + 1 < |s| && j as real <= Times((|s| - 1) as real, p) <= (j + 1) as real
    ensures Percentile(values, p) == Some(s[j] + Times(s[j + 1] - s[j], Times((|s| - 1) as real, p) - j as real))
  {
    SortedRealsAre(values, s);
    PercentileLinear(values, p, j);
  }

  lemma SortedRealsAre(values: seq<real>, s: seq<real>)
    requires multiset(s) == multiset(values)
    requires forall i, k :: 0 <= i <= k < |s| ==> s[i] <= s[k]
    ensures SortedReals(values) == s && |s| == |values|
  {
    assert |multiset(s)| == |s| && |multiset(values)| == |values|;
    SortOfSorted(s, AtMost);
    SortOfPermutation(values, s, AtMost);
  }

  lemma PercentileOfFew(values: seq<real>, p: real)
    requires 0.0 <= p <= 1.0
    ensures Percentile(values, p).None? <==> values == []
    ensures |values| == 1 ==> Percentile(values, p) == Some(values[0])
  {
    if values != [] {
      PercentileWithinSamples(values, p);
    }
  }

  /** Percentiles do not depend on the order of the samples. */
  lemma PercentileOfPermutation(values: seq<real>, other: seq<real>, p: real)
    requires 0.0 <= p <= 1.0 && multiset(values) == multiset(other)
    ensures Percentile(values, p) == Percentile(other, p)
  {
    assert |multiset(values)| == |values| && |multiset(other)| == |other|;
    SortOfPermutation(values, other, AtMost);
  }

  lemma SameCellMonotone(d: real, f: real, g: real)
    requires d >= 0.0 && f <= g
    ensures Times(d, f) <= Times(d, g)
  {
    TimesNonnegative(d, g - f);
    assert Times(d, g) == Times(d, f) + Times(d, g - f);
  }

  lemma InterpolateMonotone(s: seq<real>, k: real, l: real)
    requires s != [] && 0.0 <= k <= l <= (|s| - 1) as real
    requires forall i, j :: 0 <= i <= j < |s| ==> s[i] <= s[j]
    ensures Interpolate(s, k) <= Interpolate(s, l)
  {
    if k.Floor == l.Floor {
      var lo := k.Floor;
      var hi := if lo + 1 < |s| - 1 then lo + 1 else |s| - 1;
      SameCellMonotone(s[hi] - s[lo], k - lo as real, l - lo as real);
    } else {
      InterpolateBetween(s, k);
      InterpolateBetween(s, l);
      assert Interpolate(s, k) <= s[l.Floor];
    }
  }

  /** A larger quantile never gives a smaller percentile. */
  lemma PercentileMonotone(values: seq<real>, p: real, q: real)
    requires 0.0 <= p <= q <= 1.0 && values != []
    ensures Percentile(values, p).value <= Percentile(values, q).value
  {
    SortedRealsFacts(values);
    SameCellMonotone((|values| - 1) as real, p, q);
    InterpolateMonotone(SortedReals(values), Rank(|values|, p), Rank(|values|, q));
  }

  // ---------------------------------------------------------------- coverage

  function CountAtMost(values: seq<real>, bound: real): nat {
    if values == [] then 0 else (if values[0] <= bound then 1 else 0) + CountAtMost(values[1..], bound)
  }

  /** The count is that of the places at which a sample does not exceed the bound. */
  lemma {:induction false} CountIsPlaces(values: seq<real>, bound: real)
    ensures CountAtMost(values, bound) == |set i | 0 <= i < |values| && values[i] <= bound|
    decreases |values|
  {
    var places := set i | 0 <= i < |values| && values[i] <= bound;
    if values == [] {
      assert places == {};
    } else {
      var k := |values| - 1;
      var init := values[..k];
      CountIsPlaces(init, bound);
      CountAppend(init, [values[k]], bound);
      assert init + [values[k]] == values;
      var before := set i | 0 <= i < |init| && init[i] <= bound;
      assert places == before + if values[k] <= bound then {k} else {};
      assert k !in before;
    }
  }

  lemma CountWithout(b: seq<real>, i: nat, bound: real)
    requires i < |b|
    ensures multiset(b[..i] + b[i + 1..]) == multiset(b) - multiset{b[i]}
    ensures CountAtMost(b, bound) == CountAtMost([b[i]], bound) + CountAtMost(b[..i] + b[i + 1..], bound)
  {
    assert b == b[..i] + ([b[i]] + b[i + 1..]);
    CountAppend(b[..i], b[i + 1..], bound);
    CountAppend(b[..i], [b[i]] + b[i + 1..], bound);
    CountAppend([b[i]], b[i + 1..], bound);
  }

  lemma {:induction false} CountOfMultiset(a: seq<real>, b: seq<real>, bound: real)
    requires multiset(a) == multiset(b)
    ensures CountAtMost(a, bound) == CountAtMost(b, bound)
    decreases |a|
  {
    assert |multiset(a)| == |a| && |multiset(b)| == |b|;
    if a != [] {
      assert a == [a[0]] + a[1..];
      assert a[0] in multiset(b);
      var i :| 0 <= i < |b| && b[i] == a[0];
      assert multiset(a[1..]) == multiset(a) - multiset{a[0]};
      CountWithout(b, i, bound);
      CountOfMultiset(a[1..], b[..i] + b[i + 1..], bound);
    }
  }

  lemma {:induction false} CountAppend(a: seq<real>, b: seq<real>, bound: real)
    ensures CountAtMost(a + b, bound) == CountAtMost(a, bound) + CountAtMost(b, bound)
  {
    if a == [] {
      assert a + b == b;
    } else {
      assert (a + b)[1..] == a[1..] + b;
      CountAppend(a[1..], b, bound);
    }
  }

  lemma {:induction false} CountAll(values: seq<real>, bound: real)
    requires forall i :: 0 <= i < |values| ==> values[i] <= bound
    ensures CountAtMost(values, bound) == |values|
  {
    if values == [] {
    } else {
      CountAll(values[1..], bound);
    }
  }

  /** At least `floor((n - 1) q) + 1` samples do not exceed any bound from the percentile up. */
  lemma PercentileCovers(values: seq<real>, q: real, bound: real)
    requires 0.0 <= q <= 1.0 && values != [] && Percentile(values, q).value <= bound
    ensures CountAtMost(values, bound) >= Rank(|values|, q).Floor + 1
  {
    var s := SortedReals(values);
    SortedRealsFacts(values);
    var k := Rank(|s|, q);
    InterpolateBetween(s, k);
    var below := s[..k.Floor + 1];
    CountAll(below, bound);
    CountAppend(below, s[k.Floor + 1..], bound);
    assert below + s[k.Floor + 1..] == s;
    CountOfMultiset(s, values, bound);
  }

  // ---------------------------------------------------------------- the calibrated bound

  function MaxReal(x: real, y: real): real {
    if x >= y then x else y
  }

  function MinReal(x: real, y: real): real {
    if x <= y then x else y
  }

  /** The recommended bound before its rounding to six places, and whether a warning says it
      exceeds the base profile; without samples the base bound stands. */
  function Bound(percentile: Option<real>, margin: real, minimum: real, base: Option<real>, conservative: bool): (Option<real>, bool) {
    if percentile.None? then (base, false)
    else
      var rec := MaxReal(Times(percentile.value, 1.0 + margin), minimum);
      (Some(if conservative && base.Some? then MinReal(rec, base.value) else rec), base.Some? && rec > base.value)
  }

  lemma MarginRaises(p: real, margin: real)
    requires p >= 0.0 && margin >= 0.0
    ensures Times(p, 1.0 + margin) >= p
  {
    TimesNonnegative(p, margin);
    assert Times(p, 1.0 + margin) == p + Times(p, margin);
  }

  lemma PercentileNonnegative(values: seq<real>, q: real)
    requires 0.0 <= q <= 1.0 && values != [] && forall i :: 0 <= i < |values| ==> values[i] >= 0.0
    ensures Percentile(values, q).value >= 0.0
  {
    PercentileWithinSamples(values, q);
    var low :| low in values && low <= Percentile(values, q).value;
    var i :| 0 <= i < |values| && values[i] == low;
  }

  /** With a nonnegative margin and outside conservative mode the calibrated bound covers at
      least `floor((n - 1) q) + 1` of the nonnegative samples it was calibrated on, and is
      never below the clamp. */
  lemma CalibratedBoundCovers(values: seq<real>, q: real, margin: real, minimum: real, base: Option<real>)
    requires 0.0 <= q <= 1.0 && values != [] && margin >= 0.0
    requires forall i :: 0 <= i < |values| ==> values[i] >= 0.0
    ensures var bound := Bound(Percentile(values, q), margin, minimum, base, false).0;
            && bound.Some? && bound.value >= minimum
            && CountAtMost(values, bound.value) >= Rank(|values|, q).Floor + 1
  {
    PercentileNonnegative(values, q);
    MarginRaises(Percentile(values, q).value, margin);
    PercentileCovers(values, q, Bound(Percentile(values, q), margin, minimum, base, false).0.value);
  }

  /** In conservative mode the bound never exceeds a base bound, and it differs from the
      recommendation exactly when the warning is given. */
  lemma ConservativeBoundKeepsBase(percentile: Option<real>, margin: real, minimum: real, base: real)
    ensures var (bound, warned) := Bound(percentile, margin, minimum, Some(base), true);
            && bound.Some? && bound.value <= base
            && (warned <==> bound != Bound(percentile, margin, minimum, Some(base), false).0)
  {
  }

  /** The bound and its warning, case by case: without samples the base bound stands; otherwise the
      raised percentile and the clamp are what the bound must reach, and a conservative calibration
      never goes past the base bound, where the warning says that it would have. */
  lemma BoundMeaning(p: real, margin: real, minimum: real, base: Option<real>, conservative: bool)
    ensures var (bound, warned) := Bound(Some(p), margin, minimum, base, conservative);
            && bound.Some?
            && (warned <==> base.Some? && (Times(p, 1.0 + margin) > base.value || minimum > base.value))
            && (conservative && warned ==> bound == base)
            && (!(conservative && warned) ==>
                  && bound.value >= Times(p, 1.0 + margin) && bound.value >= minimum
                  && (bound.value == Times(p, 1.0 + margin) || bound.value == minimum))
    ensures Bound(None, margin, minimum, base, conservative) == (base, false)
  {
  }

  // ---------------------------------------------------------------- the final rounding

  /** The nearest integer, ties to the even one. */
  function Nearest(x: real): int {
    var below := x.Floor;
    var rest := x - below as real;
    if rest < 0.5 || (rest == 0.5 && below % 2 == 0) then below else below + 1
  }

  /** To six decimal places. */
  function RoundSix(x: real): real {
    Nearest(x * 1000000.0) as real / 1000000.0
  }

  /** A number rounds to the whole number at most a half away, of two such to the even one. */
  lemma NearestMeaning(x: real, n: int)
    ensures Nearest(x) == n <==>
            && n as real - 0.5 <= x <= n as real + 0.5
            && (x == n as real - 0.5 || x == n as real + 0.5 ==> n % 2 == 0)
  {
    var below := x.Floor;
    assert n == below || n == below + 1 || n < below || n > below + 1;
  }

  lemma NearestIs(x: real, n: int)
    requires n as real - 0.5 < x < n as real + 0.5
    ensures Nearest(x) == n
  {
    assert x.Floor == n || x.Floor == n - 1;
  }

  lemma RoundSixNear(x: real)
    ensures x - 0.0000005 <= RoundSix(x) <= x + 0.0000005
  {
  }

  lemma RoundSixMonotone(x: real, y: real)
    requires x <= y
    ensures RoundSix(x) <= RoundSix(y)
  {
    var a, b := x * 1000000.0, y * 1000000.0;
    assert a <= b && a.Floor <= b.Floor;
  }

  /** The bound as it enters the profile; a base bound that stands is not rounded. */
  function FinalBound(percentile: Option<real>, margin: real, minimum: real, base: Option<real>, conservative: bool): Option<real> {
    var bound := Bound(percentile, margin, minimum, base, conservative).0;
    if percentile.None? then bound else Some(RoundSix(bound.value))
  }

  function RoundedAll(values: seq<real>): (r: seq<real>)
    ensures |r| == |values| && forall i :: 0 <= i < |r| ==> r[i] == RoundSix(values[i])
  {
    seq(|values|, i requires 0 <= i < |values| => RoundSix(values[i]))
  }

  lemma {:induction false} RoundedCount(values: seq<real>, bound: real)
    ensures CountAtMost(RoundedAll(values), RoundSix(bound)) >= CountAtMost(values, bound)
    ensures CountAtMost(values, RoundSix(bound) + 0.0000005) >= CountAtMost(values, bound)
  {
    if values == [] {
    } else {
      RoundedCount(values[1..], bound);
      RoundSixNear(bound);
      if values[0] <= bound {
        RoundSixMonotone(values[0], bound);
      }
      assert RoundedAll(values)[1..] == RoundedAll(values[1..]);
    }
  }

  lemma UnroundedCovers(values: seq<real>, q: real, margin: real, minimum: real, base: Option<real>) returns (unrounded: real)
    requires 0.0 <= q <= 1.0 && values != [] && margin >= 0.0
    requires forall i :: 0 <= i < |values| ==> values[i] >= 0.0
    ensures CountAtMost(values, unrounded) >= Rank(|values|, q).Floor + 1
    ensures FinalBound(Percentile(values, q), margin, minimum, base, false) == Some(RoundSix(unrounded))
  {
    CalibratedBoundCovers(values, q, margin, minimum, base);
    unrounded := Bound(Percentile(values, q), margin, minimum, base, false).0.value;
    FinalIsRounded(Percentile(values, q), margin, minimum, base, unrounded);
  }

  /** After the rounding the bound still covers as many samples, rounded alike or with half a unit
      of the last place to spare. */
  lemma FinalBoundCovers(values: seq<real>, q: real, margin: real, minimum: real, base: Option<real>) returns (bound: real)
    requires 0.0 <= q <= 1.0 && values != [] && margin >= 0.0
    requires forall i :: 0 <= i < |values| ==> values[i] >= 0.0
    ensures FinalBound(Percentile(values, q), margin, minimum, base, false) == Some(bound)
    ensures CountAtMost(RoundedAll(values), bound) >= Rank(|values|, q).Floor + 1
    ensures CountAtMost(values, bound + 0.0000005) >= Rank(|values|, q).Floor + 1
  {
    var unrounded := UnroundedCovers(values, q, margin, minimum, base);
    RoundedCount(values, unrounded);
    bound := RoundSix(unrounded);
  }

  lemma FinalIsRounded(percentile: Option<real>, margin: real, minimum: real, base: Option<real>, unrounded: real)
    requires percentile.Some? && Bound(percentile, margin, minimum, base, false).0 == Some(unrounded)
    ensures FinalBound(percentile, margin, minimum, base, false) == Some(RoundSix(unrounded))
  {
  }

  // ---------------------------------------------------------------- when the emitted bound covers

  predicate Nonnegative(values: seq<real>) {
    forall i :: 0 <= i < |values| ==> values[i] >= 0.0
  }

  /** The emitted bound covers as many samples as the quantile promises. */
  predicate Covers(values: seq<real>, q: real, margin: real, minimum: real, base: Option<real>)
    requires 0.0 <= q <= 1.0 && values != []
  {
    var bound := FinalBound(Percentile(values, q), margin, minimum, base, false);
    bound.Some? && CountAtMost(values, bound.value) >= Rank(|values|, q).Floor + 1
  }

  /** The margin on the clamp makes up for the rounding. */
  predicate MarginOutweighsRounding(margin: real, minimum: real) {
    Times(RoundSix(minimum), margin) >= 0.0000005
  }

  /** The recommended value after rounding. */
  function Emitted(percentile: real, margin: real, minimum: real): real {
    RoundSix(MaxReal(Times(percentile, 1.0 + margin), minimum))
  }

  lemma FinalIsEmitted(values: seq<real>, q: real, margin: real, minimum: real, base: Option<real>)
    requires 0.0 <= q <= 1.0 && values != []
    ensures FinalBound(Percentile(values, q), margin, minimum, base, false)
            == Some(Emitted(Percentile(values, q).value, margin, minimum))
  {
  }

  lemma OnePlus(x: real, margin: real)
    ensures Times(x, 1.0 + margin) == x + Times(x, margin)
  {
  }

  lemma RoundSixNonnegative(x: real)
    requires x >= 0.0
    ensures RoundSix(x) >= 0.0
  {
    assert (x * 1000000.0).Floor >= 0;
  }

  /** Nothing rounds below the percentile: rounding takes off at most half a unit, and the margin
      puts on at least that much. */
  lemma EmittedReachesPercentile(p: real, margin: real, minimum: real)
    requires p >= 0.0 && margin >= 0.0 && minimum >= 0.0 && MarginOutweighsRounding(margin, minimum)
    ensures Emitted(p, margin, minimum) >= p
  {
    var raw := MaxReal(Times(p, 1.0 + margin), minimum);
    var emitted, clamp := RoundSix(raw), RoundSix(minimum);
    RoundSixMonotone(minimum, raw);
    RoundSixNear(raw);
    EmittedNotBelow(p, margin, raw, emitted, clamp);
  }

  lemma EmittedNotBelow(p: real, margin: real, raw: real, emitted: real, clamp: real)
    requires margin >= 0.0 && Times(p, 1.0 + margin) <= raw <= emitted + 0.0000005
    requires clamp <= emitted && Times(clamp, margin) >= 0.0000005
    ensures emitted >= p
  {
    assert Times(clamp, 0.0) == 0.0;
    TimesMonotone(clamp, emitted, margin);
    OnePlus(emitted, margin);
    if emitted < p {
      TimesStrict(emitted, p, 1.0 + margin);
    }
  }

  /** Everything less than half a unit away from a rounded value rounds to it. */
  lemma RoundsInto(x: real, y: real)
    requires RoundSix(y) - 0.0000005 < x < RoundSix(y) + 0.0000005
    ensures RoundSix(x) == RoundSix(y)
  {
    NearestIs(x * 1000000.0, Nearest(y * 1000000.0));
  }

  /** When the margin is too small, a sample just above the rounded clamp is rounded below itself. */
  lemma LostSample(margin: real, minimum: real) returns (v: real)
    requires margin >= 0.0 && minimum >= 0.0 && !MarginOutweighsRounding(margin, minimum)
    ensures v >= 0.0 && Emitted(v, margin, minimum) < v
  {
    var clamp := RoundSix(minimum);
    RoundSixNonnegative(minimum);
    RoundSixNear(minimum);
    TimesNonnegative(clamp, margin);
    var spare := Over(0.0000005 - Times(clamp, margin), 2.0 * (1.0 + margin));
    OverTimes(0.0000005 - Times(clamp, margin), 2.0 * (1.0 + margin));
    SpareIsPositive(spare, margin, 0.0000005 - Times(clamp, margin));
    v := clamp + spare;
    TimesSum(clamp, spare, 1.0 + margin);
    OnePlus(clamp, margin);
    MarginRaises(v, margin);
    var raised := Times(v, 1.0 + margin);
    assert clamp < raised < clamp + 0.0000005;
    RoundsInto(raised, minimum);
  }

  lemma SpareIsPositive(spare: real, margin: real, room: real)
    requires margin >= 0.0 && room > 0.0 && Times(spare, 2.0 * (1.0 + margin)) == room
    ensures spare > 0.0 && Times(spare, 1.0 + margin) < room
  {
    assert Times(spare, 2.0 * (1.0 + margin)) == 2.0 * Times(spare, 1.0 + margin);
    assert Times(0.0, 1.0 + margin) == 0.0;
    Unscale(0.0, spare, 1.0 + margin);
  }

  function Constant(n: nat, v: real): (r: seq<real>)
    ensures |r| == n && forall i :: 0 <= i < n ==> r[i] == v
  {
    seq(n, _ => v)
  }

  lemma {:induction false} NoneAtMost(values: seq<real>, bound: real)
    requires forall i :: 0 <= i < |values| ==> values[i] > bound
    ensures CountAtMost(values, bound) == 0
  {
    if values == [] {
    } else {
      NoneAtMost(values[1..], bound);
    }
  }

  lemma ConstantPercentile(n: nat, v: real, q: real)
    requires n > 0 && 0.0 <= q <= 1.0
    ensures Percentile(Constant(n, v), q) == Some(v)
  {
    PercentileWithinSamples(Constant(n, v), q);
  }

  /** Samples that all equal a lost sample are all lost, whatever the quantile. */
  lemma LostSamplesAreNotCovered(n: nat, v: real, q: real, margin: real, minimum: real, base: Option<real>)
    requires n > 0 && 0.0 <= q <= 1.0 && Emitted(v, margin, minimum) < v
    ensures !Covers(Constant(n, v), q, margin, minimum, base)
  {
    ConstantPercentile(n, v, q);
    FinalIsEmitted(Constant(n, v), q, margin, minimum, base);
    NoneAtMost(Constant(n, v), Emitted(v, margin, minimum));
  }

  lemma CoversUnderMargin(values: seq<real>, q: real, margin: real, minimum: real, base: Option<real>)
    requires 0.0 <= q <= 1.0 && values != [] && Nonnegative(values)
    requires margin >= 0.0 && minimum >= 0.0 && MarginOutweighsRounding(margin, minimum)
    ensures Covers(values, q, margin, minimum, base)
  {
    PercentileNonnegative(values, q);
    var p := Percentile(values, q).value;
    EmittedReachesPercentile(p, margin, minimum);
    FinalIsEmitted(values, q, margin, minimum, base);
    PercentileCovers(values, q, Emitted(p, margin, minimum));
  }

  lemma EmittedCovers(values: seq<real>, q: real, margin: real, minimum: real, base: Option<real>) returns (emitted: real)
    requires 0.0 <= q <= 1.0 && values != [] && Nonnegative(values)
    requires margin >= 0.0 && minimum >= 0.0 && MarginOutweighsRounding(margin, minimum)
    ensures FinalBound(Percentile(values, q), margin, minimum, base, false) == Some(emitted) && emitted >= 0.0
    ensures CountAtMost(values, emitted) >= Rank(|values|, q).Floor + 1
  {
    CoversUnderMargin(values, q, margin, minimum, base);
    FinalIsEmitted(values, q, margin, minimum, base);
    emitted := Emitted(Percentile(values, q).value, margin, minimum);
    RoundSixNonnegative(MaxReal(Times(Percentile(values, q).value, 1.0 + margin), minimum));
  }

  /** The emitted bound covers the promised number of samples, for all samples of at least a given
      number, exactly when the margin on the clamp outweighs the rounding. */
  lemma FinalBoundCoversIff(q: real, margin: real, minimum: real, base: Option<real>, least: nat)
    requires 0.0 <= q <= 1.0 && margin >= 0.0 && minimum >= 0.0
    ensures (forall values: seq<real> :: values != [] && |values| >= least && Nonnegative(values) ==>
               Covers(values, q, margin, minimum, base))
            <==> MarginOutweighsRounding(margin, minimum)
  {
    if MarginOutweighsRounding(margin, minimum) {
      forall values: seq<real> | values != [] && |values| >= least && Nonnegative(values)
        ensures Covers(values, q, margin, minimum, base)
      {
        CoversUnderMargin(values, q, margin, minimum, base);
      }
    } else {
      var v := LostSample(margin, minimum);
      var n := if least == 0 then 1 else least;
      LostSamplesAreNotCovered(n, v, q, margin, minimum, base);
      assert Nonnegative(Constant(n, v));
    }
  }

  const MIN_ABS := 0.05
  const MIN_DELTA := 0.01
  const MIN_L2 := 0.05

  /** With the default margin no clamp ever loses coverage. */
  lemma DefaultMarginSuffices()
    ensures MarginOutweighsRounding(0.1, MIN_ABS) && MarginOutweighsRounding(0.1, MIN_DELTA)
    ensures MarginOutweighsRounding(0.1, MIN_L2)
  {
    assert RoundSix(0.05) == 0.05 && RoundSix(0.01) == 0.01;
  }

  /** Without a margin it can be lost: at the supported quantile 0.95, samples of 0.0600004 are
      calibrated to 0.06. */
  lemma RoundingLosesTheSamples(n: nat)
    requires n > 0
    ensures !Covers(Constant(n, 0.0600004), 0.95, 0.0, MIN_ABS, None)
    ensures FinalBound(Percentile(Constant(n, 0.0600004), 0.95), 0.0, MIN_ABS, None, false) == Some(0.06)
  {
    var v := 0.0600004;
    OnePlus(v, 0.0);
    assert Times(v, 0.0) == 0.0;
    assert (v * 1000000.0).Floor == 60000;
    assert Emitted(v, 0.0, MIN_ABS) == 0.06;
    ConstantPercentile(n, v, 0.95);
    FinalIsEmitted(Constant(n, v), 0.95, 0.0, MIN_ABS, None);
    LostSamplesAreNotCovered(n, v, 0.95, 0.0, MIN_ABS, None);
  }

  /** In conservative mode the rounded bound never exceeds the base bound, whatever was observed,
      exactly when rounding does not raise the base bound. */
  lemma ConservativeFinalIff(margin: real, minimum: real, base: real)
    requires margin >= 0.0
    ensures (forall p: real :: p >= 0.0 ==> FinalBound(Some(p), margin, minimum, Some(base), true).value <= base) <==>
            RoundSix(base) <= base
  {
    forall p: real | p >= 0.0
      ensures FinalBound(Some(p), margin, minimum, Some(base), true).value <= RoundSix(base)
    {
      ConservativeBoundKeepsBase(Some(p), margin, minimum, base);
      RoundSixMonotone(Bound(Some(p), margin, minimum, Some(base), true).0.value, base);
    }
    var p := MaxReal(base, 0.0);
    MarginRaises(p, margin);
    assert FinalBound(Some(p), margin, minimum, Some(base), true).value == RoundSix(base);
  }

  /** A base bound that rounding exceeds: a conservative calibration of 0.0500006 emits 0.050001. */
  lemma RoundingExceedsTheBase()
    ensures FinalBound(Some(1.0), 0.1, MIN_ABS, Some(0.0500006), true) == Some(0.050001)
  {
    OnePlus(1.0, 0.1);
    assert Times(1.0, 0.1) == 0.1;
    assert (0.0500006 * 1000000.0).Floor == 50000;
  }
}
