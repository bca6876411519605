/** The samples a safety profile is calibrated on, collected in one pass over a recording, and
    what the calibrated bounds then say about that recording. */
module ActionStatistics {
  import opened Outcomes
  import opened Numbers
  import opened RealArithmetic
  import opened ParityMetrics
  import opened Calibration

  type Action = seq<Number>

  datatype Samples = Samples(abs: seq<real>, l2: seq<real>, delta: seq<Number>, shapeChanges: nat)

  // ---------------------------------------------------------------- one action

  function FiniteOf(a: Action): seq<real> {
    if a == [] then [] else (if a[0].Fin? then [a[0].value] else []) + FiniteOf(a[1..])
  }

  /** `abs(y - x)`. */
  function Distance(x: Number, y: Number): Number {
    match (x, y)
    case (Fin(a), Fin(b)) => Fin(Abs(b - a))
    case (NaN, _) => NaN
    case (_, NaN) => NaN
    case _ => if x == y then NaN else PosInf
  }

  function Distances(before: Action, after: Action): (r: seq<Number>)
    requires |before| == |after|
    ensures |r| == |after| && forall i :: 0 <= i < |r| ==> r[i] == Distance(before[i], after[i])
  {
    seq(|after|, i requires 0 <= i < |after| => Distance(before[i], after[i]))
  }

  /** The largest change of a coordinate between two actions of one length, as `max` finds it. */
  function Jump(before: Action, after: Action): Number
    requires |before| == |after|
  {
    if after == [] then Fin(0.0) else Greatest(Distances(before, after))
  }

  /** No coordinate changes by more than the limit. */
  predicate JumpsWithin(before: Action, after: Action, limit: real) {
    |before| == |after| && forall i :: 0 <= i < |after| ==> !Less(Fin(limit), Distance(before[i], after[i]))
  }

  lemma JumpMeaning(before: Action, after: Action, limit: real)
    requires |before| == |after| && limit >= 0.0 && Jump(before, after).Fin?
    ensures Jump(before, after).value >= 0.0
    ensures Jump(before, after).value <= limit <==> JumpsWithin(before, after, limit)
  {
    if after != [] {
      var ds := Distances(before, after);
      ExtremesOfFirst(ds);
      GreatestBounds(ds);
      var k :| 0 <= k < |ds| && ds[k] == Greatest(ds);
      assert Distance(before[k], after[k]) == Jump(before, after);
      assert forall i :: 0 <= i < |ds| ==> !Less(Jump(before, after), Distance(before[i], after[i]));
    }
  }

  // ---------------------------------------------------------------- the recording

  /** The samples of a recording, action by action. */
  function SamplesOf(actions: seq<Action>, sqrt: real -> real): Samples {
    if actions == [] then Samples([], [], [], 0)
    else
      var k := |actions| - 1;
      var s, a := SamplesOf(actions[..k], sqrt), actions[k];
      var finite := FiniteOf(a);
      var paired := k > 0 && |actions[k - 1]| == |a|;
      Samples(s.abs + Absolutes(finite), s.l2 + [sqrt(Dot(finite, finite))],
              if paired then s.delta + [Jump(actions[k - 1], a)] else s.delta,
              if k > 0 && !paired then s.shapeChanges + 1 else s.shapeChanges)
  }

  lemma OneMoreAction(actions: seq<Action>, i: nat, sqrt: real -> real)
    requires i < |actions|
    ensures var s, finite := SamplesOf(actions[..i], sqrt), FiniteOf(actions[i]);
            var paired := i > 0 && |actions[i - 1]| == |actions[i]|;
            SamplesOf(actions[..i + 1], sqrt) ==
            Samples(s.abs + Absolutes(finite), s.l2 + [sqrt(Dot(finite, finite))],
                    if paired then s.delta + [Jump(actions[i - 1], actions[i])] else s.delta,
                    if i > 0 && !paired then s.shapeChanges + 1 else s.shapeChanges)
  {
    assert actions[..i + 1][..i] == actions[..i];
  }

  /** The accumulating loop. */
  method CollectSamples(actions: seq<Action>, sqrt: real -> real) returns (s: Samples)
    ensures s == SamplesOf(actions, sqrt)
  {
    var abs: seq<real>, l2: seq<real>, delta: seq<Number>, shapeChanges := [], [], [], 0;
    var prev: Option<Action> := None;
    for i := 0 to |actions|
      invariant Samples(abs, l2, delta, shapeChanges) == SamplesOf(actions[..i], sqrt)
      invariant prev == if i == 0 then None else Some(actions[i - 1])
    {
      OneMoreAction(actions, i, sqrt);
      var action := actions[i];
      var finite := FiniteOf(action);
      abs := abs + Absolutes(finite);
      l2 := l2 + [sqrt(Dot(finite, finite))];
      if prev.Some? {
        if |prev.value| == |action| {
          delta := delta + [Jump(prev.value, action)];
        } else {
          shapeChanges := shapeChanges + 1;
        }
      }
      prev := Some(action);
    }
    assert actions[..|actions|] == actions;
    s := Samples(abs, l2, delta, shapeChanges);
  }

  /** Every step after the first action is either a jump sample or a shape change. */
  lemma {:induction false} StepsAreSamplesOrChanges(actions: seq<Action>, sqrt: real -> real)
    requires actions != []
    ensures |SamplesOf(actions, sqrt).delta| + SamplesOf(actions, sqrt).shapeChanges == |actions| - 1
    ensures |SamplesOf(actions, sqrt).l2| == |actions|
  {
    if |actions| == 1 {
      assert actions[..0] == [];
    } else {
      StepsAreSamplesOrChanges(actions[..|actions| - 1], sqrt);
    }
  }

  // ---------------------------------------------------------------- jumps

  /** How many steps of the recording stay within a limit in every coordinate. */
  function StepsWithin(actions: seq<Action>, limit: real): nat {
    if |actions| < 2 then 0
    else
      var k := |actions| - 1;
      StepsWithin(actions[..k], limit) + if JumpsWithin(actions[k - 1], actions[k], limit) then 1 else 0
  }

  predicate AllFin(ns: seq<Number>) {
    forall i :: 0 <= i < |ns| ==> ns[i].Fin?
  }

  lemma RealsExtend(ns: seq<Number>, n: Number)
    requires AllFin(ns + [n])
    ensures AllFin(ns) && n.Fin? && Reals(ns + [n]) == Reals(ns) + [n.value]
  {
    assert (ns + [n])[|ns|] == n;
    assert forall i :: 0 <= i < |ns| ==> (ns + [n])[i] == ns[i];
  }

  /** Finite jump samples are not negative, and counting them is counting steps. */
  lemma {:induction false} JumpsMeaning(actions: seq<Action>, sqrt: real -> real, limit: real)
    requires limit >= 0.0 && AllFin(SamplesOf(actions, sqrt).delta)
    ensures var jumps := Reals(SamplesOf(actions, sqrt).delta);
            && (forall i :: 0 <= i < |jumps| ==> jumps[i] >= 0.0)
            && CountAtMost(jumps, limit) == StepsWithin(actions, limit)
  {
    if actions == [] {
    } else {
      var k := |actions| - 1;
      var before := SamplesOf(actions[..k], sqrt).delta;
      if k > 0 && |actions[k - 1]| == |actions[k]| {
        var jump := Jump(actions[k - 1], actions[k]);
        RealsExtend(before, jump);
        JumpsMeaning(actions[..k], sqrt, limit);
        JumpMeaning(actions[k - 1], actions[k], limit);
        CountAppend(Reals(before), [jump.value], limit);
      } else {
        JumpsMeaning(actions[..k], sqrt, limit);
      }
    }
  }

  /** The delta bound that a calibration outside conservative mode emits is respected, in every
      coordinate, by at least `floor((n - 1) q) + 1` of the `n` same-length steps of its recording,
      when the margin on the clamp outweighs the rounding; before the rounding it always is. */
  lemma CalibratedDeltaCoversRecording(actions: seq<Action>, sqrt: real -> real, q: real, margin: real, minimum: real,
                                       base: Option<real>)
    requires 0.0 <= q <= 1.0 && margin >= 0.0 && minimum >= 0.0
    requires SamplesOf(actions, sqrt).delta != [] && AllFin(SamplesOf(actions, sqrt).delta)
    ensures var jumps := Reals(SamplesOf(actions, sqrt).delta);
            var bound := Bound(Percentile(jumps, q), margin, minimum, base, false).0;
            bound.Some? && StepsWithin(actions, bound.value) >= Rank(|jumps|, q).Floor + 1
    ensures MarginOutweighsRounding(margin, minimum) ==>
              var jumps := Reals(SamplesOf(actions, sqrt).delta);
              var emitted := FinalBound(Percentile(jumps, q), margin, minimum, base, false);
              emitted.Some? && StepsWithin(actions, emitted.value) >= Rank(|jumps|, q).Floor + 1
  {
    JumpsMeaning(actions, sqrt, 0.0);
    var jumps := Reals(SamplesOf(actions, sqrt).delta);
    CalibratedBoundCovers(jumps, q, margin, minimum, base);
    JumpsMeaning(actions, sqrt, Bound(Percentile(jumps, q), margin, minimum, base, false).0.value);
    if MarginOutweighsRounding(margin, minimum) {
      var emitted := EmittedCovers(jumps, q, margin, minimum, base);
      JumpsMeaning(actions, sqrt, emitted);
    }
  }

  // ---------------------------------------------------------------- coordinates

  /** How many finite coordinates of the recording stay within a limit. */
  function CoordinatesInRange(actions: seq<Action>, limit: real): nat {
    if actions == [] then 0
    else
      var k := |actions| - 1;
      CoordinatesInRange(actions[..k], limit) + InRange(FiniteOf(actions[k]), limit)
  }

  function InRange(a: seq<real>, limit: real): nat {
    if a == [] then 0 else (if Abs(a[0]) <= limit then 1 else 0) + InRange(a[1..], limit)
  }

  lemma {:induction false} AbsolutesCount(a: seq<real>, limit: real)
    ensures CountAtMost(Absolutes(a), limit) == InRange(a, limit)
    ensures forall i :: 0 <= i < |a| ==> Absolutes(a)[i] >= 0.0
  {
    if a == [] {
    } else {
      AbsolutesCount(a[1..], limit);
      assert Absolutes(a)[1..] == Absolutes(a[1..]);
    }
  }

  lemma {:induction false} CoordinatesMeaning(actions: seq<Action>, sqrt: real -> real, limit: real)
    requires limit >= 0.0
    ensures var abs := SamplesOf(actions, sqrt).abs;
            && (forall i :: 0 <= i < |abs| ==> abs[i] >= 0.0)
            && CountAtMost(abs, limit) == CoordinatesInRange(actions, limit)
  {
    if actions == [] {
    } else {
      var k := |actions| - 1;
      CoordinatesMeaning(actions[..k], sqrt, limit);
      AbsolutesCount(FiniteOf(actions[k]), limit);
      CountAppend(SamplesOf(actions[..k], sqrt).abs, Absolutes(FiniteOf(actions[k])), limit);
    }
  }

  /** The same for the absolute bound, among the finite coordinates. */
  lemma CalibratedAbsCoversRecording(actions: seq<Action>, sqrt: real -> real, q: real, margin: real, minimum: real,
                                     base: Option<real>)
    requires 0.0 <= q <= 1.0 && margin >= 0.0 && minimum >= 0.0
    requires SamplesOf(actions, sqrt).abs != []
    ensures var n := |SamplesOf(actions, sqrt).abs|;
            var bound := Bound(Percentile(SamplesOf(actions, sqrt).abs, q), margin, minimum, base, false).0;
            bound.Some? && CoordinatesInRange(actions, bound.value) >= Rank(n, q).Floor + 1
    ensures MarginOutweighsRounding(margin, minimum) ==>
              var abs := SamplesOf(actions, sqrt).abs;
              var emitted := FinalBound(Percentile(abs, q), margin, minimum, base, false);
              emitted.Some? && CoordinatesInRange(actions, emitted.value) >= Rank(|abs|, q).Floor + 1
  {
    CoordinatesMeaning(actions, sqrt, 0.0);
    var abs := SamplesOf(actions, sqrt).abs;
    CalibratedBoundCovers(abs, q, margin, minimum, base);
    CoordinatesMeaning(actions, sqrt, Bound(Percentile(abs, q), margin, minimum, base, false).0.value);
    if MarginOutweighsRounding(margin, minimum) {
      var emitted := EmittedCovers(abs, q, margin, minimum, base);
      CoordinatesMeaning(actions, sqrt, emitted);
    }
  }

  // ---------------------------------------------------------------- norms

  function SquareSum(a: Action): real {
    Dot(FiniteOf(a), FiniteOf(a))
  }

  ghost predicate HasRoots(actions: seq<Action>, sqrt: real -> real) {
    forall i :: 0 <= i < |actions| ==> IsRoot(sqrt(SquareSum(actions[i])), SquareSum(actions[i]))
  }

  /** How many actions have finite coordinates whose squares sum to at most the square of a limit. */
  function NormsWithin(actions: seq<Action>, limit: real): nat {
    if actions == [] then 0
    else
      var k := |actions| - 1;
      NormsWithin(actions[..k], limit) + if SquareSum(actions[k]) <= Times(limit, limit) then 1 else 0
  }

  lemma RootWithin(root: real, x: real, limit: real)
    requires IsRoot(root, x) && limit >= 0.0
    ensures root <= limit <==> x <= Times(limit, limit)
  {
    if 0.0 < root < limit {
      SquareOrder(root, limit);
    } else if 0.0 < limit < root {
      SquareOrder(limit, root);
    } else if limit < root {
      TimesPositive(root, root);
    } else if root == 0.0 {
      TimesNonnegative(limit, limit);
    }
  }

  lemma {:induction false} NormsMeaning(actions: seq<Action>, sqrt: real -> real, limit: real)
    requires limit >= 0.0 && HasRoots(actions, sqrt)
    ensures var l2 := SamplesOf(actions, sqrt).l2;
            && |l2| == |actions| && (forall i :: 0 <= i < |l2| ==> l2[i] >= 0.0)
            && CountAtMost(l2, limit) == NormsWithin(actions, limit)
  {
    if actions == [] {
    } else {
      var k := |actions| - 1;
      var x := SquareSum(actions[k]);
      assert forall i :: 0 <= i < k ==> actions[..k][i] == actions[i];
      NormsMeaning(actions[..k], sqrt, limit);
      CountAppend(SamplesOf(actions[..k], sqrt).l2, [sqrt(x)], limit);
      RootWithin(sqrt(x), x, limit);
    }
  }

  /** The L2 bound is respected by at least `floor((n - 1) q) + 1` of the `n` actions. */
  lemma CalibratedL2CoversRecording(actions: seq<Action>, sqrt: real -> real, q: real, margin: real, minimum: real,
                                    base: Option<real>)
    requires 0.0 <= q <= 1.0 && margin >= 0.0 && minimum >= 0.0
    requires actions != [] && HasRoots(actions, sqrt)
    ensures var bound := Bound(Percentile(SamplesOf(actions, sqrt).l2, q), margin, minimum, base, false).0;
            bound.Some? && NormsWithin(actions, bound.value) >= Rank(|actions|, q).Floor + 1
    ensures MarginOutweighsRounding(margin, minimum) ==>
              var emitted := FinalBound(Percentile(SamplesOf(actions, sqrt).l2, q), margin, minimum, base, false);
              emitted.Some? && NormsWithin(actions, emitted.value) >= Rank(|actions|, q).Floor + 1
  {
    NormsMeaning(actions, sqrt, 0.0);
    var l2 := SamplesOf(actions, sqrt).l2;
    CalibratedBoundCovers(l2, q, margin, minimum, base);
    NormsMeaning(actions, sqrt, Bound(Percentile(l2, q), margin, minimum, base, false).0.value);
    if MarginOutweighsRounding(margin, minimum) {
      var emitted := EmittedCovers(l2, q, margin, minimum, base);
      NormsMeaning(actions, sqrt, emitted);
    }
  }

  // ---------------------------------------------------------------- coordinates as they were recorded

  /** A change counts as within the limit when it is a finite one of at most that size; from or to an
      infinity it never does, unless the difference is not a number. */
  lemma DistanceMeaning(x: Number, y: Number, limit: real)
    ensures !Less(Fin(limit), Distance(x, y)) <==>
            match (x, y)
            case (Fin(a), Fin(b)) => -limit <= b - a <= limit
            case _ => x.NaN? || y.NaN? || x == y
  {
  }

  lemma {:induction false} FiniteAppend(a: Action, n: Number)
    ensures FiniteOf(a + [n]) == FiniteOf(a) + if n.Fin? then [n.value] else []
  {
    if a == [] {
      assert a + [n] == [n] && FiniteOf([n][1..]) == [];
    } else {
      FiniteAppend(a[1..], n);
      assert (a + [n])[1..] == a[1..] + [n];
    }
  }

  lemma {:induction false} InRangeAppend(a: seq<real>, x: real, limit: real)
    ensures InRange(a + [x], limit) == InRange(a, limit) + if Abs(x) <= limit then 1 else 0
  {
    if a == [] {
      assert a + [x] == [x] && InRange([x][1..], limit) == 0;
    } else {
      InRangeAppend(a[1..], x, limit);
      assert (a + [x])[1..] == a[1..] + [x];
    }
  }

  /** The coordinates of one action that count as in range, by index. */
  function CoordinatesWithin(a: Action, limit: real): set<nat> {
    set i: nat | i < |a| && a[i].Fin? && -limit <= a[i].value <= limit
  }

  lemma {:induction false} InRangeMeaning(a: Action, limit: real)
    ensures InRange(FiniteOf(a), limit) == |CoordinatesWithin(a, limit)|
    decreases |a|
  {
    if a == [] {
      assert CoordinatesWithin(a, limit) == {};
    } else {
      var k := |a| - 1;
      var init := a[..k];
      assert a == init + [a[k]];
      InRangeMeaning(init, limit);
      FiniteAppend(init, a[k]);
      assert CoordinatesWithin(a, limit) ==
             CoordinatesWithin(init, limit) + if a[k].Fin? && -limit <= a[k].value <= limit then {k} else {};
      if a[k].Fin? {
        InRangeAppend(FiniteOf(init), a[k].value, limit);
      } else {
        assert FiniteOf(init) + [] == FiniteOf(init);
      }
    }
  }

  /** The squares of the coordinates, nothing for one that is not finite. */
  function Squares(a: Action): seq<real> {
    seq(|a|, i requires 0 <= i < |a| => if a[i].Fin? then Times(a[i].value, a[i].value) else 0.0)
  }

  /** An action's sum of squares runs over all its finite coordinates. */
  lemma {:induction false} SquareSumMeaning(a: Action)
    ensures SquareSum(a) == Sum(Squares(a))
  {
    if a == [] {
    } else {
      SquareSumMeaning(a[1..]);
      assert Squares(a)[1..] == Squares(a[1..]);
      if a[0].Fin? {
        assert FiniteOf(a) == [a[0].value] + FiniteOf(a[1..]) && FiniteOf(a)[1..] == FiniteOf(a[1..]);
      } else {
        assert FiniteOf(a) == FiniteOf(a[1..]);
      }
    }
  }

  predicate StepAt(actions: seq<Action>, i: int, limit: real)
    requires 1 <= i < |actions|
  {
    JumpsWithin(actions[i - 1], actions[i], limit)
  }

  /** The steps that stay within the limit, by index. */
  lemma {:induction false} StepsWithinMeaning(actions: seq<Action>, limit: real)
    ensures StepsWithin(actions, limit) == |set i | 1 <= i < |actions| && StepAt(actions, i, limit)|
    decreases |actions|
  {
    var steps := set i | 1 <= i < |actions| && StepAt(actions, i, limit);
    if |actions| < 2 {
      assert steps == {};
    } else {
      var k := |actions| - 1;
      var init := actions[..k];
      StepsWithinMeaning(init, limit);
      var before := set i | 1 <= i < |init| && StepAt(init, i, limit);
      assert steps == before + if JumpsWithin(actions[k - 1], actions[k], limit) then {k} else {};
      assert k !in before;
    }
  }
}
