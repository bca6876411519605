/** Two figures of the live-metrics summary: latency spikes and action shape changes. */
module LiveMetrics {
  import opened Outcomes
  import opened NestedLists
  import opened RealArithmetic
  import opened ParityMetrics

  function CountAbove(times: seq<real>, limit: real): nat {
    if times == [] then 0 else (if times[0] > limit then 1 else 0) + CountAbove(times[1..], limit)
  }

  function Mean(times: seq<real>): real
    requires times != []
  {
    Over(Sum(times), |times| as real)
  }

  /** Steps that took more than twice the mean. */
  function LatencySpikes(times: seq<real>): nat {
    if times == [] then 0 else CountAbove(times, Times(2.0, Mean(times)))
  }

  lemma {:induction false} CountAboveAppend(times: seq<real>, t: real, limit: real)
    ensures CountAbove(times + [t], limit) == CountAbove(times, limit) + if t > limit then 1 else 0
  {
    if times == [] {
      assert times + [t] == [t] && CountAbove([t][1..], limit) == 0;
    } else {
      CountAboveAppend(times[1..], t, limit);
      assert (times + [t])[1..] == times[1..] + [t];
    }
  }

  lemma {:induction false} CountAboveMeaning(times: seq<real>, limit: real)
    ensures CountAbove(times, limit) == |set i | 0 <= i < |times| && times[i] > limit|
    decreases |times|
  {
    var above := set i | 0 <= i < |times| && times[i] > limit;
    if times == [] {
      assert above == {};
    } else {
      var k := |times| - 1;
      var init := times[..k];
      CountAboveMeaning(init, limit);
      CountAboveAppend(init, times[k], limit);
      assert init + [times[k]] == times;
      var before := set i | 0 <= i < |init| && init[i] > limit;
      assert above == before + if times[k] > limit then {k} else {};
      assert k !in before;
    }
  }

  /** The spikes are the steps whose time, taken as often as there are steps, exceeds twice the total. */
  lemma SpikesMeaning(times: seq<real>)
    ensures LatencySpikes(times) == |set i | 0 <= i < |times| && Times(times[i], |times| as real) > 2.0 * Sum(times)|
  {
    var spikes := set i | 0 <= i < |times| && Times(times[i], |times| as real) > 2.0 * Sum(times);
    if times == [] {
      assert spikes == {};
    } else {
      var limit := Times(2.0, Mean(times));
      CountAboveMeaning(times, limit);
      forall i | 0 <= i < |times|
        ensures times[i] > limit <==> Times(times[i], |times| as real) > 2.0 * Sum(times)
      {
        AboveTwiceTheMean(times[i], Sum(times), |times| as real);
      }
      assert spikes == set i | 0 <= i < |times| && times[i] > limit;
    }
  }

  lemma AboveTwiceTheMean(t: real, total: real, n: real)
    requires n > 0.0
    ensures t > Times(2.0, Over(total, n)) <==> Times(t, n) > 2.0 * total
  {
    OverTimes(total, n);
    var limit := Times(2.0, Over(total, n));
    assert Times(limit, n) == 2.0 * Times(Over(total, n), n);
    if t > limit {
      TimesStrict(limit, t, n);
    } else {
      TimesMonotone(t, limit, n);
    }
  }

  lemma {:induction false} SumExceeds(times: seq<real>, limit: real)
    requires limit >= 0.0 && forall i :: 0 <= i < |times| ==> times[i] >= 0.0
    ensures Sum(times) >= Times(CountAbove(times, limit) as real, limit)
    ensures CountAbove(times, limit) > 0 ==> Sum(times) > Times(CountAbove(times, limit) as real, limit)
    ensures Sum(times) >= 0.0
  {
    if times == [] {
      assert Times(0.0, limit) == 0.0;
    } else {
      SumExceeds(times[1..], limit);
      var c := CountAbove(times[1..], limit) as real;
      TimesSum(c, 1.0, limit);
      assert Times(1.0, limit) == limit;
    }
  }

  /** Markov's bound on "more than twice the mean": strictly fewer than half of the steps of
      any nonempty recording are spikes. */
  lemma SpikesAreFewerThanHalf(times: seq<real>)
    requires times != [] && forall i :: 0 <= i < |times| ==> times[i] >= 0.0
    ensures 2 * LatencySpikes(times) < |times|
  {
    var n, total, mean := |times| as real, Sum(times), Mean(times);
    SumExceeds(times, 0.0);
    OverTimes(total, n);
    assert Times(0.0, n) == 0.0;
    Unscale(0.0, mean, n);
    var limit := Times(2.0, mean);
    assert limit == 2.0 * mean;
    var c := CountAbove(times, limit);
    SumExceeds(times, limit);
    if c > 0 && 2 * c >= |times| {
      assert Times(c as real, limit) == Times(mean, (2 * c) as real);
      TimesNonnegative(mean, (2 * c) as real - n);
      TimesSplit(mean, n, (2 * c) as real - n);
      assert false;
    }
  }

  lemma TimesSplit(a: real, m: real, d: real)
    ensures Times(a, m + d) == Times(a, m) + Times(a, d)
  {
  }

  // ---------------------------------------------------------------- shape changes

  /** The shapes that were recorded, in order. */
  function Recorded(shapes: seq<Option<Shape>>): seq<Shape> {
    if shapes == [] then []
    else
      Recorded(shapes[..|shapes| - 1])
      + if shapes[|shapes| - 1].Some? then [shapes[|shapes| - 1].value] else []
  }

  function AdjacentChanges(shapes: seq<Shape>): nat {
    if |shapes| < 2 then 0
    else AdjacentChanges(shapes[..|shapes| - 1]) + if shapes[|shapes| - 1] != shapes[|shapes| - 2] then 1 else 0
  }

  lemma {:induction false} ChangesBounded(shapes: seq<Shape>)
    ensures AdjacentChanges(shapes) <= if shapes == [] then 0 else |shapes| - 1
  {
    if |shapes| < 2 {
    } else {
      ChangesBounded(shapes[..|shapes| - 1]);
    }
  }

  /** The loop counts the adjacent unequal pairs among the recorded shapes, of which there is
      at most one fewer than there are shapes. */
  method CountShapeChanges(shapes: seq<Option<Shape>>) returns (changes: nat)
    ensures changes == AdjacentChanges(Recorded(shapes))
    ensures Recorded(shapes) != [] ==> changes <= |Recorded(shapes)| - 1
  {
    changes := 0;
    var prev: Option<Shape> := None;
    for i := 0 to |shapes|
      invariant changes == AdjacentChanges(Recorded(shapes[..i]))
      invariant prev == if Recorded(shapes[..i]) == [] then None else Some(Recorded(shapes[..i])[|Recorded(shapes[..i])| - 1])
    {
      assert shapes[..i + 1][..i] == shapes[..i];
      ghost var before := Recorded(shapes[..i]);
      ghost var after := Recorded(shapes[..i + 1]);
      assert after == before + if shapes[i].Some? then [shapes[i].value] else [];
      if shapes[i].Some? {
        assert after[..|after| - 1] == before;
        assert before != [] ==> after[|after| - 2] == before[|before| - 1];
        if prev.Some? && shapes[i].value != prev.value {
          changes := changes + 1;
        }
        prev := shapes[i];
      } else {
        assert after == before;
      }
    }
    assert shapes[..|shapes|] == shapes;
    ChangesBounded(Recorded(shapes));
  }
}
