/** What the transform pipeline promises across operations: denormalize undoes normalize, and
    permute commutes with the leaf-wise operations exactly when it may. */
module TransformLaws {
  import opened Outcomes
  import opened NestedLists
  import opened Permutations
  import opened AxisPermute
  import opened LeafMultisets
  import opened Transforms

  // ---------------------------------------------------------------- inverses

  lemma LinesCancel(m: real, s: real)
    requires s != 0.0
    ensures Line(1.0 / s, -m / s).Then(Line(s, m)) == Line(1.0, 0.0)
    ensures Line(s, m).Then(Line(1.0 / s, -m / s)) == Line(1.0, 0.0)
  {
    assert (1.0 / s) * s == 1.0 && s * (1.0 / s) == 1.0;
    assert (-m / s) * s == -m;
    var q := 1.0 / s;
    assert (-m / s) == -m * q by {
      assert (-m * q) * s == -m * (q * s);
      Cancel(-m / s, -m * q, s);
    }
  }

  lemma FusePair(first: Operation, second: Operation, stats: Option<Stats>, c: nat)
    requires IsArithmetic(first) && IsArithmetic(second)
    requires OpLine(first, stats, c).Success? && OpLine(second, stats, c).Success?
    ensures Fuse([first, second], stats, c) == Success(OpLine(first, stats, c).value.Then(OpLine(second, stats, c).value))
  {
    var b := OpLine(second, stats, c).value;
    assert [first, second][1..] == [second] && [second][1..] == [];
    assert b.Then(Line(1.0, 0.0)) == b;
    assert Fuse([second], stats, c) == Success(b);
  }

  /** Two operations that cancel on every channel restore the array. */
  lemma CancellingPair(v: Tensor, s: Shape, first: Operation, second: Operation, stats: Option<Stats>)
    requires HasShape(v, s) && Positive(s) && IsArithmetic(first) && IsArithmetic(second)
    requires OpApplies(first, stats, s) && OpApplies(second, stats, s)
    requires forall c :: 0 <= c < Channels(s) ==>
               OpLine(first, stats, c).value.Then(OpLine(second, stats, c).value) == Line(1.0, 0.0)
    ensures ApplyAll(v, [first, second], stats) == Success(v)
  {
    var ops := [first, second];
    Fusion(v, s, ops, stats);
    var id := (_: nat, x: real) => x;
    forall c, x | 0 <= c < Channels(s)
      ensures FusedMap(ops, stats)(c, x) == id(c, x)
    {
      FusePair(first, second, stats, c);
      assert Line(1.0, 0.0).Eval(x) == x;
    }
    MapChannelsCongruent(v, s, FusedMap(ops, stats), id);
    MapChannelsIdentity(v, 0, id);
  }

  /** Normalizing and denormalizing with the same statistics, in either order, succeeds
      exactly when normalizing applies, and is then the identity. */
  lemma NormalizeAndDenormalizeAreInverse(v: Tensor, s: Shape, mean: Option<Stat>, std: Option<Stat>, stats: Option<Stats>)
    requires HasShape(v, s) && Positive(s)
    ensures var norm, denorm := Normalize(mean, std), Denormalize(mean, std);
            && (OpApplies(norm, stats, s) ==>
                  && ApplyAll(v, [norm, denorm], stats) == Success(v)
                  && ApplyAll(v, [denorm, norm], stats) == Success(v))
            && (!OpApplies(norm, stats, s) ==>
                  && ApplyAll(v, [norm, denorm], stats).Failure?
                  && ApplyAll(v, [denorm, norm], stats).Failure?)
  {
    var norm, denorm := Normalize(mean, std), Denormalize(mean, std);
    if OpApplies(norm, stats, s) {
      forall c | 0 <= c < Channels(s)
        ensures OpLine(denorm, stats, c).Success?
        ensures OpLine(norm, stats, c).value.Then(OpLine(denorm, stats, c).value) == Line(1.0, 0.0)
        ensures OpLine(denorm, stats, c).value.Then(OpLine(norm, stats, c).value) == Line(1.0, 0.0)
      {
        assert OpLine(norm, stats, c).Success?;
        var st := ResolveStats(mean, std, stats).value;
        LinesCancel(StatAt(st.mean, c).value, StatAt(st.std, c).value);
      }
      CancellingPair(v, s, norm, denorm, stats);
      CancellingPair(v, s, denorm, norm, stats);
    } else {
      Fusion(v, s, [norm, denorm], stats);
      Fusion(v, s, [denorm, norm], stats);
      assert [norm, denorm][0] == norm && [denorm, norm][1] == norm;
    }
  }

  // ---------------------------------------------------------------- commuting with permute

  predicate FixesLastAxis(p: seq<nat>) {
    p == [] || p[|p| - 1] == |p| - 1
  }

  /** The channels that the permuted and the original last axis give one leaf agree under `f`. */
  ghost predicate SameAcross(s: Shape, p: seq<nat>, f: (nat, real) -> real)
    requires |p| == |s| && forall i :: 0 <= i < |p| ==> p[i] < |p|
  {
    s == [] || forall c, d, x :: 0 <= c < s[p[|p| - 1]] && 0 <= d < s[|s| - 1] ==> f(c, x) == f(d, x)
  }

  ghost predicate CommutesOn(v: Tensor, p: seq<nat>, f: (nat, real) -> real) {
    Permute(v, p).Success? && Permute(MapChannels(v, 0, f), p) == Success(MapChannels(Permute(v, p).value, 0, f))
  }

  lemma BothOrdersDefined(v: Tensor, s: Shape, p: seq<nat>, f: (nat, real) -> real)
    requires HasShape(v, s) && Positive(s) && IsPermutation(p) && |p| == |s|
    ensures Permute(v, p).Success? && HasShape(Permute(v, p).value, PermuteShape(s, p))
    ensures HasShape(MapChannels(v, 0, f), s) && Permute(MapChannels(v, 0, f), p).Success?
    ensures HasShape(Permute(MapChannels(v, 0, f), p).value, PermuteShape(s, p))
    ensures HasShape(MapChannels(Permute(v, p).value, 0, f), PermuteShape(s, p))
  {
    AxesOfPermutation(p);
    PermuteIndexLaw(v, s, p);
    MapChannelsAt(v, s, 0, f);
    PermuteIndexLaw(MapChannels(v, 0, f), s, p);
    MapChannelsAt(Permute(v, p).value, PermuteShape(s, p), 0, f);
  }

  lemma MapThenPermuteAt(v: Tensor, s: Shape, p: seq<nat>, f: (nat, real) -> real, idx: seq<nat>)
    requires HasShape(v, s) && Positive(s) && IsPermutation(p) && |p| == |s| && InBounds(idx, PermuteShape(s, p))
    requires Permute(MapChannels(v, 0, f), p).Success?
    requires HasShape(Permute(MapChannels(v, 0, f), p).value, PermuteShape(s, p))
    ensures InBounds(SourceIndex(p, idx), s)
    ensures At(Permute(MapChannels(v, 0, f), p).value, PermuteShape(s, p), idx)
            == f(LastIndex(0, SourceIndex(p, idx)), At(v, s, SourceIndex(p, idx)))
  {
    AxesOfPermutation(p);
    MapChannelsAt(v, s, 0, f);
    PermuteIndexLaw(MapChannels(v, 0, f), s, p);
  }

  lemma PermuteThenMapAt(v: Tensor, s: Shape, p: seq<nat>, f: (nat, real) -> real, idx: seq<nat>)
    requires HasShape(v, s) && Positive(s) && IsPermutation(p) && |p| == |s| && InBounds(idx, PermuteShape(s, p))
    requires Permute(v, p).Success? && HasShape(Permute(v, p).value, PermuteShape(s, p))
    requires HasShape(MapChannels(Permute(v, p).value, 0, f), PermuteShape(s, p))
    ensures InBounds(SourceIndex(p, idx), s)
    ensures At(MapChannels(Permute(v, p).value, 0, f), PermuteShape(s, p), idx)
            == f(LastIndex(0, idx), At(v, s, SourceIndex(p, idx)))
  {
    AxesOfPermutation(p);
    PermuteIndexLaw(v, s, p);
    MapChannelsAt(Permute(v, p).value, PermuteShape(s, p), 0, f);
  }

  lemma SameLastChannel(s: Shape, p: seq<nat>, f: (nat, real) -> real, idx: seq<nat>, x: real)
    requires Positive(s) && IsPermutation(p) && |p| == |s| && InBounds(idx, PermuteShape(s, p))
    requires InBounds(SourceIndex(p, idx), s)
    requires FixesLastAxis(p) || SameAcross(s, p, f)
    ensures f(LastIndex(0, SourceIndex(p, idx)), x) == f(LastIndex(0, idx), x)
  {
    if s != [] {
      SourceIndexAt(p, idx);
      var last := |p| - 1;
      assert SourceIndex(p, idx)[p[last]] == idx[last];
    }
  }

  lemma PermuteCommutesWithMap(v: Tensor, s: Shape, p: seq<nat>, f: (nat, real) -> real)
    requires HasShape(v, s) && Positive(s) && IsPermutation(p) && |p| == |s|
    requires FixesLastAxis(p) || SameAcross(s, p, f)
    ensures CommutesOn(v, p, f)
  {
    BothOrdersDefined(v, s, p, f);
    var out := PermuteShape(s, p);
    var left, right := Permute(MapChannels(v, 0, f), p).value, MapChannels(Permute(v, p).value, 0, f);
    forall idx | InBounds(idx, out)
      ensures At(left, out, idx) == At(right, out, idx)
    {
      MapThenPermuteAt(v, s, p, f, idx);
      PermuteThenMapAt(v, s, p, f, idx);
      SameLastChannel(s, p, f, idx, At(v, s, SourceIndex(p, idx)));
    }
    Extensionality(left, right, out);
  }

  /** A source index with `c` on the axis that becomes the last and `d` on the last axis, and
      the permuted index that reads it. */
  lemma ProbeIndex(s: Shape, p: seq<nat>, c: nat, d: nat) returns (j: seq<nat>, idx: seq<nat>)
    requires Positive(s) && IsPermutation(p) && |p| == |s| && !FixesLastAxis(p)
    requires c < s[p[|p| - 1]] && d < s[|s| - 1]
    ensures InBounds(j, s) && InBounds(idx, PermuteShape(s, p)) && SourceIndex(p, idx) == j
    ensures LastIndex(0, j) == d && LastIndex(0, idx) == c
  {
    var last := |p| - 1;
    j := seq(|p|, k => if k == p[last] then c else if k == last then d else 0);
    idx := seq(|p|, k requires 0 <= k < |p| => j[p[k]]);
    SourceIndexAt(p, idx);
    IndexDeterminedAlong(p, SourceIndex(p, idx), j);
  }

  lemma DisagreeingChannelsDoNotCommute(s: Shape, p: seq<nat>, f: (nat, real) -> real) returns (v: Tensor)
    requires Positive(s) && IsPermutation(p) && |p| == |s|
    requires !FixesLastAxis(p) && !SameAcross(s, p, f)
    ensures HasShape(v, s) && !CommutesOn(v, p, f)
  {
    var last := |p| - 1;
    var a := p[last];
    var c, d, x :| 0 <= c < s[a] && 0 <= d < s[last] && f(c, x) != f(d, x);
    var constant := (_: seq<nat>) => x;
    v := Tabulate(s, constant);
    BothOrdersDefined(v, s, p, f);
    var j, idx := ProbeIndex(s, p, c, d);
    TabulateAt(s, constant, j);
    MapThenPermuteAt(v, s, p, f, idx);
    PermuteThenMapAt(v, s, p, f, idx);
  }

  /** For a fixed shape, permuting commutes with a per-channel map on all arrays exactly when
      the order keeps the last axis in place or the map does not tell the channels apart. */
  lemma PermuteCommutesIff(s: Shape, p: seq<nat>, f: (nat, real) -> real)
    requires Positive(s) && IsPermutation(p) && |p| == |s|
    ensures (forall v :: HasShape(v, s) ==> CommutesOn(v, p, f)) <==> FixesLastAxis(p) || SameAcross(s, p, f)
  {
    if FixesLastAxis(p) || SameAcross(s, p, f) {
      forall v | HasShape(v, s)
        ensures CommutesOn(v, p, f)
      {
        PermuteCommutesWithMap(v, s, p, f);
      }
    } else {
      var v := DisagreeingChannelsDoNotCommute(s, p, f);
    }
  }

  // ---------------------------------------------------------------- commuting, as operations

  /** The error an arithmetic operation raises on every array of a shape, if it raises one. */
  function OpError(op: Operation, stats: Option<Stats>, s: Shape): Option<TransformError>
    requires IsArithmetic(op)
  {
    if op.Scale? then None
    else
      match ResolveStats(op.mean, op.std, stats)
      case Failure(e) => Some(e)
      case Success(st) => if s == [] then Some(NotAList) else FirstError(st, op.Denormalize?, 0, Channels(s))
  }

  lemma ArithmeticOutcome(v: Tensor, s: Shape, op: Operation, stats: Option<Stats>)
    requires HasShape(v, s) && Positive(s) && IsArithmetic(op)
    ensures Apply(v, op, stats) == match OpError(op, stats, s)
                                   case Some(e) => Failure(e)
                                   case None => Success(MapChannels(v, 0, OpMap(op, stats)))
  {
    ArithmeticOnArray(v, s, op, stats);
    if !op.Scale? && s != [] {
      var resolved := ResolveStats(op.mean, op.std, stats);
      if resolved.Success? {
        AffineOnArray(v, s, resolved.value, op.Denormalize?);
        assert Apply(v, op, stats) == AffineRec(v, resolved.value, op.Denormalize?);
      }
    }
  }

  /** The statistics the operation ends up with do not depend on the channel. */
  predicate HasUniformStats(op: Operation, stats: Option<Stats>)
    requires IsArithmetic(op)
  {
    op.Scale? ||
    var st := ResolveStats(op.mean, op.std, stats);
    st.Success? ==> st.value.mean.Uniform? && st.value.std.Uniform?
  }

  lemma UniformStatsSameEverywhere(op: Operation, stats: Option<Stats>, n: nat, k: nat)
    requires IsArithmetic(op) && HasUniformStats(op, stats) && n > 0 && k > 0
    ensures forall c, d :: OpLine(op, stats, c) == OpLine(op, stats, d)
    ensures !op.Scale? && ResolveStats(op.mean, op.std, stats).Success? ==>
              var st := ResolveStats(op.mean, op.std, stats).value;
              FirstError(st, op.Denormalize?, 0, n) == FirstError(st, op.Denormalize?, 0, k)
  {
    if !op.Scale? && ResolveStats(op.mean, op.std, stats).Success? {
      var st := ResolveStats(op.mean, op.std, stats).value;
      var inv := op.Denormalize?;
      assert forall c :: ChannelLine(st, c, inv) == ChannelLine(st, 0, inv);
      NoErrorMeaning(st, inv, 0, n);
      NoErrorMeaning(st, inv, 0, k);
    }
  }

  lemma ApplyPair(v: Tensor, first: Operation, second: Operation, stats: Option<Stats>)
    ensures ApplyAll(v, [first, second], stats) ==
            match Apply(v, first, stats)
            case Failure(e) => Failure(e)
            case Success(w) => Apply(w, second, stats)
  {
    assert [first, second][1..] == [second] && [second][1..] == [];
    if Apply(v, first, stats).Success? {
      var w := Apply(v, first, stats).value;
      assert ApplyAll(w, [second], stats) == Apply(w, second, stats) by {
        if Apply(w, second, stats).Success? {
          assert ApplyAll(Apply(w, second, stats).value, [], stats) == Apply(w, second, stats);
        }
      }
    }
  }

  /** When the operation applies before and after permuting, both pipelines are the two sides
      of the commutation. */
  lemma OrdersAsMaps(v: Tensor, s: Shape, p: seq<nat>, op: Operation, stats: Option<Stats>)
    requires HasShape(v, s) && Positive(s) && IsPermutation(p) && |p| == |s| && IsArithmetic(op)
    requires Permute(v, p).Success? && HasShape(Permute(v, p).value, PermuteShape(s, p))
    ensures OpError(op, stats, s) == None ==>
              ApplyAll(v, [op, PermuteOp(p)], stats) == Permute(MapChannels(v, 0, OpMap(op, stats)), p)
    ensures OpError(op, stats, PermuteShape(s, p)) == None ==>
              ApplyAll(v, [PermuteOp(p), op], stats) == Success(MapChannels(Permute(v, p).value, 0, OpMap(op, stats)))
    ensures OpError(op, stats, s).Some? ==> ApplyAll(v, [op, PermuteOp(p)], stats) == Failure(OpError(op, stats, s).value)
    ensures OpError(op, stats, PermuteShape(s, p)).Some? ==>
              ApplyAll(v, [PermuteOp(p), op], stats) == Failure(OpError(op, stats, PermuteShape(s, p)).value)
  {
    PermutePositive(s, p);
    ArithmeticOutcome(v, s, op, stats);
    ArithmeticOutcome(Permute(v, p).value, PermuteShape(s, p), op, stats);
    ApplyPair(v, PermuteOp(p), op, stats);
    ApplyPair(v, op, PermuteOp(p), stats);
  }

  lemma SameErrorAfterPermute(s: Shape, p: seq<nat>, op: Operation, stats: Option<Stats>)
    requires Positive(s) && IsPermutation(p) && |p| == |s| && IsArithmetic(op)
    requires FixesLastAxis(p) || HasUniformStats(op, stats)
    ensures OpError(op, stats, s) == OpError(op, stats, PermuteShape(s, p))
  {
    var out := PermuteShape(s, p);
    PermutePositive(s, p);
    if HasUniformStats(op, stats) {
      UniformStatsSameEverywhere(op, stats, Channels(s), Channels(out));
    } else {
      assert Channels(out) == Channels(s);
    }
  }

  lemma UniformMapIsSame(s: Shape, p: seq<nat>, op: Operation, stats: Option<Stats>)
    requires IsPermutation(p) && |p| == |s| && IsArithmetic(op) && HasUniformStats(op, stats)
    ensures SameAcross(s, p, OpMap(op, stats))
  {
    UniformStatsSameEverywhere(op, stats, 1, 1);
    var f := OpMap(op, stats);
    forall c: nat, d: nat, x
      ensures f(c, x) == f(d, x)
    {
      assert OpLine(op, stats, c) == OpLine(op, stats, d);
    }
  }

  /** The statistics of the channels that the permuted and the original last axis give one leaf
      are the same. */
  predicate SameStats(s: Shape, p: seq<nat>, st: Stats)
    requires |p| == |s| && forall i :: 0 <= i < |p| ==> p[i] < |p|
  {
    s == [] || forall c, d :: 0 <= c < s[p[|p| - 1]] && 0 <= d < s[|s| - 1] ==>
                 StatAt(st.mean, c) == StatAt(st.mean, d) && StatAt(st.std, c) == StatAt(st.std, d)
  }

  /** When permuting and an arithmetic operation may be swapped on every array of a shape: both
      shapes raise the same error or none, and without one the order keeps the last axis in
      place, or the operation scales, or the channels that change places have equal statistics. */
  predicate MaySwap(s: Shape, p: seq<nat>, op: Operation, stats: Option<Stats>)
    requires IsArithmetic(op) && |p| == |s| && forall i :: 0 <= i < |p| ==> p[i] < |p|
  {
    && OpError(op, stats, s) == OpError(op, stats, PermuteShape(s, p))
    && (OpError(op, stats, s).None? ==>
          FixesLastAxis(p) || op.Scale? || SameStats(s, p, ResolveStats(op.mean, op.std, stats).value))
  }

  /** Two lines that agree everywhere come from equal statistics. */
  lemma EqualLinesEqualStats(m: real, s: real, n: real, t: real, invert: bool)
    requires !invert ==> s != 0.0 && t != 0.0
    requires var k, l := if invert then Line(s, m) else Line(1.0 / s, -m / s),
                         if invert then Line(t, n) else Line(1.0 / t, -n / t);
             k.Eval(0.0) == l.Eval(0.0) && k.Eval(1.0) == l.Eval(1.0)
    ensures m == n && s == t
  {
    if !invert {
      assert 1.0 / s == 1.0 / t && -m / s == -n / t;
      assert s * (1.0 / s) == 1.0 && t * (1.0 / t) == 1.0;
      Cancel(s, t, 1.0 / s);
      assert (-m / s) * s == -m && (-n / s) * s == -n;
    }
  }

  /** Without errors, an affine operation treats the affected channels alike exactly when their
      statistics are equal. */
  lemma SameAcrossMeansSameStats(s: Shape, p: seq<nat>, op: Operation, stats: Option<Stats>)
    requires Positive(s) && IsPermutation(p) && |p| == |s| && IsArithmetic(op) && !op.Scale?
    requires OpError(op, stats, s).None? && OpError(op, stats, PermuteShape(s, p)).None?
    ensures SameAcross(s, p, OpMap(op, stats)) <==> SameStats(s, p, ResolveStats(op.mean, op.std, stats).value)
  {
    var f, st, inv := OpMap(op, stats), ResolveStats(op.mean, op.std, stats).value, op.Denormalize?;
    if s != [] {
      NoErrorMeaning(st, inv, 0, Channels(s));
      NoErrorMeaning(st, inv, 0, Channels(PermuteShape(s, p)));
      forall c, d | 0 <= c < s[p[|p| - 1]] && 0 <= d < s[|s| - 1]
        ensures AlikeUnder(f, c, d) <==> StatAt(st.mean, c) == StatAt(st.mean, d) && StatAt(st.std, c) == StatAt(st.std, d)
      {
        ChannelsAlike(op, stats, c, d);
      }
      if SameAcross(s, p, f) {
        forall c, d | 0 <= c < s[p[|p| - 1]] && 0 <= d < s[|s| - 1]
          ensures StatAt(st.mean, c) == StatAt(st.mean, d) && StatAt(st.std, c) == StatAt(st.std, d)
        {
          assert AlikeUnder(f, c, d);
        }
      }
      if SameStats(s, p, st) {
        forall c, d, x | 0 <= c < s[p[|p| - 1]] && 0 <= d < s[|s| - 1]
          ensures f(c, x) == f(d, x)
        {
          assert AlikeUnder(f, c, d);
        }
      }
    }
  }

  ghost predicate AlikeUnder(f: (nat, real) -> real, c: nat, d: nat) {
    forall x :: f(c, x) == f(d, x)
  }

  lemma ChannelsAlike(op: Operation, stats: Option<Stats>, c: nat, d: nat)
    requires IsArithmetic(op) && !op.Scale? && ResolveStats(op.mean, op.std, stats).Success?
    requires OpLine(op, stats, c).Success? && OpLine(op, stats, d).Success?
    ensures var st := ResolveStats(op.mean, op.std, stats).value;
            AlikeUnder(OpMap(op, stats), c, d) <==>
              StatAt(st.mean, c) == StatAt(st.mean, d) && StatAt(st.std, c) == StatAt(st.std, d)
  {
    var f, st, inv := OpMap(op, stats), ResolveStats(op.mean, op.std, stats).value, op.Denormalize?;
    assert OpLine(op, stats, c) == ChannelLine(st, c, inv) && OpLine(op, stats, d) == ChannelLine(st, d, inv);
    var k, l := ChannelLine(st, c, inv).value, ChannelLine(st, d, inv).value;
    forall x
      ensures f(c, x) == k.Eval(x) && f(d, x) == l.Eval(x)
    {
      assert f(c, x) == EvalLine(OpLine(op, stats, c), x) && f(d, x) == EvalLine(OpLine(op, stats, d), x);
    }
    if AlikeUnder(f, c, d) {
      assert f(c, 0.0) == f(d, 0.0) && f(c, 1.0) == f(d, 1.0);
      EqualLinesEqualStats(StatAt(st.mean, c).value, StatAt(st.std, c).value,
                           StatAt(st.mean, d).value, StatAt(st.std, d).value, inv);
    }
  }

  lemma ScaleIsSame(s: Shape, p: seq<nat>, op: Operation, stats: Option<Stats>)
    requires IsPermutation(p) && |p| == |s| && IsArithmetic(op)
    ensures op.Scale? ==> SameAcross(s, p, OpMap(op, stats))
  {
    if op.Scale? {
      UniformMapIsSame(s, p, op, stats);
    }
  }

  /** An order and an operation that may not be swapped give two different pipelines. */
  lemma DisagreeingPipelines(s: Shape, p: seq<nat>, op: Operation, stats: Option<Stats>) returns (v: Tensor)
    requires Positive(s) && IsPermutation(p) && |p| == |s| && IsArithmetic(op) && !MaySwap(s, p, op, stats)
    ensures HasShape(v, s)
    ensures ApplyAll(v, [PermuteOp(p), op], stats) != ApplyAll(v, [op, PermuteOp(p)], stats)
  {
    var f := OpMap(op, stats);
    if OpError(op, stats, s) != OpError(op, stats, PermuteShape(s, p)) {
      v := Tabulate(s, _ => 0.0);
    } else {
      SameAcrossMeansSameStats(s, p, op, stats);
      v := DisagreeingChannelsDoNotCommute(s, p, f);
    }
    BothOrdersDefined(v, s, p, f);
    OrdersAsMaps(v, s, p, op, stats);
  }

  /** The exact condition, for the operations as they run and errors included. */
  lemma PermuteSwapsIff(s: Shape, p: seq<nat>, op: Operation, stats: Option<Stats>)
    requires Positive(s) && IsPermutation(p) && |p| == |s| && IsArithmetic(op)
    ensures (forall v :: HasShape(v, s) ==> ApplyAll(v, [PermuteOp(p), op], stats) == ApplyAll(v, [op, PermuteOp(p)], stats))
            <==> MaySwap(s, p, op, stats)
  {
    if MaySwap(s, p, op, stats) {
      forall v | HasShape(v, s)
        ensures ApplyAll(v, [PermuteOp(p), op], stats) == ApplyAll(v, [op, PermuteOp(p)], stats)
      {
        SwappablePipelinesAgree(v, s, p, op, stats);
      }
    } else {
      var v := DisagreeingPipelines(s, p, op, stats);
    }
  }

  lemma SwappablePipelinesAgree(v: Tensor, s: Shape, p: seq<nat>, op: Operation, stats: Option<Stats>)
    requires HasShape(v, s) && Positive(s) && IsPermutation(p) && |p| == |s| && IsArithmetic(op) && MaySwap(s, p, op, stats)
    ensures ApplyAll(v, [PermuteOp(p), op], stats) == ApplyAll(v, [op, PermuteOp(p)], stats)
  {
    var f := OpMap(op, stats);
    BothOrdersDefined(v, s, p, f);
    OrdersAsMaps(v, s, p, op, stats);
    if OpError(op, stats, s).None? {
      ScaleIsSame(s, p, op, stats);
      if !op.Scale? {
        SameAcrossMeansSameStats(s, p, op, stats);
      }
      PermuteCommutesWithMap(v, s, p, f);
    }
  }

  /** In particular it may be swapped when the order fixes the last axis or the statistics are
      uniform. */
  lemma PermuteCommutesWithArithmetic(v: Tensor, s: Shape, p: seq<nat>, op: Operation, stats: Option<Stats>)
    requires HasShape(v, s) && Positive(s) && IsPermutation(p) && |p| == |s| && IsArithmetic(op)
    requires FixesLastAxis(p) || HasUniformStats(op, stats)
    ensures ApplyAll(v, [PermuteOp(p), op], stats) == ApplyAll(v, [op, PermuteOp(p)], stats)
  {
    SameErrorAfterPermute(s, p, op, stats);
    SwappablePipelinesAgree(v, s, p, op, stats);
  }

  /** Permute and cast may always be swapped. */
  lemma PermuteCommutesWithCast(v: Tensor, s: Shape, p: seq<nat>, to: Option<string>, stats: Option<Stats>)
    requires HasShape(v, s) && Positive(s) && IsPermutation(p) && |p| == |s|
    ensures ApplyAll(v, [PermuteOp(p), Cast(to)], stats) == ApplyAll(v, [Cast(to), PermuteOp(p)], stats)
  {
    AxesOfPermutation(p);
    PermuteIndexLaw(v, s, p);
    ApplyPair(v, PermuteOp(p), Cast(to), stats);
    ApplyPair(v, Cast(to), PermuteOp(p), stats);
    var f := (_: nat, x: real) => Truncate(x);
    PermuteCommutesWithMap(v, s, p, f);
    MapLeavesIsMapChannels(v, 0, Truncate, f);
    MapLeavesIsMapChannels(Permute(v, p).value, 0, Truncate, f);
  }

  /** Swapping the axes of a 2 x 2 matrix moves the last axis and keeps the shape. */
  lemma SwappedAxes() returns (s: Shape, p: seq<nat>)
    ensures |s| == 2 && s[0] == 2 && s[1] == 2 && |p| == 2 && p[0] == 1 && p[1] == 0
    ensures Positive(s) && IsPermutation(p) && !FixesLastAxis(p)
    ensures PermuteShape(s, p) == s
  {
    s, p := [2, 2], [1, 0];
    assert p[1] == 0 && p[0] == 1;
    var t := PermuteShape(s, p);
    assert |t| == 2 && t[0] == s[1] && t[1] == s[0];
  }

  /** Subtracting `shift` on the second of two channels. */
  function ShiftSecond(shift: real): Operation {
    Normalize(Some(PerChannel([0.0, shift])), Some(Uniform(1.0)))
  }

  lemma ShiftSecondMayNotSwap(shift: real, s: Shape, p: seq<nat>)
    requires |s| == 2 && s[0] == 2 && s[1] == 2 && |p| == 2 && p[0] == 1 && p[1] == 0 && shift != 0.0
    ensures !MaySwap(s, p, ShiftSecond(shift), None)
  {
    var st := Stats(PerChannel([0.0, shift]), Uniform(1.0));
    assert ChannelLine(st, 0, false).Success? && ChannelLine(st, 1, false).Success?;
    NoErrorMeaning(st, false, 0, Channels(s));
    assert StatAt(st.mean, 0) == Success(0.0) && StatAt(st.mean, 1) == Success(shift);
  }

  /** With statistics per channel, moving the last axis can change the result: swapping the
      axes of a 2 x 2 matrix and shifting its second channel do not commute. */
  lemma MovingTheLastAxisExample(shift: real) returns (v: Tensor, p: seq<nat>)
    requires shift != 0.0
    ensures |p| == 2 && p[0] == 1 && p[1] == 0
    ensures ApplyAll(v, [PermuteOp(p), ShiftSecond(shift)], None) != ApplyAll(v, [ShiftSecond(shift), PermuteOp(p)], None)
  {
    var s: Shape;
    s, p := SwappedAxes();
    ShiftSecondMayNotSwap(shift, s, p);
    v := DisagreeingPipelines(s, p, ShiftSecond(shift), None);
  }

  /** Statistics for two channels, all zero: no channel is told apart, but a third has none. */
  function TwoZeros(): Operation {
    Denormalize(Some(PerChannel([0.0, 0.0])), Some(PerChannel([0.0, 0.0])))
  }

  lemma TwoZerosErrors(s: Shape)
    requires |s| == 2 && s[1] >= 2
    ensures OpError(TwoZeros(), None, s) == if s[1] == 2 then None else Some(IndexError)
  {
    var st := Stats(PerChannel([0.0, 0.0]), PerChannel([0.0, 0.0]));
    assert ChannelLine(st, 0, true).Success? && ChannelLine(st, 1, true).Success?;
    NoErrorMeaning(st, true, 0, Channels(s));
    if s[1] > 2 {
      assert ChannelLine(st, 2, true) == Failure(IndexError);
      var c := FirstErrorChannel(st, true, 0, Channels(s));
      assert c == 2;
    }
  }

  /** Moving the last axis can also change whether there is a result: of a 3 x 2 matrix, two
      channels can be processed before its axes are swapped and not after. */
  lemma MissingChannelExample() returns (v: Tensor, p: seq<nat>)
    ensures |p| == 2 && p[0] == 1 && p[1] == 0
    ensures ApplyAll(v, [PermuteOp(p), TwoZeros()], None) == Failure(IndexError)
    ensures ApplyAll(v, [TwoZeros(), PermuteOp(p)], None).Success?
  {
    var square: Shape;
    square, p := SwappedAxes();
    var s := [3] + square[1..];
    assert |s| == 2 && s[0] == 3 && s[1] == 2;
    v := Tabulate(s, _ => 0.0);
    TwoZerosErrors(s);
    TwoZerosErrors(PermuteShape(s, p));
    BothOrdersDefined(v, s, p, OpMap(TwoZeros(), None));
    OrdersAsMaps(v, s, p, TwoZeros(), None);
  }
}
