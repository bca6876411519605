/** What the single operations of the transform pipeline do to each leaf, index by index. */
module TransformMeaning {
  import opened Outcomes
  import opened Numbers
  import opened NestedLists
  import opened AxisPermute
  import opened Transforms

  // ---------------------------------------------------------------- cast and scale

  lemma Alone(v: Tensor, op: Operation, stats: Option<Stats>)
    ensures ApplyAll(v, [op], stats) == Apply(v, op, stats)
  {
    assert [op][1..] == [];
    if Apply(v, op, stats).Success? {
      assert ApplyAll(Apply(v, op, stats).value, [], stats) == Apply(v, op, stats);
    }
  }

  lemma MapLeavesAt(v: Tensor, s: Shape, fn: real -> real)
    requires HasShape(v, s)
    ensures HasShape(MapLeaves(v, fn), s)
    ensures forall idx :: InBounds(idx, s) ==> At(MapLeaves(v, fn), s, idx) == fn(At(v, s, idx))
  {
    var f := (_: nat, x: real) => fn(x);
    MapLeavesIsMapChannels(v, 0, fn, f);
    MapChannelsAt(v, s, 0, f);
  }

  predicate IsWhole(y: real) {
    y.Floor as real == y
  }

  lemma WholeNumber(n: int)
    ensures IsWhole(n as real) && IsWhole(-(n as real))
  {
    assert -(n as real) == (-n) as real;
  }

  lemma FloorBounds(x: real)
    requires x >= 0.0
    ensures 0.0 <= x.Floor as real <= x < x.Floor as real + 1.0
  {
  }

  /** `y` is `x` without its fraction. */
  predicate IsTruncated(x: real, y: real) {
    IsWhole(y) && x * y >= 0.0 && Abs(y) <= Abs(x) < Abs(y) + 1.0
  }

  /** There is only one such number. */
  lemma TruncatedIsUnique(x: real, y: real, z: real)
    requires IsTruncated(x, y) && IsTruncated(x, z)
    ensures y == z
  {
    SignsAgree(x, y);
    SignsAgree(x, z);
    WholeNumbersApart(y, z, y.Floor, z.Floor);
  }

  lemma WholeNumbersApart(y: real, z: real, m: int, n: int)
    requires y == m as real && z == n as real
    requires (y >= 0.0 && z >= 0.0) || (y <= 0.0 && z <= 0.0)
    requires Abs(y) < Abs(z) + 1.0 && Abs(z) < Abs(y) + 1.0
    ensures y == z
  {
    assert y - z == (m - n) as real;
  }

  lemma SignsAgree(x: real, y: real)
    requires x * y >= 0.0 && Abs(y) <= Abs(x)
    ensures (x >= 0.0 ==> y >= 0.0) && (x <= 0.0 ==> y <= 0.0)
  {
    if x > 0.0 && y < 0.0 {
      NegativeProduct(x, y);
    } else if x < 0.0 && y > 0.0 {
      NegativeProduct(y, x);
    }
  }

  lemma NegativeProduct(x: real, y: real)
    requires x > 0.0
    ensures y < 0.0 ==> x * y < 0.0
  {
  }

  lemma Truncation(x: real)
    ensures IsTruncated(x, Truncate(x))
  {
    var y := Truncate(x);
    if x >= 0.0 {
      FloorBounds(x);
      WholeNumber(x.Floor);
      assert y == x.Floor as real;
    } else {
      FloorBounds(-x);
      WholeNumber((-x).Floor);
      assert y == -((-x).Floor as real);
    }
    SameSign(x, y);
  }

  lemma SameSign(x: real, y: real)
    requires (x >= 0.0 ==> y >= 0.0) && (x <= 0.0 ==> y <= 0.0)
    ensures x * y >= 0.0
  {
  }

  predicate StartsWithFloat(name: string) {
    |name| >= 5 && name[0] == 'f' && name[1] == 'l' && name[2] == 'o' && name[3] == 'a' && name[4] == 't'
  }

  lemma FloatPrefix(name: string)
    ensures "float" <= name <==> StartsWithFloat(name)
  {
    var float := "float";
    assert |float| == 5 && float[0] == 'f' && float[1] == 'l' && float[2] == 'o' && float[3] == 'a' && float[4] == 't';
    if StartsWithFloat(name) {
      assert float == name[..5];
    }
  }

  /** A cast to a float type, the default, changes nothing; any other takes every leaf to the
      integer next to it towards zero. */
  lemma CastMeaning(v: Tensor, s: Shape, to: Option<string>, stats: Option<Stats>)
    requires HasShape(v, s)
    ensures to.None? || StartsWithFloat(to.value) ==> ApplyAll(v, [Cast(to)], stats) == Success(v)
    ensures to.Some? && !StartsWithFloat(to.value) ==>
              var r := ApplyAll(v, [Cast(to)], stats);
              && r.Success? && HasShape(r.value, s)
              && forall idx :: InBounds(idx, s) ==> IsTruncated(At(v, s, idx), At(r.value, s, idx))
  {
    Alone(v, Cast(to), stats);
    if to.Some? {
      FloatPrefix(to.value);
    }
    MapLeavesAt(v, s, Truncate);
    forall idx | InBounds(idx, s)
      ensures IsTruncated(At(v, s, idx), At(MapLeaves(v, Truncate), s, idx))
    {
      Truncation(At(v, s, idx));
    }
  }

  /** Scaling multiplies every leaf. */
  lemma ScaleMeaning(v: Tensor, s: Shape, factor: real, stats: Option<Stats>)
    requires HasShape(v, s)
    ensures var r := ApplyAll(v, [Scale(factor)], stats);
            && r.Success? && HasShape(r.value, s)
            && forall idx :: InBounds(idx, s) ==> At(r.value, s, idx) == At(v, s, idx) * factor
  {
    Alone(v, Scale(factor), stats);
    MapLeavesAt(v, s, (x: real) => x * factor);
  }

  // ---------------------------------------------------------------- normalize and denormalize

  predicate HasEntry(stat: Stat, c: nat) {
    stat.PerChannel? ==> c < |stat.numbers|
  }

  function Entry(stat: Stat, c: nat): real
    requires HasEntry(stat, c)
  {
    match stat
    case Uniform(x) => x
    case PerChannel(xs) => xs[c]
  }

  /** Why one channel cannot be processed, if it cannot. */
  function ChannelError(mean: Stat, std: Stat, c: nat, invert: bool): Option<TransformError> {
    if !HasEntry(mean, c) || !HasEntry(std, c) then Some(IndexError)
    else if !invert && Entry(std, c) == 0.0 then Some(ZeroDivision)
    else None
  }

  /** What becomes of a leaf on a channel. */
  function Standardized(x: real, mean: Stat, std: Stat, c: nat, invert: bool): real
    requires ChannelError(mean, std, c, invert).None?
  {
    if invert then x * Entry(std, c) + Entry(mean, c) else (x - Entry(mean, c)) / Entry(std, c)
  }

  lemma ChannelLineMeaning(mean: Stat, std: Stat, c: nat, invert: bool)
    ensures var line := ChannelLine(Stats(mean, std), c, invert);
            match ChannelError(mean, std, c, invert)
            case Some(e) => line == Failure(e)
            case None =>
              && line.Success?
              && forall x :: line.value.Eval(x) == Standardized(x, mean, std, c, invert)
  {
    if ChannelError(mean, std, c, invert).None? && !invert {
      forall x
        ensures ChannelLine(Stats(mean, std), c, invert).value.Eval(x) == Standardized(x, mean, std, c, invert)
      {
        DivisionSplits(x, Entry(mean, c), Entry(std, c));
      }
    }
  }

  /** Normalizing or denormalizing with its own statistics. */
  function Standardize(mean: Stat, std: Stat, invert: bool): Operation {
    if invert then Denormalize(Some(mean), Some(std)) else Normalize(Some(mean), Some(std))
  }

  lemma StandardizeIsAffine(v: Tensor, s: Shape, mean: Stat, std: Stat, invert: bool, stats: Option<Stats>)
    requires HasShape(v, s) && Positive(s) && s != []
    ensures ApplyAll(v, [Standardize(mean, std, invert)], stats) ==
            match FirstError(Stats(mean, std), invert, 0, Channels(s))
            case Some(e) => Failure(e)
            case None => Success(MapChannels(v, 0, AffineMap(Stats(mean, std), invert)))
  {
    Alone(v, Standardize(mean, std, invert), stats);
    AffineOnArray(v, s, Stats(mean, std), invert);
  }

  /** On a full array with at least one axis, every leaf `x` on channel `c` of the last axis
      becomes `(x - mean) / std`, or `x * std + mean`, with that channel's entries, whatever the
      pipeline's statistics, if every channel has its entries and nothing to divide by is zero. */
  lemma StandardizeMeaning(v: Tensor, s: Shape, mean: Stat, std: Stat, invert: bool, stats: Option<Stats>)
    requires HasShape(v, s) && Positive(s) && s != []
    requires forall c: nat :: c < s[|s| - 1] ==> ChannelError(mean, std, c, invert).None?
    ensures var r := ApplyAll(v, [Standardize(mean, std, invert)], stats);
            && r.Success? && HasShape(r.value, s)
            && forall idx :: InBounds(idx, s) ==>
                 At(r.value, s, idx) == Standardized(At(v, s, idx), mean, std, idx[|idx| - 1], invert)
  {
    var st := Stats(mean, std);
    forall c: nat | c < Channels(s)
      ensures ChannelLine(st, c, invert).Success?
    {
      ChannelLineMeaning(mean, std, c, invert);
    }
    NoErrorMeaning(st, invert, 0, Channels(s));
    StandardizeIsAffine(v, s, mean, std, invert, stats);
    MapChannelsAt(v, s, 0, AffineMap(st, invert));
    forall idx | InBounds(idx, s)
      ensures At(MapChannels(v, 0, AffineMap(st, invert)), s, idx)
              == Standardized(At(v, s, idx), mean, std, idx[|idx| - 1], invert)
    {
      StandardizedAt(mean, std, idx[|idx| - 1], invert, At(v, s, idx));
    }
  }

  lemma StandardizedAt(mean: Stat, std: Stat, c: nat, invert: bool, x: real)
    requires ChannelError(mean, std, c, invert).None?
    ensures AffineMap(Stats(mean, std), invert)(c, x) == Standardized(x, mean, std, c, invert)
  {
    ChannelLineMeaning(mean, std, c, invert);
    assert AffineMap(Stats(mean, std), invert)(c, x) == ChannelLine(Stats(mean, std), c, invert).value.Eval(x);
  }

  /** Otherwise the error of the first channel that has one is raised. */
  lemma StandardizeFails(v: Tensor, s: Shape, mean: Stat, std: Stat, invert: bool, stats: Option<Stats>, c: nat)
    requires HasShape(v, s) && Positive(s) && s != [] && c < s[|s| - 1]
    requires ChannelError(mean, std, c, invert).Some? && forall d: nat :: d < c ==> ChannelError(mean, std, d, invert).None?
    ensures ApplyAll(v, [Standardize(mean, std, invert)], stats) == Failure(ChannelError(mean, std, c, invert).value)
  {
    var st := Stats(mean, std);
    forall d: nat | d <= c
      ensures ChannelLine(st, d, invert).Success? <==> d < c
      ensures d == c ==> ChannelLine(st, d, invert) == Failure(ChannelError(mean, std, c, invert).value)
    {
      ChannelLineMeaning(mean, std, d, invert);
    }
    NoErrorMeaning(st, invert, 0, Channels(s));
    assert ChannelLine(st, c, invert).Failure?;
    var first := FirstErrorChannel(st, invert, 0, Channels(s));
    assert first == c;
    StandardizeIsAffine(v, s, mean, std, invert, stats);
  }

  /** An operation without both of its own statistics takes both from the pipeline, and fails
      without those. A bare number is not a list to be normalized. */
  lemma StatisticsFromPipeline(v: Tensor, mean: Option<Stat>, std: Option<Stat>, stats: Option<Stats>)
    requires mean.None? || std.None?
    ensures stats.None? ==>
              && ApplyAll(v, [Normalize(mean, std)], stats) == Failure(MissingStats)
              && ApplyAll(v, [Denormalize(mean, std)], stats) == Failure(MissingStats)
    ensures stats.Some? ==>
              && ApplyAll(v, [Normalize(mean, std)], stats)
                 == ApplyAll(v, [Standardize(stats.value.mean, stats.value.std, false)], None)
              && ApplyAll(v, [Denormalize(mean, std)], stats)
                 == ApplyAll(v, [Standardize(stats.value.mean, stats.value.std, true)], None)
  {
    Alone(v, Normalize(mean, std), stats);
    Alone(v, Denormalize(mean, std), stats);
    if stats.Some? {
      Alone(v, Standardize(stats.value.mean, stats.value.std, false), None);
      Alone(v, Standardize(stats.value.mean, stats.value.std, true), None);
    }
  }

  lemma BareNumberRefused(x: real, mean: Stat, std: Stat, invert: bool, stats: Option<Stats>)
    ensures ApplyAll(Leaf(x), [Standardize(mean, std, invert)], stats) == Failure(NotAList)
  {
    Alone(Leaf(x), Standardize(mean, std, invert), stats);
  }
}
