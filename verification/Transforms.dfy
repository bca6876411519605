/** The transform pipeline: cast, scale, normalize and denormalize beside permute, applied in
    order, and the algebra those operations satisfy. Leaves are real numbers. */
module Transforms {
  import opened Outcomes
  import opened NestedLists
  import opened AxisPermute

  type Tensor = Nested<real>

  /** A statistic is one number or one number per entry of the last axis. */
  datatype Stat = Uniform(number: real) | PerChannel(numbers: seq<real>)

  datatype Stats = Stats(mean: Stat, std: Stat)

  datatype Operation =
    | PermuteOp(order: seq<int>)
    | Cast(to: Option<string>)
    | Scale(factor: real)
    | Normalize(mean: Option<Stat>, std: Option<Stat>)
    | Denormalize(mean: Option<Stat>, std: Option<Stat>)

  // ---------------------------------------------------------------- the operations

  function MapLeaves<A, B>(v: Nested<A>, fn: A -> B): Nested<B> {
    match v
    case Leaf(x) => Leaf(fn(x))
    case List(items) => List(seq(|items|, i requires 0 <= i < |items| => MapLeaves(items[i], fn)))
  }

  /** `int(x)`: truncation toward zero. */
  function Truncate(x: real): real {
    if x >= 0.0 then x.Floor as real else -((-x).Floor as real)
  }

  predicate IsFloatName(to: Option<string>) {
    to.None? || "float" <= to.value
  }

  function StatAt(stat: Stat, channel: nat): Outcome<real> {
    match stat
    case Uniform(x) => Success(x)
    case PerChannel(xs) => if channel < |xs| then Success(xs[channel]) else Failure(IndexError)
  }

  function Normalized(x: real, m: real, s: real): real
    requires s != 0.0
  {
    (x - m) / s
  }

  function Denormalized(x: real, m: real, s: real): real {
    x * s + m
  }

  /** One entry of an innermost list, with the source's order of evaluation. */
  function AffineEntry(x: Tensor, stats: Stats, channel: nat, invert: bool): Outcome<Tensor> {
    var m :- StatAt(stats.mean, channel);
    var s :- StatAt(stats.std, channel);
    if x.List? then Failure(TypeError)
    else if invert then Success(Leaf(Denormalized(x.value, m, s)))
    else if s == 0.0 then Failure(ZeroDivision)
    else Success(Leaf(Normalized(x.value, m, s)))
  }

  function AffineRec(x: Tensor, stats: Stats, invert: bool): Outcome<Tensor> {
    match x
    case Leaf(_) => Failure(TypeError)
    case List(items) =>
      if items == [] then Failure(IndexError)
      else if items[0].List? then
        var rows :- Collect(seq(|items|, i requires 0 <= i < |items| => AffineRec(items[i], stats, invert)));
        Success(List(rows))
      else
        var row :- Collect(seq(|items|, i requires 0 <= i < |items| => AffineEntry(items[i], stats, i, invert)));
        Success(List(row))
  }

  /** Normalize `(x - mean) / std`, or denormalize `x * std + mean`, along the last axis. */
  function Affine(v: Tensor, stats: Stats, invert: bool): Outcome<Tensor> {
    if v.Leaf? then Failure(NotAList) else AffineRec(v, stats, invert)
  }

  /** An operation's own statistics, or the pipeline's when either is missing. */
  function ResolveStats(mean: Option<Stat>, std: Option<Stat>, stats: Option<Stats>): Outcome<Stats> {
    if mean.Some? && std.Some? then Success(Stats(mean.value, std.value))
    else if stats.None? then Failure(MissingStats)
    else Success(stats.value)
  }

  function Apply(v: Tensor, op: Operation, stats: Option<Stats>): Outcome<Tensor> {
    match op
    case PermuteOp(order) => Permute(v, order)
    case Cast(to) => Success(if IsFloatName(to) then v else MapLeaves(v, Truncate))
    case Scale(f) => Success(MapLeaves(v, (x: real) => x * f))
    case Normalize(m, s) =>
      var st :- ResolveStats(m, s, stats);
      Affine(v, st, false)
    case Denormalize(m, s) =>
      var st :- ResolveStats(m, s, stats);
      Affine(v, st, true)
  }

  function ApplyAll(v: Tensor, ops: seq<Operation>, stats: Option<Stats>): Outcome<Tensor>
    decreases |ops|
  {
    if ops == [] then Success(v)
    else
      var out :- Apply(v, ops[0], stats);
      ApplyAll(out, ops[1..], stats)
  }

  method AffineLoop(x: Tensor, stats: Stats, invert: bool) returns (r: Outcome<Tensor>)
    ensures r == AffineRec(x, stats, invert)
  {
    if x.Leaf? {
      return Failure(TypeError);
    }
    if x.items == [] {
      return Failure(IndexError);
    }
    var nested := x.items[0].List?;
    ghost var wanted := if nested
      then seq(|x.items|, i requires 0 <= i < |x.items| => AffineRec(x.items[i], stats, invert))
      else seq(|x.items|, i requires 0 <= i < |x.items| => AffineEntry(x.items[i], stats, i, invert));
    var out := [];
    for i := 0 to |x.items|
      invariant |out| == i && forall j :: 0 <= j < i ==> wanted[j] == Success(out[j])
    {
      var entry;
      if nested {
        entry := AffineLoop(x.items[i], stats, invert);
      } else {
        entry := AffineEntry(x.items[i], stats, i, invert);
      }
      if entry.Failure? {
        assert wanted[i] == entry;
        return Failure(entry.error);
      }
      out := out + [entry.value];
    }
    assert Collect(wanted).value == out;
    return Success(List(out));
  }

  /** `apply_operations`: the ops in order, stopping at the first error. */
  method ApplyOperations(value: Tensor, operations: seq<Operation>, stats: Option<Stats>) returns (r: Outcome<Tensor>)
    ensures r == ApplyAll(value, operations, stats)
  {
    var out := value;
    for k := 0 to |operations|
      invariant ApplyAll(value, operations, stats) == ApplyAll(out, operations[k..], stats)
    {
      assert operations[k..][0] == operations[k] && operations[k..][1..] == operations[k + 1..];
      var next: Outcome<Tensor>;
      match operations[k] {
        case PermuteOp(order) =>
          next := PermuteLoop(out, order);
        case Normalize(m, s) =>
          var st := ResolveStats(m, s, stats);
          if st.Failure? {
            return Failure(st.error);
          }
          if out.Leaf? {
            return Failure(NotAList);
          }
          next := AffineLoop(out, st.value, false);
        case Denormalize(m, s) =>
          var st := ResolveStats(m, s, stats);
          if st.Failure? {
            return Failure(st.error);
          }
          if out.Leaf? {
            return Failure(NotAList);
          }
          next := AffineLoop(out, st.value, true);
        case _ =>
          next := Apply(out, operations[k], stats);
      }
      if next.Failure? {
        return Failure(next.error);
      }
      out := next.value;
    }
    return Success(out);
  }

  // ---------------------------------------------------------------- per-channel maps

  /** Every leaf mapped by `f` of its last index and its value; `c` is the index so far. */
  function MapChannels(v: Tensor, c: nat, f: (nat, real) -> real): Tensor {
    match v
    case Leaf(x) => Leaf(f(c, x))
    case List(items) => List(seq(|items|, i requires 0 <= i < |items| => MapChannels(items[i], i, f)))
  }

  function LastIndex(c: nat, idx: seq<nat>): nat {
    if idx == [] then c else idx[|idx| - 1]
  }

  /** How many channels an array of shape `s` has; a bare number is its own channel. */
  function Channels(s: Shape): nat {
    if s == [] then 1 else s[|s| - 1]
  }

  lemma {:induction false} MapChannelsAt(v: Tensor, s: Shape, c: nat, f: (nat, real) -> real)
    requires HasShape(v, s)
    ensures HasShape(MapChannels(v, c, f), s)
    ensures forall idx :: InBounds(idx, s) ==> At(MapChannels(v, c, f), s, idx) == f(LastIndex(c, idx), At(v, s, idx))
    decreases s
  {
    if s == [] {
    } else {
      var w := MapChannels(v, c, f);
      forall i | 0 <= i < |v.items|
        ensures HasShape(w.items[i], s[1..])
      {
        MapChannelsAt(v.items[i], s[1..], i, f);
      }
      forall idx | InBounds(idx, s)
        ensures At(w, s, idx) == f(LastIndex(c, idx), At(v, s, idx))
      {
        MapChannelsAt(v.items[idx[0]], s[1..], idx[0], f);
        assert InBounds(idx[1..], s[1..]);
      }
    }
  }

  lemma MapChannelsCongruent(v: Tensor, s: Shape, f: (nat, real) -> real, g: (nat, real) -> real)
    requires HasShape(v, s)
    requires forall c, x :: 0 <= c < Channels(s) ==> f(c, x) == g(c, x)
    ensures MapChannels(v, 0, f) == MapChannels(v, 0, g)
  {
    MapChannelsAt(v, s, 0, f);
    MapChannelsAt(v, s, 0, g);
    forall idx | InBounds(idx, s)
      ensures At(MapChannels(v, 0, f), s, idx) == At(MapChannels(v, 0, g), s, idx)
    {
      assert LastIndex(0, idx) < Channels(s);
    }
    Extensionality(MapChannels(v, 0, f), MapChannels(v, 0, g), s);
  }

  lemma {:induction false} MapLeavesIsMapChannels(v: Tensor, c: nat, fn: real -> real, f: (nat, real) -> real)
    requires forall c, x :: f(c, x) == fn(x)
    ensures MapLeaves(v, fn) == MapChannels(v, c, f)
  {
    match v
    case Leaf(_) =>
    case List(items) =>
      forall i | 0 <= i < |items|
        ensures MapLeaves(items[i], fn) == MapChannels(items[i], i, f)
      {
        MapLeavesIsMapChannels(items[i], i, fn, f);
      }
      assert MapLeaves(v, fn).items == MapChannels(v, c, f).items;
  }

  lemma {:induction false} MapChannelsTwice(v: Tensor, c: nat, f: (nat, real) -> real, g: (nat, real) -> real, h: (nat, real) -> real)
    requires forall c, x :: h(c, x) == g(c, f(c, x))
    ensures MapChannels(MapChannels(v, c, f), c, g) == MapChannels(v, c, h)
  {
    match v
    case Leaf(_) =>
    case List(items) =>
      var w := MapChannels(MapChannels(v, c, f), c, g);
      forall i | 0 <= i < |items|
        ensures w.items[i] == MapChannels(items[i], i, h)
      {
        MapChannelsTwice(items[i], i, f, g, h);
      }
      assert w.items == MapChannels(v, c, h).items;
  }

  // ---------------------------------------------------------------- affine steps as lines

  /** The affine map `x -> x * gain + offset`. */
  datatype Line = Line(gain: real, offset: real) {
    function Eval(x: real): real {
      x * gain + offset
    }

    /** First `this`, then `next`. */
    function Then(next: Line): (r: Line)
      ensures forall x :: r.Eval(x) == next.Eval(Eval(x))
    {
      Line(gain * next.gain, offset * next.gain + next.offset)
    }
  }

  /** What normalize or denormalize does on one channel, or why it cannot. */
  function ChannelLine(stats: Stats, channel: nat, invert: bool): Outcome<Line> {
    var m :- StatAt(stats.mean, channel);
    var s :- StatAt(stats.std, channel);
    if invert then Success(Line(s, m))
    else if s == 0.0 then Failure(ZeroDivision)
    else Success(Line(1.0 / s, -m / s))
  }

  lemma Cancel(a: real, b: real, s: real)
    requires s != 0.0 && a * s == b * s
    ensures a == b
  {
    assert (a - b) * s == 0.0;
  }

  lemma DivisionSplits(x: real, m: real, s: real)
    requires s != 0.0
    ensures (x - m) / s == x * (1.0 / s) + (-m / s)
  {
    var q := 1.0 / s;
    assert q * s == 1.0 && (-m / s) * s == -m && ((x - m) / s) * s == x - m;
    assert (x * q + (-m / s)) * s == x * (q * s) + (-m / s) * s;
    Cancel((x - m) / s, x * q + (-m / s), s);
  }

  lemma LineValues(x: real, m: real, s: real)
    ensures Line(s, m).Eval(x) == Denormalized(x, m, s)
    ensures s != 0.0 ==> Line(1.0 / s, -m / s).Eval(x) == Normalized(x, m, s)
  {
    if s != 0.0 {
      DivisionSplits(x, m, s);
    }
  }

  lemma AffineEntryIsLine(x: real, stats: Stats, channel: nat, invert: bool)
    ensures AffineEntry(Leaf(x), stats, channel, invert) ==
            match ChannelLine(stats, channel, invert)
            case Failure(e) => Failure(e)
            case Success(line) => Success(Leaf(line.Eval(x)))
  {
    var m, s := StatAt(stats.mean, channel), StatAt(stats.std, channel);
    if m.Success? && s.Success? {
      LineValues(x, m.value, s.value);
    }
  }

  function EvalLine(line: Outcome<Line>, x: real): real {
    if line.Success? then line.value.Eval(x) else 0.0
  }

  function AffineMap(stats: Stats, invert: bool): (nat, real) -> real {
    (c: nat, x: real) => EvalLine(ChannelLine(stats, c, invert), x)
  }

  /** The first channel below `n` that cannot be processed. */
  function FirstError(stats: Stats, invert: bool, k: nat, n: nat): Option<TransformError>
    requires k <= n
    decreases n - k
  {
    if k == n then None
    else
      match ChannelLine(stats, k, invert)
      case Failure(e) => Some(e)
      case Success(_) => FirstError(stats, invert, k + 1, n)
  }

  lemma {:induction false} NoErrorMeaning(stats: Stats, invert: bool, k: nat, n: nat)
    requires k <= n
    ensures FirstError(stats, invert, k, n).None? <==>
            forall c :: k <= c < n ==> ChannelLine(stats, c, invert).Success?
    decreases n - k
  {
    if k == n || ChannelLine(stats, k, invert).Failure? {
    } else {
      NoErrorMeaning(stats, invert, k + 1, n);
    }
  }

  lemma {:induction false} FirstErrorChannel(stats: Stats, invert: bool, k: nat, n: nat) returns (c: nat)
    requires k <= n && FirstError(stats, invert, k, n).Some?
    ensures k <= c < n && ChannelLine(stats, c, invert) == Failure(FirstError(stats, invert, k, n).value)
    ensures forall d :: k <= d < c ==> ChannelLine(stats, d, invert).Success?
    decreases n - k
  {
    if ChannelLine(stats, k, invert).Failure? {
      c := k;
    } else {
      c := FirstErrorChannel(stats, invert, k + 1, n);
    }
  }

  lemma AffineOnRow(v: Tensor, n: nat, stats: Stats, invert: bool)
    requires HasShape(v, [n]) && n > 0
    ensures AffineRec(v, stats, invert) ==
            match FirstError(stats, invert, 0, n)
            case Some(e) => Failure(e)
            case None => Success(MapChannels(v, 0, AffineMap(stats, invert)))
  {
    var items := v.items;
    assert [n][1..] == [];
    assert forall i :: 0 <= i < n ==> HasShape(items[i], [n][1..]);
    var entries := seq(n, i requires 0 <= i < n => AffineEntry(items[i], stats, i, invert));
    NoErrorMeaning(stats, invert, 0, n);
    forall i | 0 <= i < n
      ensures entries[i] == match ChannelLine(stats, i, invert)
                            case Failure(e) => Failure(e)
                            case Success(line) => Success(Leaf(line.Eval(items[i].value)))
    {
      AffineEntryIsLine(items[i].value, stats, i, invert);
      assert items[i] == Leaf(items[i].value);
    }
    if FirstError(stats, invert, 0, n).None? {
      assert Collect(entries).value == MapChannels(v, 0, AffineMap(stats, invert)).items;
    } else {
      var c := FirstErrorChannel(stats, invert, 0, n);
      assert entries[c].Failure?;
    }
  }

  /** On a full array, normalize and denormalize either fail on the first bad channel or map
      every leaf by its channel's line. */
  lemma {:induction false} AffineOnArray(v: Tensor, s: Shape, stats: Stats, invert: bool)
    requires HasShape(v, s) && Positive(s) && s != []
    ensures AffineRec(v, stats, invert) ==
            match FirstError(stats, invert, 0, Channels(s))
            case Some(e) => Failure(e)
            case None => Success(MapChannels(v, 0, AffineMap(stats, invert)))
    decreases s
  {
    if |s| == 1 {
      assert s == [s[0]];
      AffineOnRow(v, s[0], stats, invert);
    } else {
      var items, t := v.items, s[1..];
      var f := AffineMap(stats, invert);
      assert Positive(t) && Channels(t) == Channels(s);
      assert HasShape(items[0], t);
      var rows := seq(|items|, i requires 0 <= i < |items| => AffineRec(items[i], stats, invert));
      forall i | 0 <= i < |items|
        ensures rows[i] == match FirstError(stats, invert, 0, Channels(s))
                           case Some(e) => Failure(e)
                           case None => Success(MapChannels(items[i], i, f))
      {
        AffineOnArray(items[i], t, stats, invert);
        assert MapChannels(items[i], 0, f) == MapChannels(items[i], i, f);
      }
      if FirstError(stats, invert, 0, Channels(s)).None? {
        assert Collect(rows).value == MapChannels(v, 0, f).items;
      } else {
        assert rows[0].Failure?;
      }
    }
  }

  // ---------------------------------------------------------------- fusion

  predicate IsArithmetic(op: Operation) {
    op.Scale? || op.Normalize? || op.Denormalize?
  }

  /** What one arithmetic operation does on one channel. */
  function OpLine(op: Operation, stats: Option<Stats>, channel: nat): Outcome<Line>
    requires IsArithmetic(op)
  {
    match op
    case Scale(f) => Success(Line(f, 0.0))
    case Normalize(m, s) =>
      var st :- ResolveStats(m, s, stats);
      ChannelLine(st, channel, false)
    case Denormalize(m, s) =>
      var st :- ResolveStats(m, s, stats);
      ChannelLine(st, channel, true)
  }

  /** The single affine map a list of arithmetic operations amounts to on one channel. */
  function Fuse(ops: seq<Operation>, stats: Option<Stats>, channel: nat): Outcome<Line>
    requires forall op :: op in ops ==> IsArithmetic(op)
  {
    if ops == [] then Success(Line(1.0, 0.0))
    else
      var first :- OpLine(ops[0], stats, channel);
      var rest :- Fuse(ops[1..], stats, channel);
      Success(first.Then(rest))
  }

  function OpMap(op: Operation, stats: Option<Stats>): (nat, real) -> real
    requires IsArithmetic(op)
  {
    (c: nat, x: real) => EvalLine(OpLine(op, stats, c), x)
  }

  function FusedMap(ops: seq<Operation>, stats: Option<Stats>): (nat, real) -> real
    requires forall op :: op in ops ==> IsArithmetic(op)
  {
    (c: nat, x: real) => EvalLine(Fuse(ops, stats, c), x)
  }

  /** An operation works on arrays of shape `s`: affine ones need a list, and every channel
      needs its statistics, with a nonzero deviation to divide by. */
  predicate OpApplies(op: Operation, stats: Option<Stats>, s: Shape)
    requires IsArithmetic(op)
  {
    (op.Scale? || s != []) && forall c :: 0 <= c < Channels(s) ==> OpLine(op, stats, c).Success?
  }

  lemma ArithmeticOnArray(v: Tensor, s: Shape, op: Operation, stats: Option<Stats>)
    requires HasShape(v, s) && Positive(s) && IsArithmetic(op)
    ensures Apply(v, op, stats).Success? <==> OpApplies(op, stats, s)
    ensures OpApplies(op, stats, s) ==> Apply(v, op, stats) == Success(MapChannels(v, 0, OpMap(op, stats)))
  {
    var f := OpMap(op, stats);
    if op.Scale? {
      var fn := (x: real) => x * op.factor;
      assert forall c, x :: f(c, x) == EvalLine(OpLine(op, stats, c), x) == fn(x);
      MapLeavesIsMapChannels(v, 0, fn, f);
    } else if s != [] {
      var invert := op.Denormalize?;
      var resolved := ResolveStats(op.mean, op.std, stats);
      if resolved.Success? {
        var st := resolved.value;
        assert forall c :: OpLine(op, stats, c) == ChannelLine(st, c, invert);
        AffineOnArray(v, s, st, invert);
        NoErrorMeaning(st, invert, 0, Channels(s));
        MapChannelsCongruent(v, s, AffineMap(st, invert), f);
      } else {
        assert Channels(s) > 0 && OpLine(op, stats, 0).Failure?;
      }
    }
  }

  lemma {:induction false} MapChannelsIdentity(v: Tensor, c: nat, f: (nat, real) -> real)
    requires forall c, x :: f(c, x) == x
    ensures MapChannels(v, c, f) == v
  {
    match v
    case Leaf(_) =>
    case List(items) =>
      forall i | 0 <= i < |items|
        ensures MapChannels(items[i], i, f) == items[i]
      {
        MapChannelsIdentity(items[i], i, f);
      }
      assert MapChannels(v, c, f).items == items;
  }

  /** A list of scale, normalize and denormalize operations succeeds on a full array exactly
      when each of them applies, and is then one affine map per leaf, the same for all
      leaves of a channel. */
  lemma {:induction false} Fusion(v: Tensor, s: Shape, ops: seq<Operation>, stats: Option<Stats>)
    requires HasShape(v, s) && Positive(s)
    requires forall op :: op in ops ==> IsArithmetic(op)
    ensures ApplyAll(v, ops, stats).Success? <==> forall k :: 0 <= k < |ops| ==> OpApplies(ops[k], stats, s)
    ensures ApplyAll(v, ops, stats).Success? ==>
              && (forall c :: 0 <= c < Channels(s) ==> Fuse(ops, stats, c).Success?)
              && ApplyAll(v, ops, stats) == Success(MapChannels(v, 0, FusedMap(ops, stats)))
    decreases |ops|
  {
    if ops == [] {
      MapChannelsIdentity(v, 0, FusedMap(ops, stats));
    } else {
      var op, rest := ops[0], ops[1..];
      ArithmeticOnArray(v, s, op, stats);
      if OpApplies(op, stats, s) {
        var w := MapChannels(v, 0, OpMap(op, stats));
        MapChannelsAt(v, s, 0, OpMap(op, stats));
        Fusion(w, s, rest, stats);
        assert ApplyAll(v, ops, stats) == ApplyAll(w, rest, stats);
        assert forall k :: 0 <= k < |rest| ==> rest[k] == ops[k + 1];
        assert (forall k :: 0 <= k < |ops| ==> OpApplies(ops[k], stats, s))
          <==> (forall k :: 0 <= k < |rest| ==> OpApplies(rest[k], stats, s)) by {
          if forall k :: 0 <= k < |rest| ==> OpApplies(rest[k], stats, s) {
            forall k | 0 <= k < |ops|
              ensures OpApplies(ops[k], stats, s)
            {
              if k > 0 {
                assert OpApplies(rest[k - 1], stats, s);
              }
            }
          }
        }
        if ApplyAll(w, rest, stats).Success? {
          FusionStep(v, s, op, rest, stats);
          assert [op] + rest == ops;
        }
      }
    }
  }

  lemma FusionStep(v: Tensor, s: Shape, op: Operation, rest: seq<Operation>, stats: Option<Stats>)
    requires HasShape(v, s) && IsArithmetic(op) && forall o :: o in rest ==> IsArithmetic(o)
    requires forall c :: 0 <= c < Channels(s) ==> OpLine(op, stats, c).Success? && Fuse(rest, stats, c).Success?
    ensures forall c :: 0 <= c < Channels(s) ==> Fuse([op] + rest, stats, c).Success?
    ensures MapChannels(MapChannels(v, 0, OpMap(op, stats)), 0, FusedMap(rest, stats))
            == MapChannels(v, 0, FusedMap([op] + rest, stats))
  {
    var f, g := OpMap(op, stats), FusedMap(rest, stats);
    var h := (c: nat, x: real) => g(c, f(c, x));
    MapChannelsTwice(v, 0, f, g, h);
    assert ([op] + rest)[0] == op && ([op] + rest)[1..] == rest;
    forall c, x | 0 <= c < Channels(s)
      ensures h(c, x) == FusedMap([op] + rest, stats)(c, x)
    {
      var first, last := OpLine(op, stats, c).value, Fuse(rest, stats, c).value;
      assert Fuse([op] + rest, stats, c) == Success(first.Then(last));
      assert f(c, x) == first.Eval(x) && g(c, f(c, x)) == last.Eval(first.Eval(x));
    }
    MapChannelsCongruent(v, s, h, FusedMap([op] + rest, stats));
  }
}
