/** Validation of an observed payload against a feature contract at one pipeline stage. */
module PayloadValidation {
  import opened Outcomes
  import opened NestedLists
  import opened FeatureContracts
  import opened Numbers

  // ---------------------------------------------------------------- payload values

  /** What a payload holds where it holds no list. */
  datatype Scalar = Num(number: Number) | Truth(value: bool) | Other

  type Value = Nested<Scalar>

  predicate IsFinite(v: Value) {
    match v
    case List(items) => forall i :: 0 <= i < |items| ==> IsFinite(items[i])
    case Leaf(Truth(_)) => true
    case Leaf(Num(n)) => n.Fin?
    case Leaf(Other) => false
  }

  function NumericLeaves(v: Value): seq<Number> {
    match v
    case List(items) => NumericLeavesAll(items)
    case Leaf(Num(n)) => [n]
    case Leaf(_) => []
  }

  function NumericLeavesAll(items: seq<Value>): seq<Number> {
    if items == [] then [] else NumericLeaves(items[0]) + NumericLeavesAll(items[1..])
  }

  // ---------------------------------------------------------------- one feature

  /** The dimensions under an assignment of the symbols; `None` when one is unassigned. */
  function ResolveShape(shape: seq<Dim>, symbols: map<string, int>): Option<seq<int>> {
    if shape == [] then Some([])
    else
      var init := ResolveShape(shape[..|shape| - 1], symbols);
      var last := shape[|shape| - 1];
      if init.None? || (last.Symbol? && last.name !in symbols) then None
      else Some(init.value + [if last.Fixed? then last.size else symbols[last.name]])
  }

  method ResolveShapeLoop(shape: seq<Dim>, symbols: map<string, int>) returns (r: Option<seq<int>>)
    ensures r == ResolveShape(shape, symbols)
  {
    var out := [];
    for i := 0 to |shape|
      invariant ResolveShape(shape[..i], symbols) == Some(out)
    {
      assert shape[..i + 1][..i] == shape[..i];
      match shape[i] {
        case Fixed(n) =>
          out := out + [n];
        case Symbol(name) =>
          if name !in symbols {
            UnresolvedPrefix(shape, i + 1, symbols);
            return None;
          }
          out := out + [symbols[name]];
      }
    }
    assert shape[..|shape|] == shape;
    return Some(out);
  }

  lemma {:induction false} UnresolvedPrefix(shape: seq<Dim>, k: nat, symbols: map<string, int>)
    requires k <= |shape| && ResolveShape(shape[..k], symbols).None?
    ensures ResolveShape(shape, symbols).None?
    decreases |shape|
  {
    if k == |shape| {
      assert shape[..k] == shape;
    } else {
      var init := shape[..|shape| - 1];
      assert init[..k] == shape[..k];
      UnresolvedPrefix(init, k, symbols);
    }
  }

  datatype Failure =
    | Unexpected(key: string)
    | Missing(key: string)
    | Unresolved(id: string)
    | Ragged(id: string)
    | WrongShape(id: string, got: Shape, want: seq<int>)
    | NonFinite(id: string)
    | BelowMinimum(id: string, least: Number, minimum: real)
    | AboveMaximum(id: string, greatest: Number, maximum: real)

  /** The failures the source reports for one value, in its order. */
  function ValueFailures(spec: FeatureSpec, v: Value, symbols: map<string, int>): seq<Failure> {
    var want := ResolveShape(spec.shape, symbols);
    if want.None? then [Unresolved(spec.featureId)]
    else
      var got := RectShape(v);
      if got.None? then [Ragged(spec.featureId)]
      else if got.value != want.value then [WrongShape(spec.featureId, got.value, want.value)]
      else if spec.valueDomain.finite && !IsFinite(v) then [NonFinite(spec.featureId)]
      else
        var leaves := NumericLeaves(v);
        var lo, hi := spec.valueDomain.minimum, spec.valueDomain.maximum;
        (if leaves != [] && lo.Some? && Less(Least(leaves), Fin(lo.value))
         then [BelowMinimum(spec.featureId, Least(leaves), lo.value)] else [])
        + (if leaves != [] && hi.Some? && Less(Fin(hi.value), Greatest(leaves))
           then [AboveMaximum(spec.featureId, Greatest(leaves), hi.value)] else [])
  }

  function SpecFailures(spec: FeatureSpec, values: map<string, Value>, symbols: map<string, int>): seq<Failure> {
    if spec.key !in values then if spec.required then [Missing(spec.key)] else []
    else if spec.IsText() then []
    else ValueFailures(spec, values[spec.key], symbols)
  }

  // ---------------------------------------------------------------- the whole payload

  function StageSpecs(specs: seq<FeatureSpec>, stage: string): seq<FeatureSpec> {
    if specs == [] then []
    else
      StageSpecs(specs[..|specs| - 1], stage)
      + if specs[|specs| - 1].stage == stage then [specs[|specs| - 1]] else []
  }

  lemma {:induction false} StageSpecsMembers(specs: seq<FeatureSpec>, stage: string)
    ensures forall s :: s in StageSpecs(specs, stage) <==> s in specs && s.stage == stage
  {
    if specs == [] {
    } else {
      var init := specs[..|specs| - 1];
      StageSpecsMembers(init, stage);
      assert specs == init + [specs[|specs| - 1]];
    }
  }

  function AllSpecFailures(specs: seq<FeatureSpec>, values: map<string, Value>, symbols: map<string, int>): seq<Failure> {
    if specs == [] then []
    else AllSpecFailures(specs[..|specs| - 1], values, symbols) + SpecFailures(specs[|specs| - 1], values, symbols)
  }

  predicate Permitted(key: string, contract: FeatureContract, stage: string) {
    key == "task" || exists s :: s in contract.AllSpecs() && s.stage == stage && s.key == key
  }

  /** The declarative meaning of an accepting validation. */
  ghost predicate Accepts(values: map<string, Value>, contract: FeatureContract, stage: string,
                          symbols: map<string, int>, closed: bool)
  {
    && (closed ==> forall k :: k in values ==> Permitted(k, contract, stage))
    && forall s :: s in contract.AllSpecs() && s.stage == stage ==> SpecAccepts(s, values, symbols)
  }

  ghost predicate SpecAccepts(s: FeatureSpec, values: map<string, Value>, symbols: map<string, int>) {
    if s.key in values then s.IsText() || Fits(s, values[s.key], symbols) else !s.required
  }

  /** The value has the resolved dimensions, is finite if it must be, and no least or greatest
      numeric leaf leaves the domain. */
  ghost predicate Fits(s: FeatureSpec, v: Value, symbols: map<string, int>) {
    && (exists dims: Shape :: RectShape(v) == Some(dims) && ResolveShape(s.shape, symbols) == Some(dims))
    && (s.valueDomain.finite ==> IsFinite(v))
    && (NumericLeaves(v) != [] ==> InDomain(s.valueDomain, Least(NumericLeaves(v)), Greatest(NumericLeaves(v))))
  }

  predicate InDomain(d: ValueDomain, least: Number, greatest: Number) {
    && (d.minimum.Some? ==> !Less(least, Fin(d.minimum.value)))
    && (d.maximum.Some? ==> !Less(Fin(d.maximum.value), greatest))
  }

  lemma NoValueFailureMeansFits(s: FeatureSpec, v: Value, symbols: map<string, int>)
    ensures ValueFailures(s, v, symbols) == [] <==> Fits(s, v, symbols)
  {
    var want, got := ResolveShape(s.shape, symbols), RectShape(v);
    if want.Some? && got.Some? && got.value == want.value {
      var dims: Shape := got.value;
      assert RectShape(v) == Some(dims) && ResolveShape(s.shape, symbols) == Some(dims);
    }
  }

  lemma NoSpecFailureMeansAccepts(s: FeatureSpec, values: map<string, Value>, symbols: map<string, int>)
    ensures SpecFailures(s, values, symbols) == [] <==> SpecAccepts(s, values, symbols)
  {
    if s.key in values && !s.IsText() {
      NoValueFailureMeansFits(s, values[s.key], symbols);
    }
  }

  lemma {:induction false} NoFailuresMeansAllAccept(specs: seq<FeatureSpec>, values: map<string, Value>, symbols: map<string, int>)
    ensures AllSpecFailures(specs, values, symbols) == [] <==> forall s :: s in specs ==> SpecAccepts(s, values, symbols)
  {
    if specs == [] {
    } else {
      var init, last := specs[..|specs| - 1], specs[|specs| - 1];
      NoFailuresMeansAllAccept(init, values, symbols);
      NoSpecFailureMeansAccepts(last, values, symbols);
      assert specs == init + [last];
    }
  }

  /** The validation result object: failures are appended, and any failure clears `ok`. */
  class ValidationResult {
    var ok: bool
    var failures: seq<Failure>
    var validatedIds: seq<string>

    ghost predicate Valid()
      reads this
    {
      ok <==> failures == []
    }

    constructor ()
      ensures Valid() && failures == [] && validatedIds == []
    {
      ok, failures, validatedIds := true, [], [];
    }

    method Fail(f: Failure)
      requires Valid()
      modifies this`ok, this`failures
      ensures Valid() && failures == old(failures) + [f]
    {
      failures := failures + [f];
      ok := false;
    }
  }

  /** The ids the source reports as validated: text features present, and clean numeric ones. */
  function CleanIds(specs: seq<FeatureSpec>, values: map<string, Value>, symbols: map<string, int>): seq<string> {
    if specs == [] then []
    else
      var s := specs[|specs| - 1];
      CleanIds(specs[..|specs| - 1], values, symbols)
      + if s.key in values && SpecFailures(s, values, symbols) == [] then [s.featureId] else []
  }

  /** One pass of the validation loop. */
  method ValidateSpec(res: ValidationResult, spec: FeatureSpec, values: map<string, Value>, symbols: map<string, int>)
    requires res.Valid()
    modifies res
    ensures res.Valid() && res.failures == old(res.failures) + SpecFailures(spec, values, symbols)
    ensures res.validatedIds == old(res.validatedIds)
              + if spec.key in values && SpecFailures(spec, values, symbols) == [] then [spec.featureId] else []
  {
    var before := |res.failures|;
    if spec.key !in values {
      if spec.required {
        res.Fail(Missing(spec.key));
      }
      return;
    }
    var value := values[spec.key];
    if spec.IsText() {
      res.validatedIds := res.validatedIds + [spec.featureId];
      return;
    }
    var want := ResolveShapeLoop(spec.shape, symbols);
    if want.None? {
      res.Fail(Unresolved(spec.featureId));
      return;
    }
    var got := RectShape(value);
    if got.None? {
      res.Fail(Ragged(spec.featureId));
      return;
    }
    if got.value != want.value {
      res.Fail(WrongShape(spec.featureId, got.value, want.value));
      return;
    }
    if spec.valueDomain.finite && !IsFinite(value) {
      res.Fail(NonFinite(spec.featureId));
      return;
    }
    var leaves := NumericLeaves(value);
    var lo, hi := spec.valueDomain.minimum, spec.valueDomain.maximum;
    if leaves != [] && lo.Some? && Less(Least(leaves), Fin(lo.value)) {
      res.Fail(BelowMinimum(spec.featureId, Least(leaves), lo.value));
    }
    if leaves != [] && hi.Some? && Less(Fin(hi.value), Greatest(leaves)) {
      res.Fail(AboveMaximum(spec.featureId, Greatest(leaves), hi.value));
    }
    if |res.failures| == before {
      res.validatedIds := res.validatedIds + [spec.featureId];
    }
  }

  ghost predicate IsStray(f: Failure, keys: seq<string>, contract: FeatureContract, stage: string) {
    f.Unexpected? && f.key in keys && !Permitted(f.key, contract, stage)
  }

  /** The closed-mode pass over the payload's keys. */
  method ReportStrays(res: ValidationResult, keys: seq<string>, contract: FeatureContract, stage: string)
    requires res.Valid() && res.failures == []
    modifies res
    ensures res.Valid() && res.validatedIds == old(res.validatedIds)
    ensures forall f :: f in res.failures <==> IsStray(f, keys, contract, stage)
  {
    for i := 0 to |keys|
      invariant res.Valid() && res.validatedIds == old(res.validatedIds)
      invariant forall f :: f in res.failures <==> IsStray(f, keys[..i], contract, stage)
    {
      assert keys[..i + 1] == keys[..i] + [keys[i]];
      if !Permitted(keys[i], contract, stage) {
        res.Fail(Unexpected(keys[i]));
      }
    }
    assert keys[..|keys|] == keys;
  }

  lemma NoFailuresMeansAccepts(strays: seq<Failure>, keys: seq<string>, values: map<string, Value>,
                               contract: FeatureContract, stage: string, symbols: map<string, int>, closed: bool)
    requires forall k :: k in keys <==> k in values
    requires closed ==> forall f :: f in strays <==> IsStray(f, keys, contract, stage)
    requires !closed ==> strays == []
    ensures strays + AllSpecFailures(StageSpecs(contract.AllSpecs(), stage), values, symbols) == [] <==>
            Accepts(values, contract, stage, symbols, closed)
  {
    StageSpecsMembers(contract.AllSpecs(), stage);
    NoFailuresMeansAllAccept(StageSpecs(contract.AllSpecs(), stage), values, symbols);
    if closed && strays == [] {
      forall k | k in values
        ensures Permitted(k, contract, stage)
      {
        assert IsStray(Unexpected(k), keys, contract, stage) <==> Unexpected(k) in strays;
      }
    }
    if strays != [] {
      assert IsStray(strays[0], keys, contract, stage);
    }
  }

  lemma FailuresOneMore(strays: seq<Failure>, specs: seq<FeatureSpec>, i: nat, values: map<string, Value>, symbols: map<string, int>)
    requires i < |specs|
    ensures strays + AllSpecFailures(specs[..i + 1], values, symbols)
            == strays + AllSpecFailures(specs[..i], values, symbols) + SpecFailures(specs[i], values, symbols)
    ensures CleanIds(specs[..i + 1], values, symbols) == CleanIds(specs[..i], values, symbols)
              + if specs[i].key in values && SpecFailures(specs[i], values, symbols) == [] then [specs[i].featureId] else []
  {
    assert specs[..i + 1][..i] == specs[..i];
  }

  method ValidateSpecs(res: ValidationResult, specs: seq<FeatureSpec>, values: map<string, Value>, symbols: map<string, int>)
    requires res.Valid() && res.validatedIds == []
    modifies res
    ensures res.Valid() && res.failures == old(res.failures) + AllSpecFailures(specs, values, symbols)
    ensures res.validatedIds == CleanIds(specs, values, symbols)
  {
    ghost var strays := res.failures;
    for i := 0 to |specs|
      invariant res.Valid()
      invariant res.failures == strays + AllSpecFailures(specs[..i], values, symbols)
      invariant res.validatedIds == CleanIds(specs[..i], values, symbols)
    {
      FailuresOneMore(strays, specs, i, values, symbols);
      ValidateSpec(res, specs[i], values, symbols);
    }
    assert specs[..|specs|] == specs;
  }

  /** The payload validator: it accepts exactly the payloads that `Accepts` describes, and
      reports every failure of every feature. `keys` lists the payload's keys in order. */
  method ValidatePayload(keys: seq<string>, values: map<string, Value>, contract: FeatureContract, stage: string,
                         symbols: map<string, int>, closed: bool)
    returns (res: ValidationResult, ghost strays: seq<Failure>)
    requires forall k :: k in keys <==> k in values
    ensures fresh(res) && res.Valid()
    ensures res.ok <==> Accepts(values, contract, stage, symbols, closed)
    ensures forall f :: f in strays <==> closed && IsStray(f, keys, contract, stage)
    ensures res.failures == strays + AllSpecFailures(StageSpecs(contract.AllSpecs(), stage), values, symbols)
    ensures res.validatedIds == CleanIds(StageSpecs(contract.AllSpecs(), stage), values, symbols)
  {
    res := new ValidationResult();
    if closed {
      ReportStrays(res, keys, contract, stage);
    }
    strays := res.failures;
    ValidateSpecs(res, StageSpecs(contract.AllSpecs(), stage), values, symbols);
    NoFailuresMeansAccepts(strays, keys, values, contract, stage, symbols, closed);
  }

  // ---------------------------------------------------------------- the domain, leaf by leaf

  lemma {:induction false} LeastAndGreatestOfFinite(ns: seq<Number>)
    requires ns != [] && forall n :: n in ns ==> n.Fin?
    ensures Least(ns) in ns && Greatest(ns) in ns
    ensures forall n :: n in ns ==> !Less(n, Least(ns)) && !Less(Greatest(ns), n)
  {
    if |ns| <= 1 {
    } else {
      var init, last := ns[..|ns| - 1], ns[|ns| - 1];
      LeastAndGreatestOfFinite(init);
      assert ns == init + [last];
    }
  }

  lemma {:induction false} FiniteLeavesAll(items: seq<Value>)
    requires forall i :: 0 <= i < |items| ==> IsFinite(items[i])
    ensures forall n :: n in NumericLeavesAll(items) ==> n.Fin?
    decreases items, 0
  {
    if items == [] {
    } else {
      FiniteLeaves(items[0]);
      FiniteLeavesAll(items[1..]);
    }
  }

  lemma {:induction false} FiniteLeaves(v: Value)
    requires IsFinite(v)
    ensures forall n :: n in NumericLeaves(v) ==> n.Fin?
    decreases v, 1
  {
    if v.Leaf? {
    } else {
      FiniteLeavesAll(v.items);
    }
  }

  lemma {:induction false} ResolvesIff(shape: seq<Dim>, symbols: map<string, int>, dims: seq<int>)
    ensures ResolveShape(shape, symbols) == Some(dims) <==>
            && |dims| == |shape|
            && forall i :: 0 <= i < |shape| ==>
                 if shape[i].Fixed? then dims[i] == shape[i].size
                 else shape[i].name in symbols && dims[i] == symbols[shape[i].name]
  {
    if shape == [] {
    } else if |dims| == |shape| {
      var k := |shape| - 1;
      ResolvesIff(shape[..k], symbols, dims[..k]);
      assert dims == dims[..k] + [dims[k]];
    } else if ResolveShape(shape, symbols).Some? {
      var k := |shape| - 1;
      ResolvesIff(shape[..k], symbols, ResolveShape(shape[..k], symbols).value);
    }
  }

  // ---------------------------------------------------------------- leaf by leaf

  predicate FiniteScalar(leaf: Scalar) {
    leaf.Truth? || (leaf.Num? && leaf.number.Fin?)
  }

  lemma {:induction false} NumericLeavesOfItems(items: seq<Value>, n: Number)
    ensures n in NumericLeavesAll(items) <==> exists i :: 0 <= i < |items| && n in NumericLeaves(items[i])
  {
    if items == [] {
    } else {
      NumericLeavesOfItems(items[1..], n);
      if i :| 0 <= i < |items| && n in NumericLeaves(items[i]) {
        if i > 0 {
          assert n in NumericLeaves(items[1..][i - 1]);
        }
      }
    }
  }

  /** A number is among the leaves exactly when some index holds it. */
  lemma {:induction false} NumericLeafAt(v: Value, dims: Shape, n: Number)
    requires HasShape(v, dims)
    ensures n in NumericLeaves(v) <==> exists idx :: InBounds(idx, dims) && At(v, dims, idx) == Num(n)
    decreases dims
  {
    if dims == [] {
      var here: seq<nat> := [];
      assert InBounds(here, dims);
      assert forall idx :: InBounds(idx, dims) ==> idx == here;
    } else {
      NumericLeavesOfItems(v.items, n);
      if i :| 0 <= i < |v.items| && n in NumericLeaves(v.items[i]) {
        NumericLeafAt(v.items[i], dims[1..], n);
        var tail :| InBounds(tail, dims[1..]) && At(v.items[i], dims[1..], tail) == Num(n);
        var idx := [i] + tail;
        assert idx[1..] == tail && InBounds(idx, dims) && At(v, dims, idx) == Num(n);
      }
      if idx :| InBounds(idx, dims) && At(v, dims, idx) == Num(n) {
        NumericLeafAt(v.items[idx[0]], dims[1..], n);
        assert InBounds(idx[1..], dims[1..]);
      }
    }
  }

  lemma {:induction false} FiniteAt(v: Value, dims: Shape)
    requires HasShape(v, dims)
    ensures IsFinite(v) <==> forall idx :: InBounds(idx, dims) ==> FiniteScalar(At(v, dims, idx))
    decreases dims
  {
    if dims == [] {
      var here: seq<nat> := [];
      assert InBounds(here, dims);
      assert forall idx :: InBounds(idx, dims) ==> idx == here;
    } else {
      if IsFinite(v) {
        forall idx | InBounds(idx, dims)
          ensures FiniteScalar(At(v, dims, idx))
        {
          FiniteAt(v.items[idx[0]], dims[1..]);
          assert InBounds(idx[1..], dims[1..]);
        }
      }
      if forall idx :: InBounds(idx, dims) ==> FiniteScalar(At(v, dims, idx)) {
        forall i | 0 <= i < |v.items|
          ensures IsFinite(v.items[i])
        {
          forall tail | InBounds(tail, dims[1..])
            ensures FiniteScalar(At(v.items[i], dims[1..], tail))
          {
            var idx := [i] + tail;
            assert idx[1..] == tail && InBounds(idx, dims) && At(v, dims, idx) == At(v.items[i], dims[1..], tail);
          }
          FiniteAt(v.items[i], dims[1..]);
        }
      }
    }
  }

  /** A finite leaf inside the declared bounds. */
  predicate Within(d: ValueDomain, n: Number) {
    && n.Fin?
    && (d.minimum.Some? ==> d.minimum.value <= n.value)
    && (d.maximum.Some? ==> n.value <= d.maximum.value)
  }

  /** What a feature that must be finite asks of a leaf: a truth value, or a number in its domain. */
  predicate LeafFits(d: ValueDomain, leaf: Scalar) {
    leaf.Truth? || (leaf.Num? && Within(d, leaf.number))
  }

  lemma FiniteExtremes(d: ValueDomain, ns: seq<Number>)
    requires ns != [] && forall n :: n in ns ==> n.Fin?
    ensures InDomain(d, Least(ns), Greatest(ns)) <==> forall n :: n in ns ==> Within(d, n)
  {
    LeastAndGreatestOfFinite(ns);
    if forall n :: n in ns ==> Within(d, n) {
      assert Within(d, Least(ns)) && Within(d, Greatest(ns));
    }
  }

  lemma LeavesFit(d: ValueDomain, v: Value, dims: Shape)
    requires HasShape(v, dims)
    ensures (forall idx :: InBounds(idx, dims) ==> LeafFits(d, At(v, dims, idx))) <==>
            IsFinite(v) && forall n :: n in NumericLeaves(v) ==> Within(d, n)
  {
    FiniteAt(v, dims);
    forall n
      ensures n in NumericLeaves(v) <==> exists idx :: InBounds(idx, dims) && At(v, dims, idx) == Num(n)
    {
      NumericLeafAt(v, dims, n);
    }
    if forall idx :: InBounds(idx, dims) ==> LeafFits(d, At(v, dims, idx)) {
      forall n | n in NumericLeaves(v)
        ensures Within(d, n)
      {
        var idx :| InBounds(idx, dims) && At(v, dims, idx) == Num(n);
        assert LeafFits(d, At(v, dims, idx));
      }
    }
    if IsFinite(v) && forall n :: n in NumericLeaves(v) ==> Within(d, n) {
      forall idx | InBounds(idx, dims)
        ensures LeafFits(d, At(v, dims, idx))
      {
        assert FiniteScalar(At(v, dims, idx));
        if At(v, dims, idx).Num? {
          assert At(v, dims, idx).number in NumericLeaves(v);
        }
      }
    }
  }

  /** For a feature that must be finite, fitting is having the resolved shape and, at every index,
      a leaf that fits on its own. */
  lemma FitsLeafByLeaf(s: FeatureSpec, v: Value, symbols: map<string, int>)
    requires s.valueDomain.finite
    ensures Fits(s, v, symbols) <==>
            exists dims: Shape ::
              && HasShape(v, dims) && Tight(dims) && ResolveShape(s.shape, symbols) == Some(dims)
              && forall idx :: InBounds(idx, dims) ==> LeafFits(s.valueDomain, At(v, dims, idx))
  {
    var ns := NumericLeaves(v);
    if IsFinite(v) && ns != [] {
      FiniteLeaves(v);
      FiniteExtremes(s.valueDomain, ns);
    }
    forall dims: Shape
      ensures RectShape(v) == Some(dims) <==> HasShape(v, dims) && Tight(dims)
      ensures HasShape(v, dims) ==>
                ((forall idx :: InBounds(idx, dims) ==> LeafFits(s.valueDomain, At(v, dims, idx))) <==>
                 IsFinite(v) && forall n :: n in ns ==> Within(s.valueDomain, n))
    {
      RectShapeIsTheShape(v, dims);
      if HasShape(v, dims) {
        LeavesFit(s.valueDomain, v, dims);
      }
    }
  }

  // ---------------------------------------------------------------- without finiteness

  /** The numbers among some leaves, in order. */
  function Numerals(leaves: seq<Scalar>): seq<Number> {
    if leaves == [] then [] else (if leaves[0].Num? then [leaves[0].number] else []) + Numerals(leaves[1..])
  }

  lemma {:induction false} NumeralsAppend(a: seq<Scalar>, b: seq<Scalar>)
    ensures Numerals(a + b) == Numerals(a) + Numerals(b)
  {
    if a == [] {
      assert a + b == b;
    } else {
      var whole, rest := a + b, a[1..] + b;
      assert whole[0] == a[0] && whole[1..] == rest;
      NumeralsAppend(a[1..], b);
      var first := if a[0].Num? then [a[0].number] else [];
      assert Numerals(whole) == first + Numerals(rest);
      assert first + (Numerals(a[1..]) + Numerals(b)) == (first + Numerals(a[1..])) + Numerals(b);
    }
  }

  lemma {:induction false} NumericLeavesInOrderAll(items: seq<Value>)
    ensures NumericLeavesAll(items) == Numerals(FlattenAll(items))
    decreases items, 0
  {
    if items == [] {
    } else {
      NumericLeavesInOrder(items[0]);
      NumericLeavesInOrderAll(items[1..]);
      NumeralsAppend(Flatten(items[0]), FlattenAll(items[1..]));
    }
  }

  /** The numeric leaves are the numbers among the leaves, in their order. */
  lemma {:induction false} NumericLeavesInOrder(v: Value)
    ensures NumericLeaves(v) == Numerals(Flatten(v))
    decreases v, 1
  {
    if v.Leaf? {
      assert Numerals([v.value][1..]) == [];
    } else {
      NumericLeavesInOrderAll(v.items);
    }
  }

  /** A number that the bounds do not exclude: none excludes a number that is not one. */
  predicate NotExcluded(d: ValueDomain, n: Number) {
    && (d.minimum.Some? ==> n.NaN? || n.PosInf? || (n.Fin? && d.minimum.value <= n.value))
    && (d.maximum.Some? ==> n.NaN? || n.NegInf? || (n.Fin? && n.value <= d.maximum.value))
  }

  lemma {:induction false} ExtremesExclude(d: ValueDomain, ns: seq<Number>)
    requires ns != []
    ensures InDomain(d, Least(ns), Greatest(ns)) <==> ns[0].NaN? || forall i :: 0 <= i < |ns| ==> NotExcluded(d, ns[i])
  {
    ExtremesOfFirst(ns);
    if !ns[0].NaN? {
      GreatestBounds(ns);
      LeastBounds(ns);
      if forall i :: 0 <= i < |ns| ==> NotExcluded(d, ns[i]) {
        var i :| 0 <= i < |ns| && ns[i] == Least(ns);
        var j :| 0 <= j < |ns| && ns[j] == Greatest(ns);
        assert NotExcluded(d, ns[i]) && NotExcluded(d, ns[j]);
      } else {
        var i :| 0 <= i < |ns| && !NotExcluded(d, ns[i]);
        assert !Less(ns[i], Least(ns)) && !Less(Greatest(ns), ns[i]);
      }
    }
  }

  /** For a feature that need not be finite, the bounds are compared with every number among the
      leaves, unless the first of them is not a number: then with none. */
  lemma FitsWithoutFiniteness(s: FeatureSpec, v: Value, symbols: map<string, int>)
    requires !s.valueDomain.finite
    ensures var ns := Numerals(Flatten(v));
            Fits(s, v, symbols) <==>
              && (exists dims: Shape :: HasShape(v, dims) && Tight(dims) && ResolveShape(s.shape, symbols) == Some(dims))
              && ((ns != [] && ns[0].NaN?) || forall i :: 0 <= i < |ns| ==> NotExcluded(s.valueDomain, ns[i]))
  {
    NumericLeavesInOrder(v);
    var ns := Numerals(Flatten(v));
    if ns != [] {
      ExtremesExclude(s.valueDomain, ns);
    }
    forall dims: Shape
      ensures RectShape(v) == Some(dims) <==> HasShape(v, dims) && Tight(dims)
    {
      RectShapeIsTheShape(v, dims);
    }
  }
}
