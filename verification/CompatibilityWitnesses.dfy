/** Payloads that show where a candidate rejects what the baseline accepts, and with them the exact
    condition for baselines that declare one feature per key. */
module CompatibilityWitnesses {
  import opened Outcomes
  import opened NestedLists
  import opened FeatureContracts
  import opened Numbers
  import opened PayloadValidation
  import opened ContractDiff
  import opened ContractCompatibility

  // ---------------------------------------------------------------- witnesses

  /** The symbols of the dimensions are assigned, none to zero. */
  predicate Assigned(shape: seq<Dim>, symbols: map<string, int>) {
    forall i :: 0 <= i < |shape| && shape[i].Symbol? ==> shape[i].name in symbols && symbols[shape[i].name] >= 1
  }

  function Sizes(shape: seq<Dim>, symbols: map<string, int>): (r: Shape)
    requires Fillable(shape) && Assigned(shape, symbols)
    ensures |r| == |shape|
  {
    seq(|shape|, i requires 0 <= i < |shape| => if shape[i].Fixed? then shape[i].size else symbols[shape[i].name])
  }

  lemma {:induction false} SizesResolve(shape: seq<Dim>, symbols: map<string, int>)
    requires Fillable(shape) && Assigned(shape, symbols)
    ensures ResolveShape(shape, symbols) == Some(Sizes(shape, symbols)) && Tight(Sizes(shape, symbols))
    ensures Roomy(shape) ==> Positive(Sizes(shape, symbols))
  {
    if shape == [] {
    } else {
      var init := shape[..|shape| - 1];
      SizesResolve(init, symbols);
      assert Sizes(shape, symbols) == Sizes(init, symbols) + [Sizes(shape, symbols)[|shape| - 1]];
    }
  }

  function Filled(dims: Shape, leaf: Scalar): Value {
    if dims == [] then Leaf(leaf) else List(Copies(dims[0], Filled(dims[1..], leaf)))
  }

  function Copies<T>(n: nat, item: T): (r: seq<T>)
    ensures |r| == n && forall i :: 0 <= i < n ==> r[i] == item
  {
    seq(n, _ => item)
  }

  lemma {:induction false} FilledHasShape(dims: Shape, leaf: Scalar)
    ensures HasShape(Filled(dims, leaf), dims)
    decreases dims
  {
    if dims == [] {
    } else {
      FilledHasShape(dims[1..], leaf);
    }
  }

  /** An array of truth values has no numeric leaf and is finite. */
  lemma {:induction false} FilledTruth(dims: Shape)
    ensures NumericLeaves(Filled(dims, Truth(true))) == [] && IsFinite(Filled(dims, Truth(true)))
    decreases dims
  {
    if dims == [] {
    } else {
      FilledTruth(dims[1..]);
      NoLeavesAll(Filled(dims, Truth(true)).items);
    }
  }

  lemma {:induction false} RepeatedLeaves(items: seq<Value>, item: Value, number: Number)
    requires forall i :: 0 <= i < |items| ==> items[i] == item
    requires NumericLeaves(item) != [] && forall x :: x in NumericLeaves(item) ==> x == number
    ensures items != [] ==> NumericLeavesAll(items) != []
    ensures forall x :: x in NumericLeavesAll(items) ==> x == number
  {
    if items == [] {
    } else {
      RepeatedLeaves(items[1..], item, number);
    }
  }

  lemma {:induction false} FilledLeaves(dims: Shape, number: Number)
    requires Positive(dims)
    ensures NumericLeaves(Filled(dims, Num(number))) != []
    ensures forall x :: x in NumericLeaves(Filled(dims, Num(number))) ==> x == number
    ensures IsFinite(Filled(dims, Num(number))) <==> number.Fin?
    decreases dims
  {
    if dims == [] {
    } else {
      FilledLeaves(dims[1..], number);
      var item := Filled(dims[1..], Num(number));
      RepeatedLeaves(Copies(dims[0], item), item, number);
      assert Filled(dims, Num(number)).items[0] == item;
    }
  }

  lemma {:induction false} ConstantExtremes(ns: seq<Number>, number: Number)
    requires ns != [] && forall x :: x in ns ==> x == number
    ensures Least(ns) == number && Greatest(ns) == number
  {
    assert ns[|ns| - 1] in ns;
    if |ns| > 1 {
      var init := ns[..|ns| - 1];
      assert forall x :: x in init ==> x in ns;
      ConstantExtremes(init, number);
    }
  }

  /** A constant array fits a feature exactly when the constant does. */
  lemma ConstantFits(s: FeatureSpec, number: Number, symbols: map<string, int>)
    requires Roomy(s.shape) && Assigned(s.shape, symbols)
    ensures Fits(s, Filled(Sizes(s.shape, symbols), Num(number)), symbols) <==>
            (s.valueDomain.finite ==> number.Fin?) && InDomain(s.valueDomain, number, number)
  {
    var dims := Sizes(s.shape, symbols);
    var v := Filled(dims, Num(number));
    SizesResolve(s.shape, symbols);
    FilledHasShape(dims, Num(number));
    RectShapeIsTheShape(v, dims);
    FilledLeaves(dims, number);
    ConstantExtremes(NumericLeaves(v), number);
    assert RectShape(v) == Some(dims) && ResolveShape(s.shape, symbols) == Some(dims);
  }

  /** A value that fits every satisfiable feature, whatever its bounds. */
  function Filler(s: FeatureSpec, symbols: map<string, int>): Value {
    if Fillable(s.shape) && Assigned(s.shape, symbols) then Filled(Sizes(s.shape, symbols), Truth(true)) else Leaf(Other)
  }

  lemma FillerFits(s: FeatureSpec, symbols: map<string, int>)
    requires Fillable(s.shape) && Assigned(s.shape, symbols)
    ensures RectShape(Filler(s, symbols)) == Some(Sizes(s.shape, symbols))
    ensures Fits(s, Filler(s, symbols), symbols)
  {
    var dims := Sizes(s.shape, symbols);
    SizesResolve(s.shape, symbols);
    FilledHasShape(dims, Truth(true));
    RectShapeIsTheShape(Filler(s, symbols), dims);
    FilledTruth(dims);
    assert ResolveShape(s.shape, symbols) == Some(dims);
  }

  function RaggedValue(): Value {
    List([Leaf(Num(Fin(0.0))), List([])])
  }

  lemma RaggedFitsNothing(s: FeatureSpec, symbols: map<string, int>)
    ensures !Fits(s, RaggedValue(), symbols)
  {
    var v := RaggedValue();
    assert RectShape(v.items[0]) != RectShape(v.items[1]);
  }

  /** The values of the required features at the stage. */
  function RequiredValues(specs: seq<FeatureSpec>, stage: string, symbols: map<string, int>): map<string, Value> {
    if specs == [] then map[]
    else
      var init, last := specs[..|specs| - 1], specs[|specs| - 1];
      var rest := RequiredValues(init, stage, symbols);
      if last.stage == stage && last.required then rest[last.key := Filler(last, symbols)] else rest
  }

  lemma {:induction false} RequiredKeys(specs: seq<FeatureSpec>, stage: string, symbols: map<string, int>, k: string)
    ensures k in RequiredValues(specs, stage, symbols) <==> exists s :: s in specs && s.stage == stage && s.required && s.key == k
  {
    if specs == [] {
    } else {
      var init, last := specs[..|specs| - 1], specs[|specs| - 1];
      assert specs == init + [last];
      RequiredKeys(init, stage, symbols, k);
    }
  }

  lemma {:induction false} RequiredValueAt(specs: seq<FeatureSpec>, stage: string, symbols: map<string, int>, s: FeatureSpec)
    requires s in specs && s.stage == stage && s.required
    requires forall t :: t in specs && t.stage == stage && t.key == s.key ==> t == s
    ensures s.key in RequiredValues(specs, stage, symbols) && RequiredValues(specs, stage, symbols)[s.key] == Filler(s, symbols)
  {
    var init, last := specs[..|specs| - 1], specs[|specs| - 1];
    assert specs == init + [last];
    if s in init {
      RequiredValueAt(init, stage, symbols, s);
    }
  }

  /** Every symbol of the contract assigned one. */
  function OneSymbols(specs: seq<FeatureSpec>): map<string, int> {
    map name | name in SymbolNames(specs) :: 1
  }

  function SymbolNames(specs: seq<FeatureSpec>): set<string> {
    set s, i | s in specs && 0 <= i < |s.shape| && s.shape[i].Symbol? :: s.shape[i].name
  }

  ghost predicate AssignsAll(symbols: map<string, int>, b: FeatureContract) {
    forall s :: s in b.AllSpecs() ==> Assigned(s.shape, symbols)
  }

  lemma OneSymbolsAssign(b: FeatureContract)
    ensures AssignsAll(OneSymbols(b.AllSpecs()), b)
  {
    forall s | s in b.AllSpecs()
      ensures Assigned(s.shape, OneSymbols(b.AllSpecs()))
    {
    }
  }

  /** A payload the baseline accepts under any assignment of its symbols: the values of its
      required features, and whatever `extra` permitted and fitting values. */
  lemma BaselineAcceptsWitness(b: FeatureContract, stage: string, closed: bool, symbols: map<string, int>,
                               extra: map<string, Value>) returns (values: map<string, Value>)
    requires OneFeaturePerKey(b, stage) && !AcceptsNothing(b, stage) && AssignsAll(symbols, b)
    requires forall k :: k in extra ==> closed ==> Permitted(k, b, stage)
    requires forall s :: InStage(s, b, stage) && s.key in extra ==> s.IsText() || Fits(s, extra[s.key], symbols)
    ensures Accepts(values, b, stage, symbols, closed)
    ensures forall k :: k in values <==> k in extra || exists s :: InStage(s, b, stage) && s.required && s.key == k
    ensures forall k :: k in extra ==> values[k] == extra[k]
  {
    var specs := b.AllSpecs();
    var required := RequiredValues(specs, stage, symbols);
    values := required + extra;
    forall k
      ensures k in required <==> exists s :: InStage(s, b, stage) && s.required && s.key == k
    {
      RequiredKeys(specs, stage, symbols, k);
      assert forall s :: InStage(s, b, stage) <==> s in specs && s.stage == stage;
    }
    forall s | s in specs && s.stage == stage
      ensures SpecAccepts(s, values, symbols)
    {
      assert InStage(s, b, stage);
      if s.key in required && s.key !in extra && !s.IsText() {
        var r :| InStage(r, b, stage) && r.required && r.key == s.key;
        assert r == s;
        assert forall t :: t in specs && t.stage == stage && t.key == s.key ==> InStage(t, b, stage);
        RequiredValueAt(specs, stage, symbols, s);
        FillerFits(s, symbols);
      }
    }
  }

  // ---------------------------------------------------------------- necessity

  /** An assignment under which two different shapes do not resolve alike. */
  lemma TellShapesApart(b: FeatureContract, p: seq<Dim>, q: seq<Dim>) returns (symbols: map<string, int>)
    requires p != q
    ensures AssignsAll(symbols, b)
    ensures ResolveShape(p, symbols).Some? ==> ResolveShape(q, symbols) != ResolveShape(p, symbols)
  {
    symbols := OneSymbols(b.AllSpecs());
    OneSymbolsAssign(b);
    if |p| == |q| {
      var i :| 0 <= i < |p| && p[i] != q[i];
      var name := if p[i].Symbol? then p[i].name else if q[i].Symbol? then q[i].name else "";
      var other := if p[i].Fixed? then p[i].size else if q[i].Fixed? then q[i].size else 1;
      symbols := symbols[name := if other < 1 then 1 else other + 1];
      if q[i].Symbol? && q[i].name !in symbols && ResolveShape(q, symbols).Some? {
        ResolvedAt(q, symbols);
      }
    }
    if ResolveShape(p, symbols).Some? && ResolveShape(q, symbols).Some? {
      ResolvedAt(p, symbols);
      ResolvedAt(q, symbols);
    }
  }

  /** A constant inside the first domain and outside the second. */
  lemma DistinguishingConstant(d: ValueDomain, e: ValueDomain) returns (number: Number)
    requires !DomainImplies(d, e)
    ensures (d.finite ==> number.Fin?) && InDomain(d, number, number)
    ensures !((e.finite ==> number.Fin?) && InDomain(e, number, number))
  {
    if e.finite && !d.finite {
      number := NaN;
    } else if e.minimum.Some? && !(d.minimum.Some? && e.minimum.value <= d.minimum.value) {
      var x := e.minimum.value - 1.0;
      number := Fin(if d.minimum.Some? then d.minimum.value
                    else if d.maximum.Some? && d.maximum.value < x then d.maximum.value else x);
    } else {
      var x := e.maximum.value + 1.0;
      number := Fin(if d.maximum.Some? then d.maximum.value
                    else if d.minimum.Some? && d.minimum.value > x then d.minimum.value else x);
    }
  }

  /** A value that satisfies the first feature and not the second, when the second asks more. */
  lemma DistinguishingValue(b: FeatureContract, s: FeatureSpec, t: FeatureSpec) returns (v: Value, symbols: map<string, int>)
    requires s in b.AllSpecs() && Satisfiable(s) && !Implies(s, t)
    ensures AssignsAll(symbols, b)
    ensures s.IsText() || Fits(s, v, symbols)
    ensures !t.IsText() && !Fits(t, v, symbols)
  {
    symbols := OneSymbols(b.AllSpecs());
    OneSymbolsAssign(b);
    if s.IsText() {
      v := RaggedValue();
      RaggedFitsNothing(t, symbols);
    } else if s.shape != t.shape {
      symbols := TellShapesApart(b, s.shape, t.shape);
      v := Filler(s, symbols);
      FillerFits(s, symbols);
      SizesResolve(s.shape, symbols);
    } else {
      var number := DistinguishingConstant(s.valueDomain, t.valueDomain);
      v := Filled(Sizes(s.shape, symbols), Num(number));
      ConstantFits(s, number, symbols);
      ConstantFits(t, number, symbols);
    }
  }

  /** A payload that shows that a feature under one of the baseline's keys was tightened. It
      carries shared keys only. */
  lemma StricterFeatureRejects(b: FeatureContract, c: FeatureContract, stage: string, closed: bool, s: FeatureSpec, t: FeatureSpec)
    requires KeyComparable(b, c, stage) && OneFeaturePerKey(b, stage) && !AcceptsNothing(b, stage)
    requires InStage(s, b, stage) && InStage(t, c, stage) && s.key == t.key && !Looser(s, t)
    ensures !AcceptsShared(b, c, stage, closed) && !AcceptsAll(b, c, stage, closed)
  {
    var v, symbols := Leaf(Other), OneSymbols(b.AllSpecs());
    var extra: map<string, Value> := map[];
    OneSymbolsAssign(b);
    if t.required ==> s.required {
      v, symbols := DistinguishingValue(b, s, t);
      extra := map[s.key := v];
    }
    assert forall r :: InStage(r, b, stage) && r.key in extra ==> r == s;
    var values := BaselineAcceptsWitness(b, stage, closed, symbols, extra);
    assert !SpecAccepts(t, values, symbols);
    forall k | k in values
      ensures HasKey(k, b, stage) && Permitted(k, c, stage)
    {
      if k !in extra {
        var r :| InStage(r, b, stage) && r.required && r.key == k;
      }
    }
    assert CarriesSharedKeys(values, b, c, stage, closed);
  }

  /** A payload that carries a key a closed candidate no longer permits. */
  lemma DroppedKeyRejects(b: FeatureContract, c: FeatureContract, stage: string, s: FeatureSpec)
    requires OneFeaturePerKey(b, stage) && !AcceptsNothing(b, stage)
    requires InStage(s, b, stage) && Satisfiable(s) && !Permitted(s.key, c, stage)
    ensures !AcceptsAll(b, c, stage, true)
  {
    var symbols := OneSymbols(b.AllSpecs());
    OneSymbolsAssign(b);
    if !s.IsText() {
      FillerFits(s, symbols);
    }
    var extra := map[s.key := Filler(s, symbols)];
    assert forall r :: InStage(r, b, stage) && r.key in extra ==> r == s;
    var values := BaselineAcceptsWitness(b, stage, true, symbols, extra);
    assert s.key in values;
  }

  /** A payload that already carries, under a key new in the candidate, a value that does not fit. */
  lemma AddedKeyRejects(b: FeatureContract, c: FeatureContract, stage: string, closed: bool, t: FeatureSpec)
    requires OneFeaturePerKey(b, stage) && !AcceptsNothing(b, stage)
    requires InStage(t, c, stage) && !t.IsText() && !HasKey(t.key, b, stage) && (closed ==> t.key == "task")
    ensures !AcceptsAll(b, c, stage, closed)
  {
    var symbols := OneSymbols(b.AllSpecs());
    OneSymbolsAssign(b);
    var extra := map[t.key := RaggedValue()];
    assert forall r :: InStage(r, b, stage) ==> r.key != t.key;
    var values := BaselineAcceptsWitness(b, stage, closed, symbols, extra);
    RaggedFitsNothing(t, symbols);
    assert values[t.key] == RaggedValue() && !SpecAccepts(t, values, symbols);
  }

  // ---------------------------------------------------------------- the main results

  lemma NothingAccepted(b: FeatureContract, stage: string, closed: bool, values: map<string, Value>, symbols: map<string, int>)
    requires AcceptsNothing(b, stage)
    ensures !Accepts(values, b, stage, symbols, closed)
  {
    var s :| InStage(s, b, stage) && s.required && !Satisfiable(s);
    if SpecAccepts(s, values, symbols) {
      FittingIsFillable(s, values[s.key], symbols);
    }
  }

  lemma SharedIff(b: FeatureContract, c: FeatureContract, stage: string, closed: bool)
    requires KeyComparable(b, c, stage) && OneFeaturePerKey(b, stage)
    ensures AcceptsShared(b, c, stage, closed) <==> AcceptsNothing(b, stage) || KeysLooser(b, c, stage)
  {
    if AcceptsNothing(b, stage) {
      forall values: map<string, Value>, symbols: map<string, int>
        ensures !Accepts(values, b, stage, symbols, closed)
      {
        NothingAccepted(b, stage, closed, values, symbols);
      }
    } else if KeysLooser(b, c, stage) {
      forall values: map<string, Value>, symbols: map<string, int>
             | Accepts(values, b, stage, symbols, closed) && CarriesSharedKeys(values, b, c, stage, closed)
        ensures Accepts(values, c, stage, symbols, closed)
      {
        SharedPayloadAccepted(b, c, stage, closed, values, symbols);
      }
    } else {
      var s, t :| InStage(s, b, stage) && InStage(t, c, stage) && s.key == t.key && !Looser(s, t);
      StricterFeatureRejects(b, c, stage, closed, s, t);
    }
  }

  lemma AcceptanceIff(b: FeatureContract, c: FeatureContract, stage: string, closed: bool)
    requires KeyComparable(b, c, stage) && OneFeaturePerKey(b, stage)
    ensures AcceptsAll(b, c, stage, closed) <==> AcceptsNothing(b, stage) || Safe(b, c, stage, closed)
  {
    if AcceptsNothing(b, stage) {
      forall values: map<string, Value>, symbols: map<string, int>
        ensures !Accepts(values, b, stage, symbols, closed)
      {
        NothingAccepted(b, stage, closed, values, symbols);
      }
    } else if Safe(b, c, stage, closed) {
      forall values: map<string, Value>, symbols: map<string, int> | Accepts(values, b, stage, symbols, closed)
        ensures Accepts(values, c, stage, symbols, closed)
      {
        SafeCandidateAccepts(b, c, stage, closed, values, symbols);
      }
    } else if s, t :| InStage(s, b, stage) && InStage(t, c, stage) && s.key == t.key && !Looser(s, t) {
      StricterFeatureRejects(b, c, stage, closed, s, t);
    } else if s :| closed && InStage(s, b, stage) && Satisfiable(s) && !Permitted(s.key, c, stage) {
      DroppedKeyRejects(b, c, stage, s);
    } else {
      var t :| InStage(t, c, stage) && !t.IsText() && (closed ==> t.key == "task") && !HasKey(t.key, b, stage);
      AddedKeyRejects(b, c, stage, closed, t);
    }
  }

  function Single(s: FeatureSpec): FeatureContract {
    FeatureContract([s], [], [])
  }

  lemma SingleIndex(s: FeatureSpec)
    ensures Single(s).AllSpecs() == [s] && ById(Single(s).AllSpecs()) == map[s.featureId := s]
  {
    assert Single(s).AllSpecs() == [s] && [s][..0] == [];
  }

  lemma SingleFeatureContracts(s: FeatureSpec, t: FeatureSpec, stage: string)
    requires Canonical(s) && Canonical(t) && s.stage == t.stage == stage && s.key == t.key && SameDeclaration(s, t)
    requires s.featureId == t.featureId == MakeFeatureId(s.role, s.key, s.stage) == MakeFeatureId(t.role, t.key, t.stage)
    requires Satisfiable(s)
    ensures Comparable(Single(s), Single(t)) && OneFeaturePerKey(Single(s), stage) && !AcceptsNothing(Single(s), stage)
    ensures InStage(s, Single(s), stage) && InStage(t, Single(t), stage)
  {
    SingleIndex(s);
    SingleIndex(t);
  }

  /** A one-dimensional state feature without bounds, and the same feature with a lower bound. */
  lemma BoundAddedToState() returns (plain: FeatureSpec, bounded: FeatureSpec)
    ensures Canonical(plain) && Canonical(bounded) && plain.stage == bounded.stage && plain.key == bounded.key
    ensures plain.featureId == bounded.featureId == MakeFeatureId(plain.role, plain.key, plain.stage)
    ensures plain.role == bounded.role && SameDeclaration(plain, bounded) && Satisfiable(plain)
    ensures !Looser(plain, bounded)
  {
    var stage := "coreai_runner_input.v1";
    var id := MakeFeatureId("observation", "state", stage);
    plain := FeatureSpec(id, "state", "observation", "vector", stage, true, "float32", [Fixed(7)], ["state"], None,
                         ValueDomain(true, None, None), NoUnits, None, None, Normalization("raw", None, None, None));
    bounded := plain.(valueDomain := ValueDomain(true, Some(0.0), None));
  }

  /** Without the condition the property fails: a candidate that only adds a lower bound is
      not breaking, and rejects a payload the baseline accepts. */
  lemma NonBreakingAloneIsNotEnough() returns (b: FeatureContract, c: FeatureContract, stage: string)
    ensures NonBreaking(ById(b.AllSpecs()), ById(c.AllSpecs()))
    ensures !AcceptsAll(b, c, stage, true)
  {
    var plain, bounded := BoundAddedToState();
    stage := plain.stage;
    b, c := Single(plain), Single(bounded);
    SingleFeatureContracts(plain, bounded, stage);
    StricterFeatureRejects(b, c, stage, true, plain, bounded);
  }
}
