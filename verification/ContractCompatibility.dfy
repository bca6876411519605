/** Does "no breaking change" mean that the candidate accepts what the baseline accepts? Not by
    itself: the diff does not look at modality, finiteness, requiredness or newly appearing
    bounds, a closed contract rejects the keys of removed features, and a payload may carry the
    key of an added one. This module states the conditions, says payload by payload when they
    suffice and are needed, and proves that a safe candidate accepts all. That nothing less is
    safe is proved in `CompatibilityWitnesses`, `JoinedContracts` and `ContractsUnderSymbols`. */
module ContractCompatibility {
  import opened Outcomes
  import opened NestedLists
  import opened FeatureContracts
  import opened Numbers
  import opened PayloadValidation
  import opened ContractDiff

  // ---------------------------------------------------------------- hypotheses on contracts

  /** Ids follow `role:key@stage` with canonical roles and stages, and none repeats. */
  ghost predicate Disciplined(contract: FeatureContract) {
    var specs := contract.AllSpecs();
    && (forall s :: s in specs ==> Canonical(s) && s.featureId == MakeFeatureId(s.role, s.key, s.stage))
    && (forall i, j :: 0 <= i < j < |specs| ==> specs[i].featureId != specs[j].featureId)
  }

  ghost predicate InStage(s: FeatureSpec, contract: FeatureContract, stage: string) {
    s in contract.AllSpecs() && s.stage == stage
  }

  /** The contract declares the key at the stage. */
  ghost predicate HasKey(key: string, contract: FeatureContract, stage: string) {
    exists s :: InStage(s, contract, stage) && s.key == key
  }

  /** A non-breaking change between two disciplined contracts. */
  ghost predicate Comparable(b: FeatureContract, c: FeatureContract) {
    Disciplined(b) && Disciplined(c) && NonBreaking(ById(b.AllSpecs()), ById(c.AllSpecs()))
  }

  /** What of that matters to payloads, which know only keys: required keys stay, and none is new. */
  ghost predicate KeyComparable(b: FeatureContract, c: FeatureContract, stage: string) {
    && (forall s :: InStage(s, b, stage) && s.required ==> Permitted(s.key, c, stage))
    && (forall t :: InStage(t, c, stage) && t.required ==> HasKey(t.key, b, stage))
  }

  // ---------------------------------------------------------------- what a feature asks of a value

  /** Some array has these dimensions: none is negative, and only the last may be zero. */
  predicate Fillable(shape: seq<Dim>) {
    forall i :: 0 <= i < |shape| && shape[i].Fixed? ==> shape[i].size >= 1 || (shape[i].size == 0 && i == |shape| - 1)
  }

  /** Some array of these dimensions has leaves. */
  predicate Roomy(shape: seq<Dim>) {
    forall i :: 0 <= i < |shape| && shape[i].Fixed? ==> shape[i].size >= 1
  }

  predicate Satisfiable(s: FeatureSpec) {
    s.IsText() || Fillable(s.shape)
  }

  predicate EmptyInterval(d: ValueDomain) {
    d.minimum.Some? && d.maximum.Some? && d.minimum.value > d.maximum.value
  }

  /** The second domain asks no more than the first: no finiteness and no bound of its own. */
  predicate DomainImplies(d: ValueDomain, e: ValueDomain) {
    && (e.finite ==> d.finite)
    && (!EmptyInterval(d) ==>
          && (e.minimum.Some? ==> d.minimum.Some? && e.minimum.value <= d.minimum.value)
          && (e.maximum.Some? ==> d.maximum.Some? && d.maximum.value <= e.maximum.value))
  }

  /** The second feature asks no more of a value than the first. */
  predicate Implies(s: FeatureSpec, t: FeatureSpec) {
    t.IsText() || (!s.IsText() && s.shape == t.shape && (Roomy(s.shape) ==> DomainImplies(s.valueDomain, t.valueDomain)))
  }

  /** The second feature is required only if the first is, and asks no more of a value. */
  predicate Looser(s: FeatureSpec, t: FeatureSpec) {
    (t.required ==> s.required) && (Satisfiable(s) ==> Implies(s, t))
  }

  /** The fields the diff does not compare, loosened or kept. */
  predicate FieldsLoosened(s: FeatureSpec, t: FeatureSpec) {
    && (t.required ==> s.required)
    && (!t.IsText() ==>
          && !s.IsText()
          && (t.valueDomain.finite ==> s.valueDomain.finite)
          && (t.valueDomain.minimum.Some? ==> s.valueDomain.minimum.Some?)
          && (t.valueDomain.maximum.Some? ==> s.valueDomain.maximum.Some?))
  }

  /** For a feature the diff finds unchanged, being looser is about the fields the diff does not
      compare; for one whose arrays have leaves, about nothing else. */
  lemma LooserMeansFields(s: FeatureSpec, t: FeatureSpec)
    requires SameDeclaration(s, t)
    ensures FieldsLoosened(s, t) ==> Looser(s, t)
    ensures Roomy(s.shape) ==> (Looser(s, t) <==> FieldsLoosened(s, t))
  {
  }

  // ---------------------------------------------------------------- the exact conditions

  /** Every feature that both contracts declare under one id is looser in the candidate. */
  ghost predicate CommonLooser(b: FeatureContract, c: FeatureContract, stage: string) {
    forall s, t :: InStage(s, b, stage) && InStage(t, c, stage) && s.featureId == t.featureId ==> Looser(s, t)
  }

  /** Every feature of the candidate is looser than those the baseline declares under its key. */
  ghost predicate KeysLooser(b: FeatureContract, c: FeatureContract, stage: string) {
    forall s, t :: InStage(s, b, stage) && InStage(t, c, stage) && s.key == t.key ==> Looser(s, t)
  }

  /** Besides, a closed candidate permits every key a baseline payload may carry, and a key new
      in the candidate asks nothing of a value that a baseline payload may carry under it. */
  ghost predicate Safe(b: FeatureContract, c: FeatureContract, stage: string, closed: bool) {
    && KeysLooser(b, c, stage)
    && (closed ==> forall s :: InStage(s, b, stage) && Satisfiable(s) ==> Permitted(s.key, c, stage))
    && (forall t :: InStage(t, c, stage) && !t.IsText() && (closed ==> t.key == "task") ==> HasKey(t.key, b, stage))
  }

  /** The payload carries no key new in the candidate, text apart, and none that a closed
      candidate no longer permits. */
  ghost predicate CarriesSharedKeys(values: map<string, Value>, b: FeatureContract, c: FeatureContract, stage: string, closed: bool) {
    && (closed ==> forall k :: k in values ==> Permitted(k, c, stage))
    && (forall t :: InStage(t, c, stage) && !t.IsText() && t.key in values ==> HasKey(t.key, b, stage))
  }

  /** Whatever the baseline accepts at the stage, under any symbols, the candidate accepts. */
  ghost predicate AcceptsAll(b: FeatureContract, c: FeatureContract, stage: string, closed: bool) {
    forall values: map<string, Value>, symbols: map<string, int> ::
      Accepts(values, b, stage, symbols, closed) ==> Accepts(values, c, stage, symbols, closed)
  }

  /** The same for the payloads that carry only keys both contracts share. */
  ghost predicate AcceptsShared(b: FeatureContract, c: FeatureContract, stage: string, closed: bool) {
    forall values: map<string, Value>, symbols: map<string, int> ::
      Accepts(values, b, stage, symbols, closed) && CarriesSharedKeys(values, b, c, stage, closed) ==>
        Accepts(values, c, stage, symbols, closed)
  }

  /** A required feature that no value satisfies. */
  ghost predicate AcceptsNothing(b: FeatureContract, stage: string) {
    exists s :: InStage(s, b, stage) && s.required && !Satisfiable(s)
  }

  /** At the stage, the contract declares one feature per key. */
  ghost predicate OneFeaturePerKey(b: FeatureContract, stage: string) {
    forall s, t :: InStage(s, b, stage) && InStage(t, b, stage) && s.key == t.key ==> s == t
  }

  // ---------------------------------------------------------------- indexing facts

  lemma {:induction false} ByIdOfUnique(specs: seq<FeatureSpec>)
    requires forall i, j :: 0 <= i < j < |specs| ==> specs[i].featureId != specs[j].featureId
    ensures forall s :: s in specs ==> s.featureId in ById(specs) && ById(specs)[s.featureId] == s
    ensures forall id :: id in ById(specs) ==> ById(specs)[id] in specs && ById(specs)[id].featureId == id
  {
    if specs == [] {
    } else {
      var init, last := specs[..|specs| - 1], specs[|specs| - 1];
      assert specs == init + [last];
      ByIdOfUnique(init);
      forall s | s in specs
        ensures s.featureId in ById(specs) && ById(specs)[s.featureId] == s
      {
        if s != last {
          var i :| 0 <= i < |init| && init[i] == s;
          assert specs[i].featureId != specs[|specs| - 1].featureId;
        }
      }
    }
  }

  /** Features with one id sit at one stage under one key. */
  lemma SameIdSameKey(b: FeatureContract, c: FeatureContract, s: FeatureSpec, t: FeatureSpec)
    requires Disciplined(b) && Disciplined(c) && s in b.AllSpecs() && t in c.AllSpecs() && s.featureId == t.featureId
    ensures s.key == t.key && s.stage == t.stage
  {
    FeatureIdIsInjective(s, t);
  }

  lemma ComparableByKeys(b: FeatureContract, c: FeatureContract, stage: string)
    requires Comparable(b, c)
    ensures KeyComparable(b, c, stage)
  {
    ByIdOfUnique(b.AllSpecs());
    ByIdOfUnique(c.AllSpecs());
    forall s | InStage(s, b, stage) && s.required
      ensures Permitted(s.key, c, stage)
    {
      SameIdSameKey(b, c, s, ById(c.AllSpecs())[s.featureId]);
    }
    forall t | InStage(t, c, stage) && t.required
      ensures HasKey(t.key, b, stage)
    {
      var s := ById(b.AllSpecs())[t.featureId];
      SameIdSameKey(b, c, s, t);
      assert InStage(s, b, stage);
    }
  }

  // ---------------------------------------------------------------- values that fit

  lemma {:induction false} ResolvedAt(shape: seq<Dim>, symbols: map<string, int>)
    requires ResolveShape(shape, symbols).Some?
    ensures |ResolveShape(shape, symbols).value| == |shape|
    ensures forall i :: 0 <= i < |shape| ==>
              if shape[i].Fixed? then ResolveShape(shape, symbols).value[i] == shape[i].size
              else shape[i].name in symbols && ResolveShape(shape, symbols).value[i] == symbols[shape[i].name]
  {
    if shape == [] {
    } else {
      ResolvedAt(shape[..|shape| - 1], symbols);
    }
  }

  lemma FittingIsFillable(s: FeatureSpec, v: Value, symbols: map<string, int>)
    requires Fits(s, v, symbols)
    ensures Fillable(s.shape)
  {
    var dims: Shape :| RectShape(v) == Some(dims) && ResolveShape(s.shape, symbols) == Some(dims);
    RectShapeIsTheShape(v, dims);
    ResolvedAt(s.shape, symbols);
    forall i | 0 <= i < |s.shape| && s.shape[i].Fixed?
      ensures s.shape[i].size >= 1 || (s.shape[i].size == 0 && i == |s.shape| - 1)
    {
      assert dims[i] == s.shape[i].size;
    }
  }

  lemma {:induction false} NothingBelow(v: Value, dims: Shape)
    requires HasShape(v, dims) && dims != [] && dims[|dims| - 1] == 0
    ensures NumericLeaves(v) == [] && IsFinite(v)
    decreases dims
  {
    if |dims| <= 1 {
    } else {
      forall i | 0 <= i < |v.items|
        ensures NumericLeaves(v.items[i]) == [] && IsFinite(v.items[i])
      {
        NothingBelow(v.items[i], dims[1..]);
      }
      NoLeavesAll(v.items);
    }
  }

  lemma {:induction false} NoLeavesAll(items: seq<Value>)
    requires forall i :: 0 <= i < |items| ==> NumericLeaves(items[i]) == []
    ensures NumericLeavesAll(items) == []
  {
    if items == [] {
    } else {
      NoLeavesAll(items[1..]);
    }
  }

  /** A value of a feature with a zero dimension has no leaves to ask anything of. */
  lemma LeaflessFit(s: FeatureSpec, v: Value, symbols: map<string, int>)
    requires Fits(s, v, symbols) && !Roomy(s.shape)
    ensures NumericLeaves(v) == [] && IsFinite(v)
  {
    FittingIsFillable(s, v, symbols);
    var dims: Shape :| RectShape(v) == Some(dims) && ResolveShape(s.shape, symbols) == Some(dims);
    RectShapeIsTheShape(v, dims);
    ResolvedAt(s.shape, symbols);
    NothingBelow(v, dims);
  }

  /** Leaves pass an empty interval only by starting with a number that is none. */
  lemma EmptyIntervalPasses(d: ValueDomain, ns: seq<Number>)
    requires ns != [] && EmptyInterval(d) && InDomain(d, Least(ns), Greatest(ns))
    ensures Least(ns).NaN? && Greatest(ns).NaN?
  {
    ExtremesOfFirst(ns);
  }

  lemma ImpliedFits(s: FeatureSpec, t: FeatureSpec, v: Value, symbols: map<string, int>)
    requires Implies(s, t) && !t.IsText() && Fits(s, v, symbols)
    ensures Fits(t, v, symbols)
  {
    if !Roomy(s.shape) {
      LeaflessFit(s, v, symbols);
    } else if EmptyInterval(s.valueDomain) && NumericLeaves(v) != [] {
      EmptyIntervalPasses(s.valueDomain, NumericLeaves(v));
    }
  }

  // ---------------------------------------------------------------- payload by payload

  lemma LooserSpecAccepts(s: FeatureSpec, t: FeatureSpec, values: map<string, Value>, symbols: map<string, int>)
    requires Looser(s, t) && s.key == t.key && SpecAccepts(s, values, symbols)
    ensures SpecAccepts(t, values, symbols)
  {
    if t.key in values && !t.IsText() {
      if !s.IsText() {
        FittingIsFillable(s, values[s.key], symbols);
        ImpliedFits(s, t, values[t.key], symbols);
      }
    }
  }

  /** One payload, all contracts. When no common feature was tightened where the diff does not
      look, a payload the baseline accepts is accepted by the candidate exactly when a closed
      candidate still permits its keys and it fits the added features whose keys it carries. */
  lemma PayloadPreservedIff(b: FeatureContract, c: FeatureContract, stage: string, closed: bool,
                            values: map<string, Value>, symbols: map<string, int>)
    requires Comparable(b, c) && CommonLooser(b, c, stage)
    requires Accepts(values, b, stage, symbols, closed)
    ensures Accepts(values, c, stage, symbols, closed) <==>
            && (closed ==> forall k :: k in values ==> Permitted(k, c, stage))
            && (forall t :: InStage(t, c, stage) && t.featureId !in ById(b.AllSpecs()) && t.key in values ==>
                  t.IsText() || Fits(t, values[t.key], symbols))
  {
    ByIdOfUnique(b.AllSpecs());
    ByIdOfUnique(c.AllSpecs());
    forall t | t in c.AllSpecs() && t.stage == stage
      ensures t.featureId in ById(b.AllSpecs()) ==> SpecAccepts(t, values, symbols)
      ensures t.featureId !in ById(b.AllSpecs()) ==> !t.required
    {
      assert InStage(t, c, stage);
      if t.featureId in ById(b.AllSpecs()) {
        var s := ById(b.AllSpecs())[t.featureId];
        SameIdSameKey(b, c, s, t);
        assert InStage(s, b, stage);
        LooserSpecAccepts(s, t, values, symbols);
      }
    }
  }

  /** Hence a payload without the key of a dropped feature (as far as the candidate is closed)
      or of an added one stays accepted. */
  lemma PayloadPreserved(b: FeatureContract, c: FeatureContract, stage: string, closed: bool,
                         values: map<string, Value>, symbols: map<string, int>)
    requires Comparable(b, c) && CommonLooser(b, c, stage)
    requires Accepts(values, b, stage, symbols, closed)
    requires closed ==> forall s :: InStage(s, b, stage) && s.featureId !in ById(c.AllSpecs()) && s.key in values ==> s.key == "task"
    requires forall t :: InStage(t, c, stage) && t.featureId !in ById(b.AllSpecs()) && t.key in values ==> t.IsText()
    ensures Accepts(values, c, stage, symbols, closed)
  {
    PayloadPreservedIff(b, c, stage, closed, values, symbols);
    if closed {
      forall k | k in values
        ensures Permitted(k, c, stage)
      {
        if k != "task" {
          var s :| s in b.AllSpecs() && s.stage == stage && s.key == k;
          assert InStage(s, b, stage);
          ByIdOfUnique(c.AllSpecs());
          var t := ById(c.AllSpecs())[s.featureId];
          SameIdSameKey(b, c, s, t);
        }
      }
    }
  }

  // ---------------------------------------------------------------- sufficiency for all payloads

  lemma SharedPayloadAccepted(b: FeatureContract, c: FeatureContract, stage: string, closed: bool,
                              values: map<string, Value>, symbols: map<string, int>)
    requires KeyComparable(b, c, stage) && KeysLooser(b, c, stage)
    requires Accepts(values, b, stage, symbols, closed) && CarriesSharedKeys(values, b, c, stage, closed)
    ensures Accepts(values, c, stage, symbols, closed)
  {
    forall t | t in c.AllSpecs() && t.stage == stage
      ensures SpecAccepts(t, values, symbols)
    {
      assert InStage(t, c, stage);
      if t.required || (t.key in values && !t.IsText()) {
        var s :| InStage(s, b, stage) && s.key == t.key;
        LooserSpecAccepts(s, t, values, symbols);
      }
    }
  }

  /** Under the condition `Safe`, every payload the baseline accepts carries shared keys only. */
  lemma SafeCandidateAccepts(b: FeatureContract, c: FeatureContract, stage: string, closed: bool,
                             values: map<string, Value>, symbols: map<string, int>)
    requires KeyComparable(b, c, stage) && Safe(b, c, stage, closed)
    requires Accepts(values, b, stage, symbols, closed)
    ensures Accepts(values, c, stage, symbols, closed)
  {
    if closed {
      forall k | k in values
        ensures Permitted(k, c, stage)
      {
        if k != "task" {
          var s :| s in b.AllSpecs() && s.stage == stage && s.key == k;
          assert InStage(s, b, stage);
          if !s.IsText() {
            FittingIsFillable(s, values[k], symbols);
          }
        }
      }
    }
    forall t | InStage(t, c, stage) && !t.IsText() && t.key in values
      ensures HasKey(t.key, b, stage)
    {
      if closed && t.key != "task" {
        var s :| s in b.AllSpecs() && s.stage == stage && s.key == t.key;
        assert InStage(s, b, stage);
      }
    }
    SharedPayloadAccepted(b, c, stage, closed, values, symbols);
  }
}
