/** Baselines that declare several features under one key: joined key by key they accept the same,
    and the exact condition is about the joins. */
module JoinedContracts {
  import opened Outcomes
  import opened FeatureContracts
  import opened PayloadValidation
  import opened ContractCompatibility
  import opened CompatibilityWitnesses

  // ---------------------------------------------------------------- several features under one key

  predicate SymbolFree(shape: seq<Dim>) {
    forall i :: 0 <= i < |shape| ==> shape[i].Fixed?
  }

  /** Two features declare one shape, or shapes that differ whatever the symbols; text apart. */
  predicate ShapesAgree(s: FeatureSpec, t: FeatureSpec) {
    s.IsText() || t.IsText() || s.shape == t.shape || (SymbolFree(s.shape) && SymbolFree(t.shape))
  }

  ghost predicate SharedKeysAgree(b: FeatureContract, stage: string) {
    forall s, t :: InStage(s, b, stage) && InStage(t, b, stage) && s.key == t.key ==> ShapesAgree(s, t)
  }

  /** A shape that no value has. */
  const NO_SHAPE: seq<Dim> := [Fixed(-1)]

  function Meet(d: ValueDomain, e: ValueDomain): ValueDomain {
    ValueDomain(d.finite || e.finite,
                if d.minimum.Some? && (e.minimum.Some? ==> d.minimum.value >= e.minimum.value) then d.minimum else e.minimum,
                if d.maximum.Some? && (e.maximum.Some? ==> d.maximum.value <= e.maximum.value) then d.maximum else e.maximum)
  }

  /** What two features of one key ask together. */
  function Join(s: FeatureSpec, t: FeatureSpec): FeatureSpec {
    if s.IsText() then t.(required := s.required || t.required)
    else if t.IsText() then s.(required := s.required || t.required)
    else s.(required := s.required || t.required, shape := if s.shape == t.shape then s.shape else NO_SHAPE,
            valueDomain := Meet(s.valueDomain, t.valueDomain))
  }

  lemma DifferentShapesShareNoValue(s: FeatureSpec, t: FeatureSpec, v: Value, symbols: map<string, int>)
    requires SymbolFree(s.shape) && SymbolFree(t.shape) && Fits(s, v, symbols) && Fits(t, v, symbols)
    ensures s.shape == t.shape
  {
    ResolvedAt(s.shape, symbols);
    ResolvedAt(t.shape, symbols);
    var dims := ResolveShape(s.shape, symbols).value;
    forall i | 0 <= i < |dims|
      ensures s.shape[i] == t.shape[i]
    {
      assert s.shape[i].size == dims[i] == t.shape[i].size;
    }
  }

  lemma NoShapeFitsNothing(s: FeatureSpec, v: Value, symbols: map<string, int>)
    requires s.shape == NO_SHAPE
    ensures !Fits(s, v, symbols)
  {
    if Fits(s, v, symbols) {
      FittingIsFillable(s, v, symbols);
    }
  }

  lemma JoinAccepts(s: FeatureSpec, t: FeatureSpec, values: map<string, Value>, symbols: map<string, int>)
    requires s.key == t.key && ShapesAgree(s, t)
    ensures SpecAccepts(Join(s, t), values, symbols) <==> SpecAccepts(s, values, symbols) && SpecAccepts(t, values, symbols)
  {
    if s.key in values && !s.IsText() && !t.IsText() && s.shape != t.shape {
      NoShapeFitsNothing(Join(s, t), values[s.key], symbols);
      if Fits(s, values[s.key], symbols) && Fits(t, values[s.key], symbols) {
        DifferentShapesShareNoValue(s, t, values[s.key], symbols);
      }
    }
  }

  /** What the features of one key ask together. */
  function JoinKey(specs: seq<FeatureSpec>, key: string): Option<FeatureSpec> {
    if specs == [] then None
    else
      var before, last := JoinKey(specs[..|specs| - 1], key), specs[|specs| - 1];
      if last.key != key then before
      else if before.None? then Some(last)
      else Some(Join(before.value, last))
  }

  /** The shape is that of a feature of the key, or no shape as two of them differ. */
  ghost predicate JoinedShape(specs: seq<FeatureSpec>, key: string, shape: seq<Dim>) {
    || (exists s :: s in specs && s.key == key && !s.IsText() && s.shape == shape)
    || (shape == NO_SHAPE &&
        exists s, t :: s in specs && t in specs && s.key == t.key == key && !s.IsText() && !t.IsText() && s.shape != t.shape)
  }

  lemma JoinedShapeAgrees(specs: seq<FeatureSpec>, key: string, j: FeatureSpec, last: FeatureSpec)
    requires j.IsText() || JoinedShape(specs, key, j.shape)
    requires forall s, t :: s in specs + [last] && t in specs + [last] && s.key == t.key ==> ShapesAgree(s, t)
    requires last.key == key
    ensures ShapesAgree(j, last)
  {
    if !j.IsText() && !last.IsText() {
      assert last in specs + [last];
      if s :| s in specs && s.key == key && !s.IsText() && s.shape == j.shape {
        assert s in specs + [last] && ShapesAgree(s, last);
      } else {
        var s, t :| s in specs && t in specs && s.key == t.key == key && !s.IsText() && !t.IsText() && s.shape != t.shape;
        assert s in specs + [last] && t in specs + [last];
        assert ShapesAgree(s, t) && ShapesAgree(s, last);
        assert SymbolFree(NO_SHAPE);
      }
    }
  }

  lemma JoinedShapeExtends(specs: seq<FeatureSpec>, key: string, j: FeatureSpec, last: FeatureSpec)
    requires last.key == key && (j.IsText() || JoinedShape(specs, key, j.shape))
    ensures Join(j, last).IsText() || JoinedShape(specs + [last], key, Join(j, last).shape)
  {
    var all := specs + [last];
    assert last in all && forall s :: s in specs ==> s in all;
    if !j.IsText() && !last.IsText() && j.shape != last.shape {
      if s :| s in specs && s.key == key && !s.IsText() && s.shape == j.shape {
        assert s in all && s.shape != last.shape;
      }
    }
  }

  lemma {:induction false} JoinKeyMeaning(specs: seq<FeatureSpec>, key: string, stage: string)
    requires forall s :: s in specs ==> s.stage == stage
    ensures JoinKey(specs, key).Some? <==> exists s :: s in specs && s.key == key
    ensures JoinKey(specs, key).Some? ==>
              var j := JoinKey(specs, key).value;
              && j.key == key && j.stage == stage
              && (j.IsText() || JoinedShape(specs, key, j.shape))
              && (j.required <==> exists s :: s in specs && s.key == key && s.required)
  {
    if specs == [] {
    } else {
      var init, last := specs[..|specs| - 1], specs[|specs| - 1];
      assert specs == init + [last];
      JoinKeyMeaning(init, key, stage);
      if last.key == key && JoinKey(init, key).Some? {
        JoinedShapeExtends(init, key, JoinKey(init, key).value, last);
      }
    }
  }

  lemma {:induction false} JoinKeyAccepts(specs: seq<FeatureSpec>, key: string, stage: string,
                                          values: map<string, Value>, symbols: map<string, int>)
    requires forall s :: s in specs ==> s.stage == stage
    requires forall s, t :: s in specs && t in specs && s.key == t.key ==> ShapesAgree(s, t)
    requires JoinKey(specs, key).Some?
    ensures SpecAccepts(JoinKey(specs, key).value, values, symbols) <==>
            forall s :: s in specs && s.key == key ==> SpecAccepts(s, values, symbols)
  {
    var init, last := specs[..|specs| - 1], specs[|specs| - 1];
    assert specs == init + [last];
    JoinKeyMeaning(init, key, stage);
    if JoinKey(init, key).Some? {
      JoinKeyAccepts(init, key, stage, values, symbols);
      if last.key == key {
        JoinedShapeAgrees(init, key, JoinKey(init, key).value, last);
        JoinAccepts(JoinKey(init, key).value, last, values, symbols);
      }
    }
  }

  /** The contract of the stage in which every feature asks what all features of its key ask. */
  ghost function Joined(b: FeatureContract, stage: string): (j: FeatureContract)
    ensures |j.AllSpecs()| == |StageSpecs(b.AllSpecs(), stage)|
    ensures forall i :: 0 <= i < |j.AllSpecs()| ==>
              JoinKey(StageSpecs(b.AllSpecs(), stage), StageSpecs(b.AllSpecs(), stage)[i].key) == Some(j.AllSpecs()[i])
  {
    var specs := StageSpecs(b.AllSpecs(), stage);
    StageSpecsMembers(b.AllSpecs(), stage);
    var joined := seq(|specs|, i requires 0 <= i < |specs| => JoinedAt(specs, i, stage));
    assert FeatureContract(joined, [], []).AllSpecs() == joined;
    FeatureContract(joined, [], [])
  }

  ghost function JoinedAt(specs: seq<FeatureSpec>, i: nat, stage: string): (j: FeatureSpec)
    requires i < |specs| && forall s :: s in specs ==> s.stage == stage
    ensures JoinKey(specs, specs[i].key) == Some(j)
  {
    JoinKeyMeaning(specs, specs[i].key, stage);
    assert specs[i] in specs;
    JoinKey(specs, specs[i].key).value
  }

  /** The features of the joined contract are the joins of the keys that the contract declares. */
  lemma JoinedMembers(b: FeatureContract, stage: string, m: FeatureSpec)
    ensures InStage(m, Joined(b, stage), stage) <==> JoinKey(StageSpecs(b.AllSpecs(), stage), m.key) == Some(m)
    ensures m in Joined(b, stage).AllSpecs() ==> InStage(m, Joined(b, stage), stage)
  {
    var specs, joined := StageSpecs(b.AllSpecs(), stage), Joined(b, stage).AllSpecs();
    StageSpecsMembers(b.AllSpecs(), stage);
    forall k
      ensures JoinKey(specs, k).Some? ==> JoinKey(specs, k).value.key == k && JoinKey(specs, k).value.stage == stage
    {
      JoinKeyMeaning(specs, k, stage);
    }
    if JoinKey(specs, m.key) == Some(m) {
      JoinKeyMeaning(specs, m.key, stage);
      var s :| s in specs && s.key == m.key;
      var i :| 0 <= i < |specs| && specs[i] == s;
      assert joined[i] == m;
    }
    if m in joined {
      var i :| 0 <= i < |joined| && joined[i] == m;
      assert JoinKey(specs, specs[i].key) == Some(m);
    }
  }

  lemma JoinedKeys(b: FeatureContract, stage: string)
    ensures OneFeaturePerKey(Joined(b, stage), stage)
    ensures forall k :: HasKey(k, Joined(b, stage), stage) <==> HasKey(k, b, stage)
    ensures forall k :: Permitted(k, Joined(b, stage), stage) <==> Permitted(k, b, stage)
  {
    var specs, j := StageSpecs(b.AllSpecs(), stage), Joined(b, stage);
    StageSpecsMembers(b.AllSpecs(), stage);
    forall s, t | InStage(s, j, stage) && InStage(t, j, stage) && s.key == t.key
      ensures s == t
    {
      JoinedMembers(b, stage, s);
      JoinedMembers(b, stage, t);
    }
    forall k
      ensures HasKey(k, j, stage) <==> HasKey(k, b, stage)
      ensures Permitted(k, j, stage) <==> Permitted(k, b, stage)
    {
      JoinKeyMeaning(specs, k, stage);
      if m :| InStage(m, j, stage) && m.key == k {
        JoinedMembers(b, stage, m);
        var s :| s in specs && s.key == k;
        assert InStage(s, b, stage);
      }
      if s :| InStage(s, b, stage) && s.key == k {
        assert s in specs;
        JoinedMembers(b, stage, JoinKey(specs, k).value);
        assert InStage(JoinKey(specs, k).value, j, stage);
      }
      assert Permitted(k, j, stage) <==> k == "task" || HasKey(k, j, stage) by {
        assert forall m :: InStage(m, j, stage) <==> m in j.AllSpecs() && m.stage == stage;
      }
      assert Permitted(k, b, stage) <==> k == "task" || HasKey(k, b, stage) by {
        assert forall m :: InStage(m, b, stage) <==> m in b.AllSpecs() && m.stage == stage;
      }
    }
  }

  lemma StageKeysAgree(b: FeatureContract, stage: string)
    requires SharedKeysAgree(b, stage)
    ensures var specs := StageSpecs(b.AllSpecs(), stage);
            && (forall s :: s in specs <==> InStage(s, b, stage))
            && (forall s :: s in specs ==> s.stage == stage)
            && forall s, t :: s in specs && t in specs && s.key == t.key ==> ShapesAgree(s, t)
  {
    StageSpecsMembers(b.AllSpecs(), stage);
    assert forall s, t :: s in StageSpecs(b.AllSpecs(), stage) && t in StageSpecs(b.AllSpecs(), stage) ==>
             InStage(s, b, stage) && InStage(t, b, stage);
  }

  lemma JoinedSpecAccepts(b: FeatureContract, stage: string, m: FeatureSpec, values: map<string, Value>, symbols: map<string, int>)
    requires SharedKeysAgree(b, stage) && InStage(m, Joined(b, stage), stage)
    ensures SpecAccepts(m, values, symbols) <==>
            forall s :: InStage(s, b, stage) && s.key == m.key ==> SpecAccepts(s, values, symbols)
  {
    StageKeysAgree(b, stage);
    JoinedMembers(b, stage, m);
    JoinKeyAccepts(StageSpecs(b.AllSpecs(), stage), m.key, stage, values, symbols);
  }

  ghost predicate SpecsAccept(b: FeatureContract, stage: string, values: map<string, Value>, symbols: map<string, int>) {
    forall s :: InStage(s, b, stage) ==> SpecAccepts(s, values, symbols)
  }

  lemma AcceptsMeansSpecsAccept(b: FeatureContract, stage: string, closed: bool, values: map<string, Value>, symbols: map<string, int>)
    ensures Accepts(values, b, stage, symbols, closed) <==>
            (closed ==> forall k :: k in values ==> Permitted(k, b, stage)) && SpecsAccept(b, stage, values, symbols)
  {
    assert forall s :: InStage(s, b, stage) <==> s in b.AllSpecs() && s.stage == stage;
  }

  /** Joining changes nothing of what is accepted. */
  lemma JoinedAccepts(b: FeatureContract, stage: string, closed: bool, values: map<string, Value>, symbols: map<string, int>)
    requires SharedKeysAgree(b, stage)
    ensures Accepts(values, Joined(b, stage), stage, symbols, closed) <==> Accepts(values, b, stage, symbols, closed)
  {
    var j := Joined(b, stage);
    JoinedKeys(b, stage);
    AcceptsMeansSpecsAccept(b, stage, closed, values, symbols);
    AcceptsMeansSpecsAccept(j, stage, closed, values, symbols);
    if SpecsAccept(j, stage, values, symbols) {
      forall s | InStage(s, b, stage)
        ensures SpecAccepts(s, values, symbols)
      {
        assert HasKey(s.key, b, stage);
        var m :| InStage(m, j, stage) && m.key == s.key;
        JoinedSpecAccepts(b, stage, m, values, symbols);
      }
    }
    if SpecsAccept(b, stage, values, symbols) {
      forall m | InStage(m, j, stage)
        ensures SpecAccepts(m, values, symbols)
      {
        JoinedSpecAccepts(b, stage, m, values, symbols);
      }
    }
  }

  lemma JoinedKeyComparable(b: FeatureContract, c: FeatureContract, stage: string)
    requires KeyComparable(b, c, stage)
    ensures KeyComparable(Joined(b, stage), c, stage)
  {
    var specs := StageSpecs(b.AllSpecs(), stage);
    StageSpecsMembers(b.AllSpecs(), stage);
    JoinedKeys(b, stage);
    forall m | InStage(m, Joined(b, stage), stage) && m.required
      ensures Permitted(m.key, c, stage)
    {
      JoinedMembers(b, stage, m);
      JoinKeyMeaning(specs, m.key, stage);
      var s :| s in specs && s.key == m.key && s.required;
      assert InStage(s, b, stage);
    }
  }

  // ---------------------------------------------------------------- the main results

  lemma KeyComparableSharedIff(b: FeatureContract, c: FeatureContract, stage: string, closed: bool)
    requires KeyComparable(b, c, stage) && SharedKeysAgree(b, stage)
    ensures AcceptsShared(b, c, stage, closed) <==>
            AcceptsNothing(Joined(b, stage), stage) || KeysLooser(Joined(b, stage), c, stage)
  {
    var j := Joined(b, stage);
    JoinedKeyComparable(b, c, stage);
    JoinedKeys(b, stage);
    SharedIff(j, c, stage, closed);
    forall values: map<string, Value>, symbols: map<string, int>
      ensures Accepts(values, j, stage, symbols, closed) <==> Accepts(values, b, stage, symbols, closed)
      ensures CarriesSharedKeys(values, j, c, stage, closed) <==> CarriesSharedKeys(values, b, c, stage, closed)
    {
      JoinedAccepts(b, stage, closed, values, symbols);
    }
    assert AcceptsShared(j, c, stage, closed) <==> AcceptsShared(b, c, stage, closed);
  }

  /** Payloads that carry only keys both contracts share: a non-breaking candidate accepts all
      that the baseline accepts exactly when no feature asks more than the baseline's features
      of its key do together. */
  lemma NonBreakingPreservesSharedIff(b: FeatureContract, c: FeatureContract, stage: string, closed: bool)
    requires Comparable(b, c) && SharedKeysAgree(b, stage)
    ensures AcceptsShared(b, c, stage, closed) <==>
            AcceptsNothing(Joined(b, stage), stage) || KeysLooser(Joined(b, stage), c, stage)
  {
    ComparableByKeys(b, c, stage);
    KeyComparableSharedIff(b, c, stage, closed);
  }

  lemma KeyComparableAcceptanceIff(b: FeatureContract, c: FeatureContract, stage: string, closed: bool)
    requires KeyComparable(b, c, stage) && SharedKeysAgree(b, stage)
    ensures AcceptsAll(b, c, stage, closed) <==>
            AcceptsNothing(Joined(b, stage), stage) || Safe(Joined(b, stage), c, stage, closed)
  {
    var j := Joined(b, stage);
    JoinedKeyComparable(b, c, stage);
    JoinedKeys(b, stage);
    AcceptanceIff(j, c, stage, closed);
    forall values: map<string, Value>, symbols: map<string, int>
      ensures Accepts(values, j, stage, symbols, closed) <==> Accepts(values, b, stage, symbols, closed)
    {
      JoinedAccepts(b, stage, closed, values, symbols);
    }
    assert AcceptsAll(j, c, stage, closed) <==> AcceptsAll(b, c, stage, closed);
  }

  /** All payloads and all symbols: a non-breaking candidate accepts everything the baseline
      accepts exactly when the baseline accepts nothing or the candidate is safe, as declared. */
  lemma NonBreakingPreservesAcceptanceIff(b: FeatureContract, c: FeatureContract, stage: string, closed: bool)
    requires Comparable(b, c) && SharedKeysAgree(b, stage)
    ensures AcceptsAll(b, c, stage, closed) <==>
            AcceptsNothing(Joined(b, stage), stage) || Safe(Joined(b, stage), c, stage, closed)
  {
    ComparableByKeys(b, c, stage);
    KeyComparableAcceptanceIff(b, c, stage, closed);
  }

  /** With one feature per key, joining changes nothing: the conditions are those of the baseline
      itself. */
  lemma JoinedOfUnique(b: FeatureContract, stage: string, m: FeatureSpec)
    requires Disciplined(b) && OneFeaturePerKey(b, stage)
    ensures InStage(m, Joined(b, stage), stage) <==> InStage(m, b, stage)
  {
    StageSpecsMembers(b.AllSpecs(), stage);
    StageKeysDistinct(b, stage);
    JoinedMembers(b, stage, m);
    JoinKeyOfUnique(StageSpecs(b.AllSpecs(), stage), m.key);
  }

  lemma StageKeysDistinct(b: FeatureContract, stage: string)
    requires Disciplined(b) && OneFeaturePerKey(b, stage)
    ensures var specs := StageSpecs(b.AllSpecs(), stage);
            forall i, j :: 0 <= i < j < |specs| ==> specs[i].key != specs[j].key
  {
    var specs := StageSpecs(b.AllSpecs(), stage);
    StageSpecsMembers(b.AllSpecs(), stage);
    StageSpecsDistinct(b.AllSpecs(), stage);
    forall i, j | 0 <= i < j < |specs|
      ensures specs[i].key != specs[j].key
    {
      assert specs[i] in specs && specs[j] in specs && specs[i] != specs[j];
      assert InStage(specs[i], b, stage) && InStage(specs[j], b, stage);
    }
  }

  ghost predicate AllDistinct(specs: seq<FeatureSpec>) {
    forall i, j :: 0 <= i < j < |specs| ==> specs[i] != specs[j]
  }

  lemma {:induction false} StageSpecsDistinct(specs: seq<FeatureSpec>, stage: string)
    requires AllDistinct(specs)
    ensures AllDistinct(StageSpecs(specs, stage))
  {
    if specs == [] {
    } else {
      var init, last := specs[..|specs| - 1], specs[|specs| - 1];
      StageSpecsDistinct(init, stage);
      StageSpecsMembers(init, stage);
      assert forall i :: 0 <= i < |StageSpecs(init, stage)| ==> StageSpecs(init, stage)[i] in init;
      assert last !in init;
    }
  }

  lemma {:induction false} JoinKeyOfUnique(specs: seq<FeatureSpec>, key: string)
    requires forall i, j :: 0 <= i < j < |specs| ==> specs[i].key != specs[j].key
    ensures forall s :: s in specs && s.key == key ==> JoinKey(specs, key) == Some(s)
    ensures JoinKey(specs, key).Some? ==> JoinKey(specs, key).value in specs
  {
    if specs == [] {
    } else {
      var init, last := specs[..|specs| - 1], specs[|specs| - 1];
      assert specs == init + [last];
      assert forall i :: 0 <= i < |init| ==> init[i] == specs[i] && init[i].key != last.key;
      JoinKeyOfUnique(init, key);
      if last.key == key && JoinKey(init, key).Some? {
        JoinKeyHasKey(init, key);
      }
    }
  }

  lemma {:induction false} JoinKeyHasKey(specs: seq<FeatureSpec>, key: string)
    ensures JoinKey(specs, key).Some? ==> exists s :: s in specs && s.key == key
  {
    if specs == [] {
    } else {
      JoinKeyHasKey(specs[..|specs| - 1], key);
      assert forall s :: s in specs[..|specs| - 1] ==> s in specs;
    }
  }
}
