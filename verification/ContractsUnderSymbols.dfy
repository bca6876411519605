/** Contracts read with the symbols of their shapes given, and the exact condition for any two
    contracts, however features share keys and shapes. */
module ContractsUnderSymbols {
  import opened Outcomes
  import opened FeatureContracts
  import opened PayloadValidation
  import opened ContractCompatibility
  import opened JoinedContracts

  // ---------------------------------------------------------------- under given symbols

  /** The dimensions as numbers, or no shape where they do not resolve. */
  function ConcreteShape(shape: seq<Dim>, symbols: map<string, int>): seq<Dim> {
    var dims := ResolveShape(shape, symbols);
    if dims.None? then NO_SHAPE else AllFixed(dims.value)
  }

  function AllFixed(dims: seq<int>): seq<Dim> {
    seq(|dims|, i requires 0 <= i < |dims| => Fixed(dims[i]))
  }

  lemma {:induction false} AllFixedResolves(dims: seq<int>, symbols: map<string, int>)
    ensures ResolveShape(AllFixed(dims), symbols) == Some(dims)
  {
    if dims == [] {
    } else {
      var init := dims[..|dims| - 1];
      AllFixedResolves(init, symbols);
      assert AllFixed(dims)[..|dims| - 1] == AllFixed(init);
      assert dims == init + [dims[|dims| - 1]];
    }
  }

  function Concrete(s: FeatureSpec, symbols: map<string, int>): FeatureSpec {
    s.(shape := ConcreteShape(s.shape, symbols))
  }

  function ConcreteAll(specs: seq<FeatureSpec>, symbols: map<string, int>): (r: seq<FeatureSpec>)
    ensures |r| == |specs| && forall i :: 0 <= i < |r| ==> r[i] == Concrete(specs[i], symbols)
  {
    seq(|specs|, i requires 0 <= i < |specs| => Concrete(specs[i], symbols))
  }

  /** The contract as it reads once the symbols are given. */
  function Under(b: FeatureContract, symbols: map<string, int>): FeatureContract {
    FeatureContract(ConcreteAll(b.observations, symbols), ConcreteAll(b.actions, symbols), ConcreteAll(b.context, symbols))
  }

  lemma UnderMembers(b: FeatureContract, symbols: map<string, int>, stage: string)
    ensures Under(b, symbols).AllSpecs() == ConcreteAll(b.AllSpecs(), symbols)
    ensures forall s :: InStage(s, b, stage) ==> InStage(Concrete(s, symbols), Under(b, symbols), stage)
    ensures forall m :: InStage(m, Under(b, symbols), stage) ==>
              exists s :: InStage(s, b, stage) && m == Concrete(s, symbols)
  {
    var specs, under := b.AllSpecs(), Under(b, symbols).AllSpecs();
    assert under == ConcreteAll(specs, symbols);
    forall s | InStage(s, b, stage)
      ensures InStage(Concrete(s, symbols), Under(b, symbols), stage)
    {
      var i :| 0 <= i < |specs| && specs[i] == s;
      assert under[i] == Concrete(s, symbols);
    }
    forall m | InStage(m, Under(b, symbols), stage)
      ensures exists s :: InStage(s, b, stage) && m == Concrete(s, symbols)
    {
      var i :| 0 <= i < |under| && under[i] == m;
      assert InStage(specs[i], b, stage) && m == Concrete(specs[i], symbols);
    }
  }

  /** A concrete feature no longer depends on symbols. */
  lemma ConcreteAccepts(s: FeatureSpec, values: map<string, Value>, symbols: map<string, int>, others: map<string, int>)
    ensures SpecAccepts(Concrete(s, symbols), values, others) <==> SpecAccepts(s, values, symbols)
  {
    if s.key in values && !s.IsText() {
      var v := values[s.key];
      var dims := ResolveShape(s.shape, symbols);
      if dims.None? {
        NoShapeFitsNothing(Concrete(s, symbols), v, others);
      } else {
        AllFixedResolves(dims.value, others);
      }
    }
  }

  lemma UnderAccepts(b: FeatureContract, stage: string, closed: bool, values: map<string, Value>,
                     symbols: map<string, int>, others: map<string, int>)
    ensures Accepts(values, Under(b, symbols), stage, others, closed) <==> Accepts(values, b, stage, symbols, closed)
  {
    var u := Under(b, symbols);
    UnderMembers(b, symbols, stage);
    UnderKeys(b, symbols, stage);
    AcceptsMeansSpecsAccept(b, stage, closed, values, symbols);
    AcceptsMeansSpecsAccept(u, stage, closed, values, others);
    forall s | InStage(s, b, stage)
      ensures SpecAccepts(Concrete(s, symbols), values, others) <==> SpecAccepts(s, values, symbols)
    {
      ConcreteAccepts(s, values, symbols, others);
    }
  }

  lemma UnderKeys(b: FeatureContract, symbols: map<string, int>, stage: string)
    ensures forall k :: HasKey(k, Under(b, symbols), stage) <==> HasKey(k, b, stage)
    ensures forall k :: Permitted(k, Under(b, symbols), stage) <==> Permitted(k, b, stage)
  {
    var u := Under(b, symbols);
    UnderMembers(b, symbols, stage);
    forall k
      ensures HasKey(k, u, stage) <==> HasKey(k, b, stage)
      ensures Permitted(k, u, stage) <==> Permitted(k, b, stage)
    {
      if m :| InStage(m, u, stage) && m.key == k {
        var s :| InStage(s, b, stage) && m == Concrete(s, symbols);
        assert s.key == k;
      }
      if s :| InStage(s, b, stage) && s.key == k {
        assert InStage(Concrete(s, symbols), u, stage) && Concrete(s, symbols).key == k;
      }
      PermittedMeansHasKey(k, b, stage);
      PermittedMeansHasKey(k, u, stage);
    }
  }

  lemma PermittedMeansHasKey(k: string, b: FeatureContract, stage: string)
    ensures Permitted(k, b, stage) <==> k == "task" || HasKey(k, b, stage)
  {
    assert forall m :: InStage(m, b, stage) <==> m in b.AllSpecs() && m.stage == stage;
  }

  lemma UnderComparable(b: FeatureContract, c: FeatureContract, stage: string, symbols: map<string, int>)
    requires KeyComparable(b, c, stage)
    ensures KeyComparable(Under(b, symbols), Under(c, symbols), stage)
    ensures SharedKeysAgree(Under(b, symbols), stage)
  {
    UnderMembers(b, symbols, stage);
    UnderMembers(c, symbols, stage);
    UnderKeys(b, symbols, stage);
    UnderKeys(c, symbols, stage);
    forall m | InStage(m, Under(b, symbols), stage) && m.required
      ensures Permitted(m.key, Under(c, symbols), stage)
    {
      var s :| InStage(s, b, stage) && m == Concrete(s, symbols);
      assert s.required && s.key == m.key;
    }
    forall m | InStage(m, Under(c, symbols), stage) && m.required
      ensures HasKey(m.key, Under(b, symbols), stage)
    {
      var s :| InStage(s, c, stage) && m == Concrete(s, symbols);
      assert s.required && s.key == m.key;
    }
    forall m | InStage(m, Under(b, symbols), stage)
      ensures SymbolFree(m.shape)
    {
      var s :| InStage(s, b, stage) && m == Concrete(s, symbols);
    }
  }

  /** Whatever the baseline accepts under the given symbols, the candidate accepts. */
  ghost predicate AcceptsUnder(b: FeatureContract, c: FeatureContract, stage: string, closed: bool, symbols: map<string, int>) {
    forall values: map<string, Value> ::
      Accepts(values, b, stage, symbols, closed) ==> Accepts(values, c, stage, symbols, closed)
  }

  /** What the baseline asks at the stage under the given symbols, key by key. */
  ghost function Asked(b: FeatureContract, stage: string, symbols: map<string, int>): FeatureContract {
    Joined(Under(b, symbols), stage)
  }

  /** The exact condition for given symbols: the baseline accepts nothing, or the candidate is safe. */
  ghost predicate SafeUnder(b: FeatureContract, c: FeatureContract, stage: string, closed: bool, symbols: map<string, int>) {
    AcceptsNothing(Asked(b, stage, symbols), stage) || Safe(Asked(b, stage, symbols), Under(c, symbols), stage, closed)
  }

  lemma UnderAcceptsAll(b: FeatureContract, c: FeatureContract, stage: string, closed: bool, symbols: map<string, int>)
    ensures AcceptsAll(Under(b, symbols), Under(c, symbols), stage, closed) <==> AcceptsUnder(b, c, stage, closed, symbols)
  {
    forall values: map<string, Value>, others: map<string, int>
      ensures Accepts(values, Under(b, symbols), stage, others, closed) <==> Accepts(values, b, stage, symbols, closed)
      ensures Accepts(values, Under(c, symbols), stage, others, closed) <==> Accepts(values, c, stage, symbols, closed)
    {
      UnderAccepts(b, stage, closed, values, symbols, others);
      UnderAccepts(c, stage, closed, values, symbols, others);
    }
    if AcceptsAll(Under(b, symbols), Under(c, symbols), stage, closed) {
      forall values: map<string, Value> | Accepts(values, b, stage, symbols, closed)
        ensures Accepts(values, c, stage, symbols, closed)
      {
        assert Accepts(values, Under(b, symbols), stage, symbols, closed);
      }
    }
  }

  /** For any two disciplined contracts, however features share keys and shapes: after a
      non-breaking change, everything the baseline accepts under given symbols is accepted by the
      candidate exactly when the baseline accepts nothing or the candidate is safe, both read
      with those symbols. */
  lemma NonBreakingUnderSymbolsIff(b: FeatureContract, c: FeatureContract, stage: string, closed: bool, symbols: map<string, int>)
    requires Comparable(b, c)
    ensures AcceptsUnder(b, c, stage, closed, symbols) <==> SafeUnder(b, c, stage, closed, symbols)
  {
    var u, w := Under(b, symbols), Under(c, symbols);
    ComparableByKeys(b, c, stage);
    UnderComparable(b, c, stage, symbols);
    KeyComparableAcceptanceIff(u, w, stage, closed);
    UnderAcceptsAll(b, c, stage, closed, symbols);
  }

  lemma UnderCarries(b: FeatureContract, c: FeatureContract, stage: string, closed: bool, values: map<string, Value>,
                     symbols: map<string, int>)
    ensures CarriesSharedKeys(values, Under(b, symbols), Under(c, symbols), stage, closed) <==>
            CarriesSharedKeys(values, b, c, stage, closed)
  {
    var u, w := Under(b, symbols), Under(c, symbols);
    UnderKeys(b, symbols, stage);
    UnderKeys(c, symbols, stage);
    UnderMembers(c, symbols, stage);
    if CarriesSharedKeys(values, u, w, stage, closed) {
      forall t | InStage(t, c, stage) && !t.IsText() && t.key in values
        ensures HasKey(t.key, b, stage)
      {
        assert InStage(Concrete(t, symbols), w, stage) && Concrete(t, symbols).key == t.key;
      }
    }
    if CarriesSharedKeys(values, b, c, stage, closed) {
      forall m | InStage(m, w, stage) && !m.IsText() && m.key in values
        ensures HasKey(m.key, u, stage)
      {
        var t :| InStage(t, c, stage) && m == Concrete(t, symbols);
        assert t.key == m.key && !t.IsText();
      }
    }
  }

  /** Whatever the baseline accepts of the payloads with shared keys under the given symbols. */
  ghost predicate AcceptsSharedUnder(b: FeatureContract, c: FeatureContract, stage: string, closed: bool, symbols: map<string, int>) {
    forall values: map<string, Value> ::
      Accepts(values, b, stage, symbols, closed) && CarriesSharedKeys(values, b, c, stage, closed) ==>
        Accepts(values, c, stage, symbols, closed)
  }

  /** The same for the payloads that carry only keys both contracts share. */
  lemma NonBreakingSharedUnderSymbolsIff(b: FeatureContract, c: FeatureContract, stage: string, closed: bool, symbols: map<string, int>)
    requires Comparable(b, c)
    ensures AcceptsSharedUnder(b, c, stage, closed, symbols) <==>
            AcceptsNothing(Asked(b, stage, symbols), stage) || KeysLooser(Asked(b, stage, symbols), Under(c, symbols), stage)
  {
    var u, w := Under(b, symbols), Under(c, symbols);
    ComparableByKeys(b, c, stage);
    UnderComparable(b, c, stage, symbols);
    KeyComparableSharedIff(u, w, stage, closed);
    forall values: map<string, Value>, others: map<string, int>
      ensures Accepts(values, u, stage, others, closed) <==> Accepts(values, b, stage, symbols, closed)
      ensures Accepts(values, w, stage, others, closed) <==> Accepts(values, c, stage, symbols, closed)
      ensures CarriesSharedKeys(values, u, w, stage, closed) <==> CarriesSharedKeys(values, b, c, stage, closed)
    {
      UnderAccepts(b, stage, closed, values, symbols, others);
      UnderAccepts(c, stage, closed, values, symbols, others);
      UnderCarries(b, c, stage, closed, values, symbols);
    }
    if AcceptsShared(u, w, stage, closed) {
      forall values: map<string, Value> | Accepts(values, b, stage, symbols, closed) && CarriesSharedKeys(values, b, c, stage, closed)
        ensures Accepts(values, c, stage, symbols, closed)
      {
        assert Accepts(values, u, stage, symbols, closed);
      }
    }
  }

  /** So for all symbols at once. */
  lemma NonBreakingForAllSymbolsIff(b: FeatureContract, c: FeatureContract, stage: string, closed: bool)
    requires Comparable(b, c)
    ensures AcceptsAll(b, c, stage, closed) <==> forall symbols :: SafeUnder(b, c, stage, closed, symbols)
  {
    forall symbols: map<string, int>
      ensures AcceptsUnder(b, c, stage, closed, symbols) <==> SafeUnder(b, c, stage, closed, symbols)
    {
      NonBreakingUnderSymbolsIff(b, c, stage, closed, symbols);
    }
    if forall symbols :: SafeUnder(b, c, stage, closed, symbols) {
      forall values: map<string, Value>, symbols: map<string, int> | Accepts(values, b, stage, symbols, closed)
        ensures Accepts(values, c, stage, symbols, closed)
      {
        assert SafeUnder(b, c, stage, closed, symbols) && AcceptsUnder(b, c, stage, closed, symbols);
      }
    }
  }
}
