/** The bundle of leaf evidence behind an official-eval certificate: every root is the content
    hash of its leaf, and the self-verifying leaves are replayed. */
module CertificationBundle {
  import opened Outcomes
  import opened ProcessorParity
  import opened CanonicalEvidence
  import ModelConversion

  datatype RootKey =
    | ArtifactRoot | FeatureContractRoot | DatasetMetadataRoot | ProcessorParityRoot | PolicyExecutionRoot
    | ModelConversionRoot | ProcessorStageRoot | RuntimeSupportRoot | NegotiationRecordRoot
    | RunnerCapabilitiesRoot | RolloutMatrixRoot

  const ROOT_KEYS: seq<RootKey> := [
    ArtifactRoot, FeatureContractRoot, DatasetMetadataRoot, ProcessorParityRoot, PolicyExecutionRoot,
    ModelConversionRoot, ProcessorStageRoot, RuntimeSupportRoot, NegotiationRecordRoot,
    RunnerCapabilitiesRoot, RolloutMatrixRoot]

  /** A leaf object, as far as the bundle looks into it: a parity report, conversion evidence, or
      any other object, of which it reads three fields and whether all floats are finite. */
  datatype Leaf =
    | ParityLeaf(report: Report, featureContract: Option<RootName>)
    | ConversionLeaf(evidence: ModelConversion.Evidence)
    | ObjectLeaf(text: string, finite: bool, featureContract: Option<RootName>,
                 artifactAimodel: Option<string>, aimodel: Option<string>)
  {
    /** `feature_contract_sha256`. */
    function FeatureContract(): Option<RootName> {
      if ConversionLeaf? then None else featureContract
    }

    /** `artifact.aimodel_sha256`. */
    function ArtifactAimodel(): Option<string> {
      if ConversionLeaf? then Some(evidence.identity.aimodelSha) else if ObjectLeaf? then artifactAimodel else None
    }

    /** `aimodel_sha256`. */
    function Aimodel(): Option<string> {
      if ObjectLeaf? then aimodel else None
    }

    /** The canonical hash exists: no float in the object is infinite or not a number. */
    predicate IsCanonical() {
      match this
      case ParityLeaf(report, _) => ReportCanonical(report)
      case ConversionLeaf(evidence) => EvidenceCanonical(evidence)
      case ObjectLeaf(_, finite, _, _, _) => finite
    }
  }

  /** The content hash of a leaf, symbolic and so injective. */
  datatype LeafHash = HashOf(leaf: Leaf)

  /** A string in a leaf's field: the hash of some object, or any other text. */
  datatype RootName = Names(hash: LeafHash) | Unrelated(text: string)

  type Leaves = map<RootKey, Leaf>
  type Roots = map<RootKey, LeafHash>

  datatype Level = Reverified | Addressed

  /** What the source raises instead of answering: a leaf without a canonical hash, or an error
      raised inside a leaf's own verifier. */
  datatype BundleFault = NotCanonical(key: RootKey) | VerifierRaises(key: RootKey)

  datatype BundleVerdict = BundleVerdict(errors: seq<BundleError>, roots: Roots, levels: map<RootKey, Level>)

  datatype BundleError = SchemaRejected | LeafFailed(key: RootKey) | ParityBoundElsewhere | ConversionBoundElsewhere

  predicate HasAllLeaves(leaves: Leaves) {
    forall i :: 0 <= i < |ROOT_KEYS| ==> ROOT_KEYS[i] in leaves
  }

  lemma EveryKeyListed(k: RootKey)
    ensures k in ROOT_KEYS
  {
    assert ROOT_KEYS[0] == ArtifactRoot && ROOT_KEYS[1] == FeatureContractRoot && ROOT_KEYS[2] == DatasetMetadataRoot;
    assert ROOT_KEYS[3] == ProcessorParityRoot && ROOT_KEYS[4] == PolicyExecutionRoot && ROOT_KEYS[5] == ModelConversionRoot;
    assert ROOT_KEYS[6] == ProcessorStageRoot && ROOT_KEYS[7] == RuntimeSupportRoot && ROOT_KEYS[8] == NegotiationRecordRoot;
    assert ROOT_KEYS[9] == RunnerCapabilitiesRoot && ROOT_KEYS[10] == RolloutMatrixRoot;
  }

  function LevelOf(k: RootKey): Level {
    if k.ProcessorParityRoot? || k.ModelConversionRoot? then Reverified else Addressed
  }

  /** What re-running the leaf's own verifier comes to; other keys have none. */
  predicate LeafHolds(k: RootKey, leaf: Leaf, sqrt: real -> real) {
    match k
    case ProcessorParityRoot => leaf.ParityLeaf? && Verifies(leaf.report, sqrt)
    case ModelConversionRoot => leaf.ConversionLeaf? && ModelConversion.Verifies(leaf.evidence, None, sqrt)
    case _ => true
  }

  /** The feature contract the parity leaf names is the one in the bundle. */
  predicate ParityBound(leaves: Leaves)
    requires HasAllLeaves(leaves)
  {
    EveryKeyListed(ProcessorParityRoot);
    EveryKeyListed(FeatureContractRoot);
    var named := leaves[ProcessorParityRoot].FeatureContract();
    named.Some? ==> named.value == Names(HashOf(leaves[FeatureContractRoot]))
  }

  /** The converted model and the artifact leaf name one and the same model file. */
  predicate ConversionBound(leaves: Leaves)
    requires HasAllLeaves(leaves)
  {
    EveryKeyListed(ModelConversionRoot);
    EveryKeyListed(ArtifactRoot);
    var converted, artifact := leaves[ModelConversionRoot].ArtifactAimodel(), leaves[ArtifactRoot].Aimodel();
    converted.Some? && artifact.Some? ==> converted == artifact
  }

  /** The error raised on a leaf, if any: it is hashed before it is verified. */
  function LeafFault(k: RootKey, leaf: Leaf): Option<BundleFault> {
    if !leaf.IsCanonical() then Some(NotCanonical(k))
    else if k.ModelConversionRoot? && leaf.ConversionLeaf? && ModelConversion.Raises(leaf.evidence, None)
    then Some(VerifierRaises(k))
    else None
  }

  /** The first error raised, in the order of the keys. */
  function FirstFault(keys: seq<RootKey>, leaves: Leaves): Option<BundleFault>
    requires forall k :: k in keys ==> k in leaves
  {
    if keys == [] then None
    else
      var before := FirstFault(keys[..|keys| - 1], leaves);
      if before.Some? then before else LeafFault(keys[|keys| - 1], leaves[keys[|keys| - 1]])
  }

  lemma {:induction false} NoFaultMeaning(keys: seq<RootKey>, leaves: Leaves)
    requires forall k :: k in keys ==> k in leaves
    ensures FirstFault(keys, leaves).None? <==> forall k :: k in keys ==> LeafFault(k, leaves[k]).None?
  {
    if keys == [] {
    } else {
      var init, last := keys[..|keys| - 1], keys[|keys| - 1];
      assert keys == init + [last];
      NoFaultMeaning(init, leaves);
    }
  }

  lemma {:induction false} EarlierFault(keys: seq<RootKey>, i: nat, leaves: Leaves)
    requires i <= |keys| && forall k :: k in keys ==> k in leaves
    requires FirstFault(keys[..i], leaves).Some?
    ensures FirstFault(keys, leaves) == FirstFault(keys[..i], leaves)
    decreases |keys|
  {
    if i == |keys| {
      assert keys[..i] == keys;
    } else {
      var init := keys[..|keys| - 1];
      assert init[..i] == keys[..i];
      EarlierFault(init, i, leaves);
    }
  }

  /** No leaf makes the source raise. */
  ghost predicate Faultless(leaves: Leaves) {
    forall k :: k in leaves ==> LeafFault(k, leaves[k]).None?
  }

  predicate BundleHolds(leaves: Leaves, sqrt: real -> real) {
    && HasAllLeaves(leaves)
    && (forall k :: k in leaves ==> leaves[k].IsCanonical())
    && (forall i :: 0 <= i < |ROOT_KEYS| ==> LeafHolds(ROOT_KEYS[i], leaves[ROOT_KEYS[i]], sqrt))
    && ParityBound(leaves) && ConversionBound(leaves)
  }

  /** What an error about a bundle says. */
  predicate IsBundleFlaw(leaves: Leaves, sqrt: real -> real, e: BundleError) {
    match e
    case SchemaRejected => !HasAllLeaves(leaves)
    case LeafFailed(k) => HasAllLeaves(leaves) && k in leaves && !LeafHolds(k, leaves[k], sqrt)
    case ParityBoundElsewhere => HasAllLeaves(leaves) && !ParityBound(leaves)
    case ConversionBoundElsewhere => HasAllLeaves(leaves) && !ConversionBound(leaves)
  }

  method Reverify(k: RootKey, leaf: Leaf, sqrt: real -> real) returns (r: Result<bool, BundleFault>)
    requires leaf.IsCanonical()
    ensures r.Failure? <==> LeafFault(k, leaf).Some?
    ensures r.Failure? ==> LeafFault(k, leaf) == Some(r.error)
    ensures r.Success? ==> (r.value <==> LeafHolds(k, leaf, sqrt))
  {
    match k {
      case ProcessorParityRoot =>
        if leaf.ParityLeaf? {
          var accepted, _ := VerifyReport(leaf.report, sqrt);
          return Success(accepted);
        }
        return Success(false);
      case ModelConversionRoot =>
        if leaf.ConversionLeaf? {
          var found := ModelConversion.VerifyEvidence(leaf.evidence, None, sqrt);
          if found.Failure? {
            return Failure(VerifierRaises(k));
          }
          return Success(found.value == []);
        }
        return Success(false);
      case _ =>
        return Success(true);
    }
  }

  /** One pass over the keys: derives every root and level, and re-verifies every leaf, unless an
      error is raised on the way. */
  method CheckLeaves(keys: seq<RootKey>, leaves: Leaves, sqrt: real -> real) returns (r: Result<BundleVerdict, BundleFault>)
    requires forall k :: k in keys ==> k in leaves
    ensures r.Failure? <==> FirstFault(keys, leaves).Some?
    ensures r.Failure? ==> FirstFault(keys, leaves) == Some(r.error)
    ensures r.Success? ==>
              forall k :: k in keys ==>
                && k in r.value.roots && r.value.roots[k] == HashOf(leaves[k])
                && k in r.value.levels && r.value.levels[k] == LevelOf(k)
    ensures r.Success? ==>
              forall e :: e in r.value.errors <==> e.LeafFailed? && e.key in keys && !LeafHolds(e.key, leaves[e.key], sqrt)
  {
    var roots: Roots, levels: map<RootKey, Level>, errors: seq<BundleError> := map[], map[], [];
    for i := 0 to |keys|
      invariant FirstFault(keys[..i], leaves).None?
      invariant forall k :: k in keys[..i] ==>
                  k in roots && k in levels && roots[k] == HashOf(leaves[k]) && levels[k] == LevelOf(k)
      invariant forall e :: e in errors <==>
                  e.LeafFailed? && e.key in keys[..i] && !LeafHolds(e.key, leaves[e.key], sqrt)
    {
      assert keys[..i + 1] == keys[..i] + [keys[i]] && keys[..i + 1][..i] == keys[..i];
      var name := keys[i];
      assert FirstFault(keys[..i + 1], leaves) == LeafFault(name, leaves[name]);
      if !leaves[name].IsCanonical() {
        EarlierFault(keys, i + 1, leaves);
        return Failure(NotCanonical(name));
      }
      roots := roots[name := HashOf(leaves[name])];
      levels := levels[name := LevelOf(name)];
      var holds := Reverify(name, leaves[name], sqrt);
      if holds.Failure? {
        EarlierFault(keys, i + 1, leaves);
        return Failure(holds.error);
      }
      if !holds.value {
        errors := errors + [LeafFailed(name)];
      }
    }
    assert keys[..|keys|] == keys;
    return Success(BundleVerdict(errors, roots, levels));
  }

  /** A bundle holds exactly when nothing is raised on it and nothing is wrong with it. */
  lemma HoldsIffFlawless(leaves: Leaves, sqrt: real -> real)
    ensures BundleHolds(leaves, sqrt) <==>
            HasAllLeaves(leaves) && Faultless(leaves) && forall e :: !IsBundleFlaw(leaves, sqrt, e)
  {
    if HasAllLeaves(leaves) && Faultless(leaves) && forall e :: !IsBundleFlaw(leaves, sqrt, e) {
      assert !IsBundleFlaw(leaves, sqrt, ParityBoundElsewhere) && !IsBundleFlaw(leaves, sqrt, ConversionBoundElsewhere);
      forall i | 0 <= i < |ROOT_KEYS|
        ensures LeafHolds(ROOT_KEYS[i], leaves[ROOT_KEYS[i]], sqrt)
      {
        assert !IsBundleFlaw(leaves, sqrt, LeafFailed(ROOT_KEYS[i]));
      }
      forall k | k in leaves
        ensures leaves[k].IsCanonical()
      {
        assert LeafFault(k, leaves[k]).None?;
      }
    }
    if BundleHolds(leaves, sqrt) {
      forall k | k in leaves
        ensures LeafFault(k, leaves[k]).None?
      {
        EveryKeyListed(k);
        HoldingLeafDoesNotRaise(k, leaves[k], sqrt);
      }
      forall e
        ensures !IsBundleFlaw(leaves, sqrt, e)
      {
        if e.LeafFailed? {
          EveryKeyListed(e.key);
        }
      }
    }
  }

  lemma HoldingLeafDoesNotRaise(k: RootKey, leaf: Leaf, sqrt: real -> real)
    requires leaf.IsCanonical() && LeafHolds(k, leaf, sqrt)
    ensures LeafFault(k, leaf).None?
  {
    if k.ModelConversionRoot? {
      ModelConversion.VerifiedDoesNotRaise(leaf.evidence, None, sqrt);
    }
  }

  lemma EveryRootPresent(leaves: Leaves)
    requires HasAllLeaves(leaves)
    ensures forall k: RootKey :: k in ROOT_KEYS && k in leaves
    ensures FirstFault(ROOT_KEYS, leaves).None? <==> Faultless(leaves)
  {
    forall k: RootKey
      ensures k in ROOT_KEYS && k in leaves
    {
      EveryKeyListed(k);
    }
    NoFaultMeaning(ROOT_KEYS, leaves);
  }

  /** The two cross-bindings between leaves. */
  method CrossBind(leaves: Leaves) returns (errors: seq<BundleError>)
    requires HasAllLeaves(leaves)
    ensures forall e :: e in errors <==>
              || (e == ParityBoundElsewhere && !ParityBound(leaves))
              || (e == ConversionBoundElsewhere && !ConversionBound(leaves))
  {
    errors := [];
    if !ParityBound(leaves) {
      errors := errors + [ParityBoundElsewhere];
    }
    if !ConversionBound(leaves) {
      errors := errors + [ConversionBoundElsewhere];
    }
  }

  lemma FlawsFound(leaves: Leaves, sqrt: real -> real, failed: seq<BundleError>, unbound: seq<BundleError>)
    requires HasAllLeaves(leaves) && Faultless(leaves)
    requires forall e :: e in failed <==> e.LeafFailed? && e.key in leaves && !LeafHolds(e.key, leaves[e.key], sqrt)
    requires forall e :: e in unbound <==>
               || (e == ParityBoundElsewhere && !ParityBound(leaves))
               || (e == ConversionBoundElsewhere && !ConversionBound(leaves))
    ensures forall e :: e in failed + unbound <==> IsBundleFlaw(leaves, sqrt, e)
    ensures failed + unbound == [] <==> BundleHolds(leaves, sqrt)
  {
    HoldsIffFlawless(leaves, sqrt);
    var all := failed + unbound;
    if all != [] {
      assert all[0] in all;
    }
  }

  /** `verify_certification_bundle`: it raises exactly when a leaf does, on the first such leaf;
      otherwise the errors are exactly the flaws, and every root is derived from its leaf rather
      than declared. */
  method VerifyBundle(leaves: Leaves, sqrt: real -> real) returns (r: Result<BundleVerdict, BundleFault>)
    ensures r.Failure? <==> HasAllLeaves(leaves) && !Faultless(leaves)
    ensures r.Failure? ==> (forall k: RootKey :: k in leaves) && FirstFault(ROOT_KEYS, leaves) == Some(r.error)
    ensures r.Success? && r.value.errors == [] <==> BundleHolds(leaves, sqrt)
    ensures r.Success? ==> forall e :: e in r.value.errors <==> IsBundleFlaw(leaves, sqrt, e)
    ensures r.Success? && HasAllLeaves(leaves) ==>
              forall k: RootKey ::
                && k in leaves && k in r.value.roots && r.value.roots[k] == HashOf(leaves[k])
                && k in r.value.levels && r.value.levels[k] == LevelOf(k)
  {
    HoldsIffFlawless(leaves, sqrt);
    if !HasAllLeaves(leaves) {
      return Success(BundleVerdict([SchemaRejected], map[], map[]));
    }
    EveryRootPresent(leaves);
    var checked := CheckLeaves(ROOT_KEYS, leaves, sqrt);
    if checked.Failure? {
      return checked;
    }
    var unbound := CrossBind(leaves);
    FlawsFound(leaves, sqrt, checked.value.errors, unbound);
    return Success(checked.value.(errors := checked.value.errors + unbound));
  }

  /** A parity report whose claim is true can still keep its bundle from being certified: the
      source raises on the leaf instead of hashing it. */
  lemma PassingReportWithoutRoot(leaves: Leaves, featureContract: Option<RootName>, sqrt: real -> real) returns (report: Report)
    ensures Verifies(report, sqrt) && report.grade == Certificate && report.parityVerified
    ensures LeafHolds(ProcessorParityRoot, ParityLeaf(report, featureContract), sqrt)
    ensures var bundle := leaves[ProcessorParityRoot := ParityLeaf(report, featureContract)];
            !Faultless(bundle) && !BundleHolds(bundle, sqrt)
  {
    report := ZeroReferenceReport(sqrt);
    var bundle := leaves[ProcessorParityRoot := ParityLeaf(report, featureContract)];
    assert LeafFault(ProcessorParityRoot, bundle[ProcessorParityRoot]) == Some(NotCanonical(ProcessorParityRoot));
  }

  /** Of the parity leaves with a true claim, exactly those whose every case has a signal can be
      hashed. */
  lemma ClaimedParityLeafCanonicalIff(report: Report, featureContract: Option<RootName>, sqrt: real -> real)
    requires Verifies(report, sqrt) && report.grade == Certificate && report.parityVerified
    ensures forall i :: 0 <= i < |report.cases| ==> report.cases[i].reference.Some? && report.cases[i].candidate.Some?
    ensures LeafFault(ProcessorParityRoot, ParityLeaf(report, featureContract)).None? <==>
            forall i :: 0 <= i < |report.cases| ==> HasSignal(report.cases[i].reference.value, report.cases[i].candidate.value)
  {
    ClaimedReportCanonicalIff(report, sqrt);
  }

  // ---------------------------------------------------------------- bindings and levels

  /** A key is on the reverified level exactly when its own verifier can reject a leaf. */
  lemma LevelMeaning(k: RootKey, sqrt: real -> real)
    ensures LevelOf(k).Reverified? <==> exists leaf: Leaf :: !LeafHolds(k, leaf, sqrt)
  {
    var other := ObjectLeaf("", true, None, None, None);
    assert k.ProcessorParityRoot? || k.ModelConversionRoot? ==> !LeafHolds(k, other, sqrt);
  }

  /** The first cross-binding, by the kind of the leaf: a parity report or any other object may name
      the feature contract, and must then name the one in the bundle. */
  lemma ParityBoundMeaning(leaves: Leaves)
    requires HasAllLeaves(leaves)
    ensures ProcessorParityRoot in leaves && FeatureContractRoot in leaves
    ensures ParityBound(leaves) <==>
            match leaves[ProcessorParityRoot]
            case ParityLeaf(_, named) => named.None? || named == Some(Names(HashOf(leaves[FeatureContractRoot])))
            case ConversionLeaf(_) => true
            case ObjectLeaf(_, _, named, _, _) => named.None? || named == Some(Names(HashOf(leaves[FeatureContractRoot])))
  {
    EveryKeyListed(ProcessorParityRoot);
    EveryKeyListed(FeatureContractRoot);
  }

  /** The second: where the artifact leaf names a model file and the conversion leaf does, under its
      artifact, they name the same. */
  lemma ConversionBoundMeaning(leaves: Leaves)
    requires HasAllLeaves(leaves)
    ensures ModelConversionRoot in leaves && ArtifactRoot in leaves
    ensures ConversionBound(leaves) <==>
            match (leaves[ModelConversionRoot], leaves[ArtifactRoot])
            case (ConversionLeaf(evidence), ObjectLeaf(_, _, _, _, file)) =>
              file.None? || file == Some(evidence.identity.aimodelSha)
            case (ObjectLeaf(_, _, _, converted, _), ObjectLeaf(_, _, _, _, file)) =>
              converted.None? || file.None? || converted == file
            case _ => true
  {
    EveryKeyListed(ModelConversionRoot);
    EveryKeyListed(ArtifactRoot);
  }

  /** Of the eleven leaves two have a verifier of their own. */
  lemma VerifiersOfLeaves(leaves: Leaves, sqrt: real -> real)
    requires HasAllLeaves(leaves)
    ensures ProcessorParityRoot in leaves && ModelConversionRoot in leaves
    ensures (forall i :: 0 <= i < |ROOT_KEYS| ==> LeafHolds(ROOT_KEYS[i], leaves[ROOT_KEYS[i]], sqrt)) <==>
            && LeafHolds(ProcessorParityRoot, leaves[ProcessorParityRoot], sqrt)
            && LeafHolds(ModelConversionRoot, leaves[ModelConversionRoot], sqrt)
  {
    EveryKeyListed(ProcessorParityRoot);
    EveryKeyListed(ModelConversionRoot);
    assert ROOT_KEYS[3] == ProcessorParityRoot && ROOT_KEYS[5] == ModelConversionRoot;
  }

  /** A bundle that holds, read off its leaves: all eleven are there and finite, the parity report and
      the conversion evidence verify, the report names the bundle's feature contract if any, and the
      artifact the converted model if any. */
  lemma BundleHoldsMeaning(leaves: Leaves, sqrt: real -> real)
    ensures BundleHolds(leaves, sqrt) <==>
            && (forall k: RootKey :: k in leaves && leaves[k].IsCanonical())
            && leaves[ProcessorParityRoot].ParityLeaf? && Verifies(leaves[ProcessorParityRoot].report, sqrt)
            && leaves[ModelConversionRoot].ConversionLeaf?
            && ModelConversion.Verifies(leaves[ModelConversionRoot].evidence, None, sqrt)
            && (leaves[ProcessorParityRoot].featureContract.Some? ==>
                  leaves[ProcessorParityRoot].featureContract.value == Names(HashOf(leaves[FeatureContractRoot])))
            && (leaves[ArtifactRoot].ObjectLeaf? && leaves[ArtifactRoot].aimodel.Some? ==>
                  leaves[ArtifactRoot].aimodel.value == leaves[ModelConversionRoot].evidence.identity.aimodelSha)
  {
    if HasAllLeaves(leaves) {
      EveryRootPresent(leaves);
      VerifiersOfLeaves(leaves, sqrt);
      ParityBoundMeaning(leaves);
      ConversionBoundMeaning(leaves);
    }
  }
}
