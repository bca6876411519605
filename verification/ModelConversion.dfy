/** Model-conversion evidence: an identity chain bound to a numeric parity block, and the
    offline verifier that re-derives the block from the persisted replay bundle. */
module ModelConversion {
  import opened Outcomes
  import opened NestedLists
  import opened ParityMetrics
  import opened ProcessorParity

  /** The identity chain from checkpoint to artifact, as far as the schema constrains it. */
  datatype Identity = Identity(
    repository: string, revision: string, weightsSha: string,
    exporterName: string, exporterBuild: string, exportConfigurationSha: string,
    aimodelSha: string, aimodelSchemaVersion: string, manifestSha: string)

  /** The schema's pattern for a content address; its end anchor lets one line feed follow. */
  predicate IsSha256(s: string) {
    && (|s| == 71 || (|s| == 72 && s[71] == '\n'))
    && s[..7] == "sha256:" && forall i :: 7 <= i < 71 ==> '0' <= s[i] <= '9' || 'a' <= s[i] <= 'f'
  }

  predicate IdentityValid(d: Identity) {
    && d.repository != "" && d.revision != "" && IsSha256(d.weightsSha)
    && d.exporterName != "" && d.exporterBuild != "" && IsSha256(d.exportConfigurationSha)
    && IsSha256(d.aimodelSha) && d.aimodelSchemaVersion != "" && IsSha256(d.manifestSha)
  }

  /** No text of a valid identity is empty, and its hashes are content addresses. */
  lemma IdentityMeaning(d: Identity)
    ensures IdentityValid(d) <==>
            && "" !in {d.repository, d.revision, d.exporterName, d.exporterBuild, d.aimodelSchemaVersion}
            && forall h :: h in {d.weightsSha, d.exportConfigurationSha, d.aimodelSha, d.manifestSha} ==> IsSha256(h)
  {
    assert IdentityValid(d) ==> forall h :: h in {d.weightsSha, d.exportConfigurationSha, d.aimodelSha, d.manifestSha} ==> IsSha256(h);
    if forall h :: h in {d.weightsSha, d.exportConfigurationSha, d.aimodelSha, d.manifestSha} ==> IsSha256(h) {
      assert IsSha256(d.weightsSha) && IsSha256(d.exportConfigurationSha) && IsSha256(d.aimodelSha) && IsSha256(d.manifestSha);
    }
  }

  datatype Bundle = Bundle(referenceInputs: Option<Array>, referenceOutputs: Array, candidateOutputs: Array)

  datatype ParityBlock = ParityBlock(
    inputsHash: Option<Digest>, referenceHash: Digest, candidateHash: Digest,
    tolerance: Thresholds, metrics: Metrics, passed: bool)

  datatype Evidence = Evidence(
    grade: Grade, bundle: Option<Bundle>, identity: Identity, parity: ParityBlock,
    conversionVerified: bool, parityVerified: bool)

  /** What the source raises instead of answering. */
  datatype ConversionError = BadEvidenceGrade | MissingTolerance | NotCanonical | SchemaViolation

  // ---------------------------------------------------------------- parity and hashes

  datatype ParityResult = ParityResult(metrics: Metrics, passed: bool, reasons: seq<Reason>)

  /** `_parity`: an empty tolerance is an error, not a verdict. */
  function Parity(reference: Array, candidate: Array, tolerance: Thresholds, sqrt: real -> real): Result<ParityResult, ConversionError> {
    if tolerance == [] then Failure(MissingTolerance)
    else
      var m := ComputeMetrics(reference, candidate, sqrt);
      var reasons := BasicReasons(m) + GateReasons(m, tolerance);
      Success(ParityResult(m, reasons == [], reasons))
  }

  predicate HasNonFiniteLeaf(v: Array) {
    NonFiniteCount(Floats(Flatten(v))) != 0
  }

  /** The strict hash of the inputs refuses non-finite floats. */
  function InputsHash(inputs: Option<Array>): Result<Option<Digest>, ConversionError> {
    if inputs.None? then Success(None)
    else if HasNonFiniteLeaf(inputs.value) then Failure(NotCanonical)
    else Success(Some(ArrayHash(inputs.value)))
  }

  /** The inputs hash to their digest when every leaf is finite, and cannot be hashed otherwise. */
  lemma InputsHashMeaning(inputs: Array)
    ensures InputsHash(Some(inputs)) == if AllFinite(inputs) then Success(Some(ArrayHash(inputs))) else Failure(NotCanonical)
    ensures InputsHash(None) == Success(None)
  {
    AllFiniteCount(inputs);
  }

  /** A content address is the name of the hash and sixty-four lower-case hexadecimal digits, with
      or without a line feed at the end. */
  lemma Sha256Meaning(s: string)
    ensures IsSha256(s) <==>
            exists digits :: |digits| == 64 && (s == "sha256:" + digits || s == "sha256:" + digits + "\n")
                             && forall i :: 0 <= i < 64 ==> IsHexDigit(digits[i])
  {
    if IsSha256(s) {
      var digits := s[7..71];
      assert s[..71] == "sha256:" + digits;
      assert s == s[..71] || s == s[..71] + "\n";
      forall i | 0 <= i < 64
        ensures IsHexDigit(digits[i])
      {
        assert digits[i] == s[i + 7];
        HexDigitAt(digits[i]);
      }
    }
    if digits :| |digits| == 64 && (s == "sha256:" + digits || s == "sha256:" + digits + "\n")
                 && forall i :: 0 <= i < 64 ==> IsHexDigit(digits[i]) {
      assert s[..71] == "sha256:" + digits;
      forall i | 7 <= i < 71
        ensures '0' <= s[i] <= '9' || 'a' <= s[i] <= 'f'
      {
        assert s[i] == s[..71][i] == digits[i - 7] && IsHexDigit(digits[i - 7]);
        HexDigitAt(s[i]);
      }
    }
  }

  predicate IsHexDigit(c: char) {
    c in {'0', '1', '2', '3', '4', '5', '6', '7', '8', '9', 'a', 'b', 'c', 'd', 'e', 'f'}
  }

  lemma HexDigitAt(c: char)
    ensures IsHexDigit(c) <==> '0' <= c <= '9' || 'a' <= c <= 'f'
  {
    var n := c as int;
    assert '0' <= c <= '9' ==> n - 48 in {0, 1, 2, 3, 4, 5, 6, 7, 8, 9} && c == (48 + (n - 48)) as char;
  }

  // ---------------------------------------------------------------- builder

  function BuildEvidence(identity: Identity, reference: Array, candidate: Array, tolerance: Thresholds,
                         inputs: Option<Array>, grade: Grade, sqrt: real -> real): Result<Evidence, ConversionError>
  {
    if grade.UnknownGrade? then Failure(BadEvidenceGrade)
    else
      var certificate := grade == Certificate;
      var p :- Parity(reference, candidate, tolerance, sqrt);
      var inputsHash :- InputsHash(inputs);
      if !IdentityValid(identity) then Failure(SchemaViolation)
      else
        Success(Evidence(
                  grade,
                  if certificate then Some(Bundle(inputs, reference, candidate)) else None,
                  identity,
                  ParityBlock(inputsHash, ArrayHash(reference), ArrayHash(candidate), tolerance, p.metrics, p.passed),
                  p.passed && certificate,
                  p.passed))
  }

  // ---------------------------------------------------------------- verifier

  datatype EvidenceError =
    | SchemaRejected
    | ParityClaimInconsistent
    | ConversionClaimInconsistent
    | ReferenceHashMismatch
    | CandidateHashMismatch
    | MetricsForged
    | VerdictForged
    | BundleMissing
    | InputsHashMismatch

  predicate ReplayHolds(block: ParityBlock, reference: Array, candidate: Array, sqrt: real -> real) {
    && ArrayHash(reference) == block.referenceHash && ArrayHash(candidate) == block.candidateHash
    && var p := Parity(reference, candidate, block.tolerance, sqrt);
       p.Success? && p.value.metrics == block.metrics && p.value.passed == block.passed
  }

  predicate ClaimsConsistent(e: Evidence) {
    e.parityVerified == e.parity.passed && e.conversionVerified == (e.parity.passed && e.grade == Certificate)
  }

  /** What acceptance amounts to; `external` are the arrays a caller may supply as well. */
  predicate Verifies(e: Evidence, external: Option<(Array, Array)>, sqrt: real -> real) {
    && !e.grade.UnknownGrade? && IdentityValid(e.identity) && ClaimsConsistent(e)
    && (e.grade == Certificate ==> BundleVerifies(e, sqrt))
    && (external.Some? ==> ReplayHolds(e.parity, external.value.0, external.value.1, sqrt))
  }

  /** What an error of the replay says. */
  predicate IsReplayFlaw(block: ParityBlock, reference: Array, candidate: Array, sqrt: real -> real, e: EvidenceError) {
    var p := Parity(reference, candidate, block.tolerance, sqrt);
    match e
    case ReferenceHashMismatch => ArrayHash(reference) != block.referenceHash
    case CandidateHashMismatch => ArrayHash(candidate) != block.candidateHash
    case MetricsForged => p.Success? && p.value.metrics != block.metrics
    case VerdictForged => p.Success? && p.value.passed != block.passed
    case _ => false
  }

  /** The comparison of the recorded block with what its replay came to. */
  method CompareBlock(block: ParityBlock, referenceHash: Digest, candidateHash: Digest, metrics: Metrics, passed: bool)
    returns (errors: seq<EvidenceError>)
    ensures errors == [] <==>
            && referenceHash == block.referenceHash && candidateHash == block.candidateHash
            && metrics == block.metrics && passed == block.passed
    ensures forall e :: e in errors <==>
              || (e == ReferenceHashMismatch && referenceHash != block.referenceHash)
              || (e == CandidateHashMismatch && candidateHash != block.candidateHash)
              || (e == MetricsForged && metrics != block.metrics)
              || (e == VerdictForged && passed != block.passed)
  {
    errors := [];
    if referenceHash != block.referenceHash {
      errors := errors + [ReferenceHashMismatch];
    }
    if candidateHash != block.candidateHash {
      errors := errors + [CandidateHashMismatch];
    }
    if metrics != block.metrics {
      errors := errors + [MetricsForged];
    }
    if passed != block.passed {
      errors := errors + [VerdictForged];
    }
  }

  method Replay(block: ParityBlock, reference: Array, candidate: Array, sqrt: real -> real)
    returns (r: Result<seq<EvidenceError>, ConversionError>)
    ensures r.Failure? <==> block.tolerance == []
    ensures r == Success([]) <==> ReplayHolds(block, reference, candidate, sqrt)
    ensures r.Success? ==> forall e :: e in r.value <==> IsReplayFlaw(block, reference, candidate, sqrt, e)
  {
    var p := Parity(reference, candidate, block.tolerance, sqrt);
    if p.Failure? {
      return Failure(p.error);
    }
    var errors := CompareBlock(block, ArrayHash(reference), ArrayHash(candidate), p.value.metrics, p.value.passed);
    return Success(errors);
  }

  /** What an error about the claims says. */
  predicate IsClaimFlaw(e: Evidence, err: EvidenceError) {
    match err
    case ParityClaimInconsistent => e.parityVerified != e.parity.passed
    case ConversionClaimInconsistent => e.conversionVerified != (e.parity.passed && e.grade == Certificate)
    case _ => false
  }

  /** What an error about the bundle of certificate-grade evidence says. */
  predicate IsBundleFlaw(e: Evidence, sqrt: real -> real, err: EvidenceError) {
    match err
    case BundleMissing => e.bundle.None?
    case InputsHashMismatch => e.bundle.Some? && InputsHash(e.bundle.value.referenceInputs) != Success(e.parity.inputsHash)
    case _ => e.bundle.Some? && IsReplayFlaw(e.parity, e.bundle.value.referenceOutputs, e.bundle.value.candidateOutputs, sqrt, err)
  }

  /** What an error of the verifier says. */
  predicate IsEvidenceFlaw(e: Evidence, external: Option<(Array, Array)>, sqrt: real -> real, err: EvidenceError) {
    if e.grade.UnknownGrade? || !IdentityValid(e.identity) then err == SchemaRejected
    else
      || IsClaimFlaw(e, err)
      || (e.grade == Certificate && IsBundleFlaw(e, sqrt, err))
      || (external.Some? && IsReplayFlaw(e.parity, external.value.0, external.value.1, sqrt, err))
  }

  predicate BundleVerifies(e: Evidence, sqrt: real -> real) {
    && e.bundle.Some?
    && ReplayHolds(e.parity, e.bundle.value.referenceOutputs, e.bundle.value.candidateOutputs, sqrt)
    && InputsHash(e.bundle.value.referenceInputs) == Success(e.parity.inputsHash)
  }

  /** When the verifier raises instead of answering: a replay without tolerance, or inputs that
      have no canonical hash. */
  predicate Raises(e: Evidence, external: Option<(Array, Array)>) {
    && !e.grade.UnknownGrade? && IdentityValid(e.identity)
    && (|| (e.grade == Certificate && e.bundle.Some?
            && (e.parity.tolerance == [] || InputsHash(e.bundle.value.referenceInputs).Failure?))
        || (external.Some? && e.parity.tolerance == []))
  }

  lemma VerifiedDoesNotRaise(e: Evidence, external: Option<(Array, Array)>, sqrt: real -> real)
    requires Verifies(e, external, sqrt)
    ensures !Raises(e, external)
  {
  }

  method CheckClaims(e: Evidence) returns (errors: seq<EvidenceError>)
    ensures errors == [] <==> ClaimsConsistent(e)
    ensures forall err :: err in errors <==> IsClaimFlaw(e, err)
  {
    errors := [];
    if e.parityVerified != e.parity.passed {
      errors := errors + [ParityClaimInconsistent];
    }
    if e.conversionVerified != (e.parity.passed && e.grade == Certificate) {
      errors := errors + [ConversionClaimInconsistent];
    }
  }

  method CheckBundle(e: Evidence, sqrt: real -> real) returns (r: Result<seq<EvidenceError>, ConversionError>)
    ensures r == Success([]) <==> BundleVerifies(e, sqrt)
    ensures r.Failure? <==> e.bundle.Some? && (e.parity.tolerance == [] || InputsHash(e.bundle.value.referenceInputs).Failure?)
    ensures r.Success? ==> forall err :: err in r.value <==> IsBundleFlaw(e, sqrt, err)
  {
    if e.bundle.None? {
      return Success([BundleMissing]);
    }
    var found := Replay(e.parity, e.bundle.value.referenceOutputs, e.bundle.value.candidateOutputs, sqrt);
    if found.Failure? {
      return found;
    }
    var errors := found.value;
    assert found == Success(errors);
    var recomputed := InputsHash(e.bundle.value.referenceInputs);
    if recomputed.Failure? {
      return Failure(recomputed.error);
    }
    if recomputed.value != e.parity.inputsHash {
      errors := errors + [InputsHashMismatch];
    }
    return Success(errors);
  }

  /** `verify_model_conversion_evidence`: accepted means no error was raised or collected, and
      those collected are exactly the flaws. */
  method VerifyEvidence(e: Evidence, external: Option<(Array, Array)>, sqrt: real -> real)
    returns (r: Result<seq<EvidenceError>, ConversionError>)
    ensures r == Success([]) <==> Verifies(e, external, sqrt)
    ensures r.Success? ==> forall err :: err in r.value <==> IsEvidenceFlaw(e, external, sqrt, err)
    ensures r.Failure? <==> Raises(e, external)
  {
    if e.grade.UnknownGrade? || !IdentityValid(e.identity) {
      return Success([SchemaRejected]);
    }
    var errors := CheckClaims(e);
    if e.grade == Certificate {
      var found := CheckBundle(e, sqrt);
      if found.Failure? {
        return found;
      }
      assert found == Success(found.value);
      errors := errors + found.value;
    }
    assert errors == [] <==> ClaimsConsistent(e) && (e.grade == Certificate ==> BundleVerifies(e, sqrt));
    if external.Some? {
      var found := Replay(e.parity, external.value.0, external.value.1, sqrt);
      if found.Failure? {
        return found;
      }
      assert found == Success(found.value);
      errors := errors + found.value;
    }
    return Success(errors);
  }

  // ---------------------------------------------------------------- the two-way theorem

  /** Passing within a tolerance is meeting it leaf by leaf. */
  lemma ParityPassedMeets(reference: Array, candidate: Array, tolerance: Thresholds, sqrt: real -> real)
    requires tolerance != []
    ensures Parity(reference, candidate, tolerance, sqrt).Success?
    ensures Parity(reference, candidate, tolerance, sqrt).value.passed <==>
            Meets(reference, candidate, NumericMode, tolerance, sqrt)
  {
    PassingMeansMeeting(reference, candidate, NumericMode, tolerance, sqrt);
  }

  /** Certificate-grade evidence verifies if and only if it is exactly what the builder makes
      from its own replay bundle; in particular every built record verifies. */
  lemma EvidenceVerifiesIffRebuilt(e: Evidence, sqrt: real -> real)
    requires e.grade == Certificate
    ensures Verifies(e, None, sqrt) <==>
            && e.bundle.Some?
            && BuildEvidence(e.identity, e.bundle.value.referenceOutputs, e.bundle.value.candidateOutputs,
                             e.parity.tolerance, e.bundle.value.referenceInputs, Certificate, sqrt) == Success(e)
  {
  }

  /** Completeness in every grade, also against the arrays the record was built from. */
  lemma BuiltEvidenceVerifies(identity: Identity, reference: Array, candidate: Array, tolerance: Thresholds,
                              inputs: Option<Array>, grade: Grade, sqrt: real -> real)
    requires BuildEvidence(identity, reference, candidate, tolerance, inputs, grade, sqrt).Success?
    ensures Verifies(BuildEvidence(identity, reference, candidate, tolerance, inputs, grade, sqrt).value,
                     Some((reference, candidate)), sqrt)
  {
  }

  /** Soundness: an accepted record that claims a verified conversion has a complete identity
      chain and persisted outputs that meet its tolerance; arrays supplied from outside can
      only be those same outputs. */
  lemma VerifiedConversionIsTrue(e: Evidence, external: Option<(Array, Array)>, sqrt: real -> real)
    requires Verifies(e, external, sqrt) && e.conversionVerified
    ensures e.grade == Certificate && e.bundle.Some? && IdentityValid(e.identity) && e.parity.tolerance != []
    ensures Meets(e.bundle.value.referenceOutputs, e.bundle.value.candidateOutputs, NumericMode, e.parity.tolerance, sqrt)
    ensures external.Some? ==> external.value == (e.bundle.value.referenceOutputs, e.bundle.value.candidateOutputs)
  {
    var b := e.bundle.value;
    ParityPassedMeets(b.referenceOutputs, b.candidateOutputs, e.parity.tolerance, sqrt);
    if external.Some? {
      HashDeterminesArray(external.value.0, b.referenceOutputs);
      HashDeterminesArray(external.value.1, b.candidateOutputs);
    }
  }
}
