/** Parity reports: a builder, and an offline verifier that replays the persisted arrays. */
module ProcessorParity {
  import opened Outcomes
  import opened NestedLists
  import opened Numbers
  import opened RealArithmetic
  import opened ParityMetrics

  // ---------------------------------------------------------------- content hashes

  /** A leaf as it enters the canonical bytes: non-finite floats become sentinel strings. */
  datatype HashLeaf = IntJson(integer: int) | FloatJson(value: real) | Sentinel(text: string)

  /** A content hash, kept symbolic: equal hashes are hashes of equal bytes. */
  datatype Digest = Sha256(content: Nested<HashLeaf>)

  function SanitizeLeaf(leaf: ArrayLeaf): HashLeaf {
    match leaf
    case IntNum(i) => IntJson(i)
    case FloatNum(Fin(x)) => FloatJson(x)
    case FloatNum(PosInf) => Sentinel("__inf__")
    case FloatNum(NegInf) => Sentinel("__ninf__")
    case FloatNum(NaN) => Sentinel("__nan__")
  }

  function Sanitize(v: Array): Nested<HashLeaf> {
    match v
    case Leaf(x) => Leaf(SanitizeLeaf(x))
    case List(items) => List(seq(|items|, i requires 0 <= i < |items| => Sanitize(items[i])))
  }

  function ArrayHash(v: Array): Digest {
    Sha256(Sanitize(v))
  }

  /** The sentinels keep distinct arrays apart. */
  lemma {:induction false} HashDeterminesArray(a: Array, b: Array)
    ensures ArrayHash(a) == ArrayHash(b) <==> a == b
    decreases a
  {
    if a.Leaf? && b.Leaf? {
      SentinelsDiffer();
    } else if a.List? && b.List? && Sanitize(a) == Sanitize(b) {
      forall i | 0 <= i < |a.items|
        ensures a.items[i] == b.items[i]
      {
        assert Sanitize(a).items[i] == Sanitize(b).items[i];
        HashDeterminesArray(a.items[i], b.items[i]);
      }
    }
  }

  lemma SentinelsDiffer()
    ensures "__inf__" != "__ninf__" && "__inf__" != "__nan__" && "__ninf__" != "__nan__"
  {
    assert "__inf__"[2] != "__ninf__"[2];
    assert |"__ninf__"| != |"__nan__"|;
  }

  // ---------------------------------------------------------------- evaluating one case

  datatype Mode = Exact | NumericMode | UnknownMode(name: string)

  /** Explicit gates by metric name, in their order. */
  type Thresholds = seq<(string, real)>

  datatype Reason =
    | NonFinitePresent
    | ShapesDiffer
    | HashMismatch
    | NoThresholds
    | CosineBelow(limit: real)
    | UnknownThreshold(key: string)
    | Exceeds(key: string, limit: real)

  datatype Evaluation =
    Evaluation(metrics: Metrics, referenceHash: Digest, candidateHash: Digest, passed: bool, reasons: seq<Reason>)

  /** The metric a threshold names; a flag counts as one or zero. */
  function MetricNamed(m: Metrics, key: string): Option<Number> {
    if key == "max_abs_error" then Some(m.maxAbsError)
    else if key == "mean_abs_error" then Some(m.meanAbsError)
    else if key == "relative_mae" then Some(m.relativeMae)
    else if key == "cosine_similarity" then Some(Fin(m.cosineSimilarity))
    else if key == "count" then Some(Fin(m.count as real))
    else if key == "nonfinite_ref" then Some(Fin(m.nonfiniteRef as real))
    else if key == "nonfinite_cand" then Some(Fin(m.nonfiniteCand as real))
    else if key == "shape_match" then Some(Fin(if m.shapeMatch then 1.0 else 0.0))
    else None
  }

  /** One gate of a numeric case: a lower bound on cosine similarity, else an upper bound. */
  predicate GateHolds(m: Metrics, key: string, limit: real) {
    if key == "min_cosine_similarity" then m.cosineSimilarity >= limit
    else MetricNamed(m, key).Some? && !Less(Fin(limit), MetricNamed(m, key).value)
  }

  function GateReason(m: Metrics, key: string, limit: real): seq<Reason> {
    if GateHolds(m, key, limit) then []
    else if key == "min_cosine_similarity" then [CosineBelow(limit)]
    else if MetricNamed(m, key).None? then [UnknownThreshold(key)]
    else [Exceeds(key, limit)]
  }

  function GateReasons(m: Metrics, thresholds: Thresholds): seq<Reason> {
    if thresholds == [] then []
    else
      var last := thresholds[|thresholds| - 1];
      GateReasons(m, thresholds[..|thresholds| - 1]) + GateReason(m, last.0, last.1)
  }

  function BasicReasons(m: Metrics): seq<Reason> {
    (if m.nonfiniteRef != 0 || m.nonfiniteCand != 0 then [NonFinitePresent] else [])
    + (if !m.shapeMatch then [ShapesDiffer] else [])
  }

  function ThresholdReasons(m: Metrics, thresholds: Thresholds): seq<Reason> {
    if thresholds == [] then [NoThresholds] else GateReasons(m, thresholds)
  }

  function Evaluate(reference: Array, candidate: Array, mode: Mode, thresholds: Thresholds, sqrt: real -> real): Evaluation {
    var m := ComputeMetrics(reference, candidate, sqrt);
    var reasons :=
      if mode == Exact then BasicReasons(m) + if ArrayHash(reference) != ArrayHash(candidate) then [HashMismatch] else []
      else BasicReasons(m) + ThresholdReasons(m, thresholds);
    Evaluation(m, ArrayHash(reference), ArrayHash(candidate), reasons == [], reasons)
  }

  /** The explicit gates, appending to the reasons found so far. */
  method CheckThresholds(m: Metrics, thresholds: Thresholds, before: seq<Reason>) returns (reasons: seq<Reason>)
    ensures reasons == before + ThresholdReasons(m, thresholds)
  {
    reasons := before;
    if thresholds == [] {
      reasons := reasons + [NoThresholds];
    }
    ghost var start := reasons;
    for i := 0 to |thresholds|
      invariant reasons == start + GateReasons(m, thresholds[..i])
    {
      assert thresholds[..i + 1][..i] == thresholds[..i];
      var (key, limit) := thresholds[i];
      if key == "min_cosine_similarity" {
        if m.cosineSimilarity < limit {
          reasons := reasons + [CosineBelow(limit)];
        }
      } else {
        var value := MetricNamed(m, key);
        if value.None? {
          reasons := reasons + [UnknownThreshold(key)];
        } else if Less(Fin(limit), value.value) {
          reasons := reasons + [Exceeds(key, limit)];
        }
      }
    }
    assert thresholds[..|thresholds|] == thresholds;
  }

  method CheckBasics(m: Metrics) returns (reasons: seq<Reason>)
    ensures reasons == BasicReasons(m)
  {
    reasons := [];
    if m.nonfiniteRef != 0 || m.nonfiniteCand != 0 {
      reasons := reasons + [NonFinitePresent];
    }
    if !m.shapeMatch {
      reasons := reasons + [ShapesDiffer];
    }
  }

  /** `_evaluate_arrays`, gathering its reasons in order. */
  method EvaluateArrays(reference: Array, candidate: Array, mode: Mode, thresholds: Thresholds, sqrt: real -> real)
    returns (e: Evaluation)
    ensures e == Evaluate(reference, candidate, mode, thresholds, sqrt)
  {
    var m := ComputeMetrics(reference, candidate, sqrt);
    var reasons := CheckBasics(m);
    var refHash, candHash := ArrayHash(reference), ArrayHash(candidate);
    if mode == Exact {
      if refHash != candHash {
        reasons := reasons + [HashMismatch];
      }
    } else {
      reasons := CheckThresholds(m, thresholds, reasons);
    }
    e := Evaluation(m, refHash, candHash, reasons == [], reasons);
  }

  lemma {:induction false} GatesMeaning(m: Metrics, thresholds: Thresholds)
    ensures GateReasons(m, thresholds) == [] <==>
            forall i :: 0 <= i < |thresholds| ==> GateHolds(m, thresholds[i].0, thresholds[i].1)
  {
    if thresholds == [] {
    } else {
      var init := thresholds[..|thresholds| - 1];
      GatesMeaning(m, init);
      assert forall i :: 0 <= i < |init| ==> init[i] == thresholds[i];
    }
  }

  // ---------------------------------------------------------------- what passing means

  /** A gate in terms of the leaves themselves, for finite arrays of one shape. */
  ghost predicate LeavesMeet(a: seq<real>, b: seq<real>, key: string, limit: real, sqrt: real -> real)
    requires |a| == |b|
  {
    if key == "max_abs_error" then 0.0 <= limit && forall i :: 0 <= i < |a| ==> -limit <= a[i] - b[i] <= limit
    else if key == "mean_abs_error" then 0.0 <= limit && Sum(Diffs(a, b)) <= Times(limit, |a| as real)
    else if key == "relative_mae" then RelativeWithin(a, b, limit)
    else if key == "min_cosine_similarity" then if a == [] then limit <= 1.0 else CosineAtLeast(a, b, limit, sqrt)
    else if key == "cosine_similarity" then if a == [] then 1.0 <= limit else CosineAtMost(a, b, limit, sqrt)
    else if key == "count" then |a| as real <= limit
    else if key == "nonfinite_ref" || key == "nonfinite_cand" then 0.0 <= limit
    else if key == "shape_match" then 1.0 <= limit
    else false
  }

  /** What a passing case promises about its two arrays: finite, of one shape, and equal to
      the last leaf in exact mode or inside every explicit gate in numeric mode. */
  ghost predicate Meets(reference: Array, candidate: Array, mode: Mode, thresholds: Thresholds, sqrt: real -> real) {
    && Comparable(reference, candidate) && AllFinite(reference) && AllFinite(candidate)
    && |Values(reference)| == |Values(candidate)|
    && if mode == Exact then reference == candidate
       else
         && thresholds != []
         && (forall i :: 0 <= i < |thresholds| ==>
               LeavesMeet(Values(reference), Values(candidate), thresholds[i].0, thresholds[i].1, sqrt))
  }

  /** A gate on the metrics holds exactly when it holds on the leaves. */
  lemma GateOnLeaves(a: Array, b: Array, key: string, limit: real, sqrt: real -> real)
    requires Comparable(a, b) && AllFinite(a) && AllFinite(b) && |Values(a)| == |Values(b)|
    ensures GateHolds(ComputeMetrics(a, b, sqrt), key, limit) <==> LeavesMeet(Values(a), Values(b), key, limit, sqrt)
  {
    var x, y := Values(a), Values(b);
    NumericMetrics(a, b, sqrt);
    PlainMetrics(a, b, sqrt);
    if key == "relative_mae" {
      RelativeMeaning(a, b, limit, sqrt);
    } else if x != [] {
      if key == "max_abs_error" {
        MaxErrorGate(x, y, limit);
      } else if key == "mean_abs_error" {
        MeanErrorGate(x, y, limit);
      } else if key == "min_cosine_similarity" || key == "cosine_similarity" {
        CosineOfMetrics(a, b, sqrt);
        CosineMeaning(x, y, limit, sqrt);
      }
    }
  }

  lemma MaxErrorGate(x: seq<real>, y: seq<real>, limit: real)
    requires |x| == |y| && x != []
    ensures MaxError(x, y) <= limit <==> 0.0 <= limit && forall i :: 0 <= i < |x| ==> -limit <= x[i] - y[i] <= limit
  {
    MaxErrorPointwise(x, y, limit);
    assert Abs(x[0] - y[0]) >= 0.0;
  }

  lemma MeanErrorGate(x: seq<real>, y: seq<real>, limit: real)
    requires |x| == |y| && x != []
    ensures MeanError(x, y) <= limit <==> 0.0 <= limit && Sum(Diffs(x, y)) <= Times(limit, |x| as real)
  {
    MeanAndMaxError(x, y);
    QuotientWithin(Sum(Diffs(x, y)), |x| as real, limit);
  }

  /** The metrics of finite comparable arrays that need no arithmetic. */
  lemma PlainMetrics(a: Array, b: Array, sqrt: real -> real)
    requires Comparable(a, b) && AllFinite(a) && AllFinite(b)
    ensures var m := ComputeMetrics(a, b, sqrt);
            && m.count == |Values(a)| && m.nonfiniteRef == 0 && m.nonfiniteCand == 0 && m.shapeMatch
            && (Values(a) == [] ==> m.cosineSimilarity == 1.0)
  {
    ShapeMatchMeaning(a, b, sqrt);
    AllFiniteCount(a);
    AllFiniteCount(b);
  }

  lemma CosineOfMetrics(a: Array, b: Array, sqrt: real -> real)
    requires Comparable(a, b) && AllFinite(a) && AllFinite(b) && |Values(a)| == |Values(b)| && Values(a) != []
    ensures ComputeMetrics(a, b, sqrt).cosineSimilarity == Cosine(Values(a), Values(b), sqrt)
  {
    ShapeMatchMeaning(a, b, sqrt);
    AllFiniteCount(a);
    AllFiniteCount(b);
  }

  /** An evaluation passes exactly when its arrays meet the case. */
  lemma PassingMeansMeeting(reference: Array, candidate: Array, mode: Mode, thresholds: Thresholds, sqrt: real -> real)
    ensures Evaluate(reference, candidate, mode, thresholds, sqrt).passed <==>
            Meets(reference, candidate, mode, thresholds, sqrt)
  {
    var m := ComputeMetrics(reference, candidate, sqrt);
    ShapeMatchMeaning(reference, candidate, sqrt);
    AllFiniteCount(reference);
    AllFiniteCount(candidate);
    HashDeterminesArray(reference, candidate);
    GatesMeaning(m, thresholds);
    if BasicReasons(m) == [] {
      NumericMetrics(reference, candidate, sqrt);
      forall i | 0 <= i < |thresholds|
        ensures GateHolds(m, thresholds[i].0, thresholds[i].1) <==>
                LeavesMeet(Values(reference), Values(candidate), thresholds[i].0, thresholds[i].1, sqrt)
      {
        GateOnLeaves(reference, candidate, thresholds[i].0, thresholds[i].1, sqrt);
      }
    }
  }

  // ---------------------------------------------------------------- reports

  datatype ParityCase = ParityCase(
    featureId: string, sourceStage: string, targetStage: string, mode: Mode,
    reference: Array, candidate: Array, thresholds: Thresholds)

  datatype CaseRecord = CaseRecord(
    featureId: string, sourceStage: string, targetStage: string, mode: Mode,
    metrics: Metrics, thresholds: Thresholds,
    referenceHash: Digest, candidateHash: Digest,
    passed: bool, reasons: seq<Reason>,
    reference: Option<Array>, candidate: Option<Array>)

  datatype Grade = Diagnostic | Certificate | UnknownGrade(name: string)

  datatype Report = Report(grade: Grade, cases: seq<CaseRecord>, passed: bool, parityVerified: bool)

  datatype BuildError = BadMode | BadGrade

  function EvaluateCase(c: ParityCase, includeArrays: bool, sqrt: real -> real): Result<CaseRecord, BuildError> {
    if c.mode.UnknownMode? then Failure(BadMode)
    else
      var e := Evaluate(c.reference, c.candidate, c.mode, c.thresholds, sqrt);
      Success(CaseRecord(c.featureId, c.sourceStage, c.targetStage, c.mode, e.metrics, c.thresholds,
                         e.referenceHash, e.candidateHash, e.passed, e.reasons,
                         if includeArrays then Some(c.reference) else None,
                         if includeArrays then Some(c.candidate) else None))
  }

  predicate AllPassed(cases: seq<CaseRecord>) {
    cases != [] && forall i :: 0 <= i < |cases| ==> cases[i].passed
  }

  function BuildReport(cases: seq<ParityCase>, grade: Grade, sqrt: real -> real): Result<Report, BuildError> {
    if grade.UnknownGrade? then Failure(BadGrade)
    else
      var evaluated :- Collect(seq(|cases|, i requires 0 <= i < |cases| => EvaluateCase(cases[i], grade == Certificate, sqrt)));
      Success(Report(grade, evaluated, AllPassed(evaluated), AllPassed(evaluated)))
  }

  datatype VerifyError =
    | SchemaInvalid
    | VerdictUnlikeReasons(id: string)
    | ArraysMissing(id: string)
    | ReferenceTampered(id: string)
    | CandidateTampered(id: string)
    | MetricsTampered(id: string)
    | VerdictTampered(id: string)
    | TopLevelInconsistent
    | ClaimInconsistent

  /** The closed enums of the report schema. */
  predicate SchemaValid(r: Report) {
    !r.grade.UnknownGrade? && forall i :: 0 <= i < |r.cases| ==> !r.cases[i].mode.UnknownMode?
  }

  /** A case record that survives the verifier. */
  predicate CaseHolds(c: CaseRecord, certificate: bool, sqrt: real -> real) {
    && c.passed == (c.reasons == [])
    && (certificate ==>
          && c.reference.Some? && c.candidate.Some?
          && var e := Evaluate(c.reference.value, c.candidate.value, c.mode, c.thresholds, sqrt);
             && e.referenceHash == c.referenceHash && e.candidateHash == c.candidateHash
             && e.metrics == c.metrics && e.passed == c.passed)
  }

  predicate Verifies(r: Report, sqrt: real -> real) {
    && SchemaValid(r)
    && (forall i :: 0 <= i < |r.cases| ==> CaseHolds(r.cases[i], r.grade == Certificate, sqrt))
    && r.passed == AllPassed(r.cases)
    && r.parityVerified == r.passed
  }

  /** The comparison of a record with its replay. */
  method CompareReplay(c: CaseRecord, replay: Evaluation) returns (errors: seq<VerifyError>)
    ensures forall e :: e in errors <==>
              || (e == ReferenceTampered(c.featureId) && replay.referenceHash != c.referenceHash)
              || (e == CandidateTampered(c.featureId) && replay.candidateHash != c.candidateHash)
              || (e == MetricsTampered(c.featureId) && replay.metrics != c.metrics)
              || (e == VerdictTampered(c.featureId) && replay.passed != c.passed)
    ensures errors == [] <==>
            && replay.referenceHash == c.referenceHash && replay.candidateHash == c.candidateHash
            && replay.metrics == c.metrics && replay.passed == c.passed
  {
    errors := [];
    if replay.referenceHash != c.referenceHash {
      errors := errors + [ReferenceTampered(c.featureId)];
    }
    if replay.candidateHash != c.candidateHash {
      errors := errors + [CandidateTampered(c.featureId)];
    }
    if replay.metrics != c.metrics {
      errors := errors + [MetricsTampered(c.featureId)];
    }
    if replay.passed != c.passed {
      errors := errors + [VerdictTampered(c.featureId)];
    }
  }

  /** What an error about one case says. */
  predicate IsCaseFlaw(c: CaseRecord, certificate: bool, sqrt: real -> real, e: VerifyError) {
    var replayed := certificate && c.reference.Some? && c.candidate.Some?;
    match e
    case VerdictUnlikeReasons(id) => id == c.featureId && c.passed != (c.reasons == [])
    case ArraysMissing(id) => id == c.featureId && certificate && (c.reference.None? || c.candidate.None?)
    case ReferenceTampered(id) => id == c.featureId && replayed && ArrayHash(c.reference.value) != c.referenceHash
    case CandidateTampered(id) => id == c.featureId && replayed && ArrayHash(c.candidate.value) != c.candidateHash
    case MetricsTampered(id) =>
      id == c.featureId && replayed && ComputeMetrics(c.reference.value, c.candidate.value, sqrt) != c.metrics
    case VerdictTampered(id) =>
      && id == c.featureId && replayed
      && Evaluate(c.reference.value, c.candidate.value, c.mode, c.thresholds, sqrt).passed != c.passed
    case _ => false
  }

  /** What an error of the verifier says about the report. */
  ghost predicate IsReportFlaw(r: Report, sqrt: real -> real, e: VerifyError) {
    match e
    case SchemaInvalid => !SchemaValid(r)
    case TopLevelInconsistent => SchemaValid(r) && r.passed != AllPassed(r.cases)
    case ClaimInconsistent => SchemaValid(r) && r.parityVerified != r.passed
    case _ => SchemaValid(r) && SomeCaseFlaw(r.cases, r.grade == Certificate, sqrt, e)
  }

  ghost predicate SomeCaseFlaw(cases: seq<CaseRecord>, certificate: bool, sqrt: real -> real, e: VerifyError) {
    exists i :: 0 <= i < |cases| && IsCaseFlaw(cases[i], certificate, sqrt, e)
  }

  method VerifyCase(c: CaseRecord, certificate: bool, sqrt: real -> real) returns (errors: seq<VerifyError>)
    ensures errors == [] <==> CaseHolds(c, certificate, sqrt)
    ensures forall e :: e in errors <==> IsCaseFlaw(c, certificate, sqrt, e)
  {
    errors := [];
    if c.passed != (c.reasons == []) {
      errors := errors + [VerdictUnlikeReasons(c.featureId)];
    }
    if !certificate {
      return;
    }
    if c.reference.None? || c.candidate.None? {
      errors := errors + [ArraysMissing(c.featureId)];
      return;
    }
    var replay := EvaluateArrays(c.reference.value, c.candidate.value, c.mode, c.thresholds, sqrt);
    var differing := CompareReplay(c, replay);
    errors := errors + differing;
  }

  /** The loop over the cases. */
  method VerifyCases(cases: seq<CaseRecord>, certificate: bool, sqrt: real -> real) returns (errors: seq<VerifyError>)
    ensures errors == [] <==> forall i :: 0 <= i < |cases| ==> CaseHolds(cases[i], certificate, sqrt)
    ensures forall e :: e in errors <==> SomeCaseFlaw(cases, certificate, sqrt, e)
  {
    errors := [];
    for i := 0 to |cases|
      invariant errors == [] <==> forall j :: 0 <= j < i ==> CaseHolds(cases[j], certificate, sqrt)
      invariant forall e :: e in errors <==> exists j :: 0 <= j < i && IsCaseFlaw(cases[j], certificate, sqrt, e)
    {
      var found := VerifyCase(cases[i], certificate, sqrt);
      errors := errors + found;
    }
  }

  /** `verify_processor_parity_report`: the errors are exactly the report's flaws. */
  method VerifyReport(r: Report, sqrt: real -> real) returns (ok: bool, errors: seq<VerifyError>)
    ensures ok <==> errors == []
    ensures ok <==> Verifies(r, sqrt)
    ensures forall e :: e in errors <==> IsReportFlaw(r, sqrt, e)
  {
    if !SchemaValid(r) {
      return false, [SchemaInvalid];
    }
    errors := VerifyCases(r.cases, r.grade == Certificate, sqrt);
    if r.passed != AllPassed(r.cases) {
      errors := errors + [TopLevelInconsistent];
    }
    if r.parityVerified != r.passed {
      errors := errors + [ClaimInconsistent];
    }
    ok := errors == [];
  }

  // ---------------------------------------------------------------- the two-way theorem

  /** Completeness: the verifier accepts every report the builder makes. */
  lemma BuiltReportsVerify(cases: seq<ParityCase>, grade: Grade, sqrt: real -> real)
    requires BuildReport(cases, grade, sqrt).Success?
    ensures Verifies(BuildReport(cases, grade, sqrt).value, sqrt)
  {
    var r := BuildReport(cases, grade, sqrt).value;
    forall i | 0 <= i < |r.cases|
      ensures CaseHolds(r.cases[i], grade == Certificate, sqrt) && !r.cases[i].mode.UnknownMode?
    {
      assert EvaluateCase(cases[i], grade == Certificate, sqrt) == Success(r.cases[i]);
    }
  }

  /** Soundness: a certificate-grade report that is accepted with its claim true has cases,
      and every case's persisted arrays meet its thresholds. */
  lemma VerifiedClaimIsTrue(r: Report, sqrt: real -> real)
    requires Verifies(r, sqrt) && r.grade == Certificate && r.parityVerified
    ensures r.cases != []
    ensures forall i :: 0 <= i < |r.cases| ==>
              && r.cases[i].reference.Some? && r.cases[i].candidate.Some?
              && Meets(r.cases[i].reference.value, r.cases[i].candidate.value, r.cases[i].mode, r.cases[i].thresholds, sqrt)
  {
    forall i | 0 <= i < |r.cases|
      ensures CaseHolds(r.cases[i], true, sqrt)
      ensures Meets(r.cases[i].reference.value, r.cases[i].candidate.value, r.cases[i].mode, r.cases[i].thresholds, sqrt)
    {
      var c := r.cases[i];
      PassingMeansMeeting(c.reference.value, c.candidate.value, c.mode, c.thresholds, sqrt);
    }
  }

  /** The case a record with arrays was made from. */
  function CaseOf(c: CaseRecord): ParityCase
    requires c.reference.Some? && c.candidate.Some?
  {
    ParityCase(c.featureId, c.sourceStage, c.targetStage, c.mode, c.reference.value, c.candidate.value, c.thresholds)
  }

  function CasesOf(cases: seq<CaseRecord>): seq<ParityCase>
    requires forall i :: 0 <= i < |cases| ==> cases[i].reference.Some? && cases[i].candidate.Some?
  {
    seq(|cases|, i requires 0 <= i < |cases| => CaseOf(cases[i]))
  }

  /** Two reports that differ at most in the wording of the reasons. */
  predicate SameUpToReasons(r: Report, q: Report) {
    && r.grade == q.grade && r.passed == q.passed && r.parityVerified == q.parityVerified && |r.cases| == |q.cases|
    && forall i :: 0 <= i < |r.cases| ==>
         && r.cases[i].(reasons := []) == q.cases[i].(reasons := [])
         && (r.cases[i].reasons == [] <==> q.cases[i].reasons == [])
  }

  predicate HasArrays(r: Report) {
    forall i :: 0 <= i < |r.cases| ==> r.cases[i].reference.Some? && r.cases[i].candidate.Some?
  }

  /** Replay is exact: a certificate-grade report verifies if and only if it is, but for the
      reason texts, the report the builder makes from the persisted arrays. */
  lemma VerifiesIffRebuilt(r: Report, sqrt: real -> real)
    requires r.grade == Certificate
    ensures Verifies(r, sqrt) <==>
            && HasArrays(r)
            && BuildReport(CasesOf(r.cases), Certificate, sqrt).Success?
            && SameUpToReasons(r, BuildReport(CasesOf(r.cases), Certificate, sqrt).value)
  {
    if Verifies(r, sqrt) {
      assert forall i :: 0 <= i < |r.cases| ==> CaseHolds(r.cases[i], true, sqrt);
      RebuildSucceeds(r, sqrt);
      var q := BuildReport(CasesOf(r.cases), Certificate, sqrt).value;
      BuiltReportsVerify(CasesOf(r.cases), Certificate, sqrt);
      RebuiltAgrees(r, q, sqrt);
    } else if HasArrays(r) && BuildReport(CasesOf(r.cases), Certificate, sqrt).Success? {
      var q := BuildReport(CasesOf(r.cases), Certificate, sqrt).value;
      BuiltReportsVerify(CasesOf(r.cases), Certificate, sqrt);
      if SameUpToReasons(r, q) {
        RebuiltVerifies(r, q, sqrt);
      }
    }
  }

  lemma RebuildSucceeds(r: Report, sqrt: real -> real)
    requires SchemaValid(r) && HasArrays(r)
    ensures BuildReport(CasesOf(r.cases), Certificate, sqrt).Success?
    ensures var q := BuildReport(CasesOf(r.cases), Certificate, sqrt).value;
            q.grade == Certificate && |q.cases| == |r.cases|
            && forall i :: 0 <= i < |r.cases| ==> EvaluateCase(CaseOf(r.cases[i]), true, sqrt) == Success(q.cases[i])
  {
    var cases := CasesOf(r.cases);
    assert forall i :: 0 <= i < |cases| ==> cases[i] == CaseOf(r.cases[i]) && EvaluateCase(cases[i], true, sqrt).Success?;
    var evaluated := seq(|cases|, i requires 0 <= i < |cases| => EvaluateCase(cases[i], Certificate == Certificate, sqrt));
    assert forall i :: 0 <= i < |cases| ==> evaluated[i] == EvaluateCase(CaseOf(r.cases[i]), true, sqrt);
  }

  lemma RebuiltVerifies(r: Report, q: Report, sqrt: real -> real)
    requires r.grade == Certificate && q.grade == Certificate && Verifies(q, sqrt) && SameUpToReasons(r, q)
    ensures Verifies(r, sqrt)
  {
    forall i | 0 <= i < |r.cases|
      ensures CaseHolds(r.cases[i], true, sqrt) && !r.cases[i].mode.UnknownMode?
      ensures r.cases[i].passed == q.cases[i].passed
    {
      var c, d := r.cases[i], q.cases[i];
      assert c.(reasons := []) == d.(reasons := []) && CaseHolds(d, true, sqrt);
      assert c == d.(reasons := c.reasons);
    }
  }

  lemma RebuiltAgrees(r: Report, q: Report, sqrt: real -> real)
    requires r.grade == Certificate && q.grade == Certificate && Verifies(r, sqrt) && Verifies(q, sqrt)
    requires |r.cases| == |q.cases|
    requires forall i :: 0 <= i < |r.cases| ==> r.cases[i].reference.Some? && r.cases[i].candidate.Some?
    requires forall i :: 0 <= i < |r.cases| ==> EvaluateCase(CaseOf(r.cases[i]), true, sqrt) == Success(q.cases[i])
    ensures SameUpToReasons(r, q)
  {
    forall i | 0 <= i < |r.cases|
      ensures r.cases[i].(reasons := []) == q.cases[i].(reasons := [])
      ensures r.cases[i].reasons == [] <==> q.cases[i].reasons == []
      ensures r.cases[i].passed == q.cases[i].passed
    {
      assert CaseHolds(r.cases[i], true, sqrt) && CaseHolds(q.cases[i], true, sqrt);
    }
    assert AllPassed(r.cases) == AllPassed(q.cases);
  }

  // ---------------------------------------------------------------- what a built report says

  /** The record of a case: its identification copied, its metrics and hashes those of the arrays,
      its verdict whether they meet the case, and the arrays themselves where they are kept. */
  ghost predicate Records(record: CaseRecord, c: ParityCase, keepsArrays: bool, sqrt: real -> real) {
    && record.featureId == c.featureId && record.sourceStage == c.sourceStage && record.targetStage == c.targetStage
    && record.mode == c.mode && record.thresholds == c.thresholds
    && record.metrics == ComputeMetrics(c.reference, c.candidate, sqrt)
    && record.referenceHash == ArrayHash(c.reference) && record.candidateHash == ArrayHash(c.candidate)
    && (record.passed <==> Meets(c.reference, c.candidate, c.mode, c.thresholds, sqrt))
    && (record.passed <==> record.reasons == [])
    && (if keepsArrays then record.reference == Some(c.reference) && record.candidate == Some(c.candidate)
        else record.reference.None? && record.candidate.None?)
  }

  ghost predicate CaseMeets(c: ParityCase, sqrt: real -> real) {
    Meets(c.reference, c.candidate, c.mode, c.thresholds, sqrt)
  }

  /** In every grade the report records its cases one by one, keeps their arrays exactly in
      certificate grade, and claims parity exactly when there are cases and all of them meet. */
  lemma BuiltReportMeaning(cases: seq<ParityCase>, grade: Grade, sqrt: real -> real)
    requires !grade.UnknownGrade? && forall i :: 0 <= i < |cases| ==> !cases[i].mode.UnknownMode?
    ensures BuildReport(cases, grade, sqrt).Success?
    ensures var r := BuildReport(cases, grade, sqrt).value;
            && r.grade == grade && |r.cases| == |cases|
            && (forall i :: 0 <= i < |cases| ==> Records(r.cases[i], cases[i], grade == Certificate, sqrt))
            && (r.passed <==> cases != [] && forall i :: 0 <= i < |cases| ==> CaseMeets(cases[i], sqrt))
            && (r.parityVerified <==> r.passed)
  {
    var r := BuildReport(cases, grade, sqrt).value;
    forall i | 0 <= i < |cases|
      ensures Records(r.cases[i], cases[i], grade == Certificate, sqrt)
    {
      var c := cases[i];
      assert EvaluateCase(c, grade == Certificate, sqrt) == Success(r.cases[i]);
      PassingMeansMeeting(c.reference, c.candidate, c.mode, c.thresholds, sqrt);
    }
    assert forall i :: 0 <= i < |cases| ==> (r.cases[i].passed <==> CaseMeets(cases[i], sqrt));
  }

  /** What the builder refuses: an unknown grade, and otherwise a case of an unknown mode. */
  lemma BuildRefuses(cases: seq<ParityCase>, grade: Grade, sqrt: real -> real)
    ensures BuildReport(cases, grade, sqrt) == Failure(BadGrade) <==> grade.UnknownGrade?
    ensures BuildReport(cases, grade, sqrt) == Failure(BadMode) <==>
            !grade.UnknownGrade? && exists i :: 0 <= i < |cases| && cases[i].mode.UnknownMode?
  {
    if !grade.UnknownGrade? {
      var made := seq(|cases|, i requires 0 <= i < |cases| => EvaluateCase(cases[i], grade == Certificate, sqrt));
      assert forall i :: 0 <= i < |cases| ==> (made[i] == Failure(BadMode) <==> cases[i].mode.UnknownMode?);
      assert forall i :: 0 <= i < |cases| ==> made[i].Failure? ==> made[i].error == BadMode;
    }
  }

  const GATE_KEYS: set<string> := {
    "max_abs_error", "mean_abs_error", "relative_mae", "cosine_similarity", "count", "nonfinite_ref", "nonfinite_cand",
    "shape_match"}

  lemma {:induction false} GateReasonsMembers(m: Metrics, thresholds: Thresholds, reason: Reason)
    ensures reason in GateReasons(m, thresholds) <==>
            exists i :: 0 <= i < |thresholds| && reason in GateReason(m, thresholds[i].0, thresholds[i].1)
  {
    if thresholds == [] {
    } else {
      var init := thresholds[..|thresholds| - 1];
      GateReasonsMembers(m, init, reason);
      assert forall i :: 0 <= i < |init| ==> init[i] == thresholds[i];
    }
  }

  lemma GateKeysAreNamed(m: Metrics, key: string)
    ensures MetricNamed(m, key).Some? <==> key in GATE_KEYS
  {
  }

  /** What each reason says, and that every one that can be said is given. */
  ghost predicate IsReason(reference: Array, candidate: Array, mode: Mode, thresholds: Thresholds, sqrt: real -> real, reason: Reason) {
    var m := ComputeMetrics(reference, candidate, sqrt);
    match reason
    case NonFinitePresent => !AllFinite(reference) || !AllFinite(candidate)
    case ShapesDiffer => !Comparable(reference, candidate)
    case HashMismatch => mode == Exact && reference != candidate
    case NoThresholds => mode != Exact && thresholds == []
    case _ =>
      mode != Exact && exists i :: 0 <= i < |thresholds| && IsGateReason(m, thresholds[i].0, thresholds[i].1, reason)
  }

  lemma ReasonsMeaning(reference: Array, candidate: Array, mode: Mode, thresholds: Thresholds, sqrt: real -> real, reason: Reason)
    ensures reason in Evaluate(reference, candidate, mode, thresholds, sqrt).reasons <==>
            IsReason(reference, candidate, mode, thresholds, sqrt, reason)
  {
    var m := ComputeMetrics(reference, candidate, sqrt);
    BasicReasonsMeaning(reference, candidate, sqrt, reason);
    HashDeterminesArray(reference, candidate);
    GateReasonsMeaning(m, thresholds, reason);
  }

  lemma BasicReasonsMeaning(reference: Array, candidate: Array, sqrt: real -> real, reason: Reason)
    ensures reason in BasicReasons(ComputeMetrics(reference, candidate, sqrt)) <==>
            || (reason == NonFinitePresent && !(AllFinite(reference) && AllFinite(candidate)))
            || (reason == ShapesDiffer && !Comparable(reference, candidate))
  {
    ShapeMatchMeaning(reference, candidate, sqrt);
    AllFiniteCount(reference);
    AllFiniteCount(candidate);
  }

  /** The metric of this name is above the limit. */
  predicate MetricAbove(m: Metrics, key: string, limit: real) {
    || (key == "max_abs_error" && Less(Fin(limit), m.maxAbsError))
    || (key == "mean_abs_error" && Less(Fin(limit), m.meanAbsError))
    || (key == "relative_mae" && Less(Fin(limit), m.relativeMae))
    || (key == "cosine_similarity" && limit < m.cosineSimilarity)
    || (key == "count" && limit < m.count as real)
    || (key == "nonfinite_ref" && limit < m.nonfiniteRef as real)
    || (key == "nonfinite_cand" && limit < m.nonfiniteCand as real)
    || (key == "shape_match" && (limit < 0.0 || (limit < 1.0 && m.shapeMatch)))
  }

  lemma AboveMeaning(m: Metrics, key: string, limit: real)
    ensures MetricAbove(m, key, limit) <==> MetricNamed(m, key).Some? && Less(Fin(limit), MetricNamed(m, key).value)
    ensures MetricAbove(m, key, limit) ==> key in GATE_KEYS && key != "min_cosine_similarity"
  {
  }

  /** What a reason for one gate says. */
  predicate IsGateReason(m: Metrics, key: string, limit: real, reason: Reason) {
    match reason
    case CosineBelow(l) => l == limit && key == "min_cosine_similarity" && m.cosineSimilarity < limit
    case UnknownThreshold(k) => k == key && key != "min_cosine_similarity" && key !in GATE_KEYS
    case Exceeds(k, l) => k == key && l == limit && MetricAbove(m, key, limit)
    case _ => false
  }

  lemma OneGateReason(m: Metrics, key: string, limit: real, reason: Reason)
    ensures reason in GateReason(m, key, limit) <==> IsGateReason(m, key, limit, reason)
  {
    GateKeysAreNamed(m, key);
    AboveMeaning(m, key, limit);
  }

  lemma GateReasonsMeaning(m: Metrics, thresholds: Thresholds, reason: Reason)
    ensures reason in GateReasons(m, thresholds) <==>
            exists i :: 0 <= i < |thresholds| && IsGateReason(m, thresholds[i].0, thresholds[i].1, reason)
  {
    GateReasonsMembers(m, thresholds, reason);
    forall i | 0 <= i < |thresholds|
      ensures reason in GateReason(m, thresholds[i].0, thresholds[i].1) <==>
              IsGateReason(m, thresholds[i].0, thresholds[i].1, reason)
    {
      OneGateReason(m, thresholds[i].0, thresholds[i].1, reason);
    }
  }
}
