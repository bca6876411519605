/** Which parity reports and conversion evidence have a canonical content hash. The hash refuses
    non-finite floats, and a metric can be infinite although its case passes. */
module CanonicalEvidence {
  import opened Outcomes
  import opened NestedLists
  import opened Numbers
  import opened RealArithmetic
  import opened ParityMetrics
  import opened ProcessorParity
  import ModelConversion

  predicate MetricsCanonical(m: Metrics) {
    m.maxAbsError.Fin? && m.meanAbsError.Fin? && m.relativeMae.Fin?
  }

  predicate ArrayCanonical(v: Option<Array>) {
    v.Some? ==> !ModelConversion.HasNonFiniteLeaf(v.value)
  }

  predicate ReportCanonical(r: Report) {
    forall i :: 0 <= i < |r.cases| ==>
      && MetricsCanonical(r.cases[i].metrics)
      && ArrayCanonical(r.cases[i].reference) && ArrayCanonical(r.cases[i].candidate)
  }

  predicate EvidenceCanonical(e: ModelConversion.Evidence) {
    && MetricsCanonical(e.parity.metrics)
    && (e.bundle.Some? ==>
          && ArrayCanonical(e.bundle.value.referenceInputs)
          && ArrayCanonical(Some(e.bundle.value.referenceOutputs))
          && ArrayCanonical(Some(e.bundle.value.candidateOutputs)))
  }

  /** The float stands somewhere in the array. */
  predicate ArrayHolds(v: Option<Array>, n: Number) {
    v.Some? && FloatNum(n) in Flatten(v.value)
  }

  predicate MetricsHold(m: Metrics, n: Number) {
    n == m.maxAbsError || n == m.meanAbsError || n == m.relativeMae || n == Fin(m.cosineSimilarity)
  }

  /** The float stands somewhere in the report, and in the evidence. */
  ghost predicate ReportHolds(r: Report, n: Number) {
    exists i :: 0 <= i < |r.cases| &&
      (MetricsHold(r.cases[i].metrics, n) || ArrayHolds(r.cases[i].reference, n) || ArrayHolds(r.cases[i].candidate, n))
  }

  predicate EvidenceHolds(e: ModelConversion.Evidence, n: Number) {
    || MetricsHold(e.parity.metrics, n)
    || (e.bundle.Some?
        && (|| ArrayHolds(e.bundle.value.referenceInputs, n)
            || ArrayHolds(Some(e.bundle.value.referenceOutputs), n)
            || ArrayHolds(Some(e.bundle.value.candidateOutputs), n)))
  }

  lemma ArrayCanonicalMeaning(v: Option<Array>)
    ensures ArrayCanonical(v) <==> forall n :: ArrayHolds(v, n) ==> n.Fin?
  {
    if v.Some? {
      var leaves := Flatten(v.value);
      NoNonFinite(Floats(leaves));
      if !ArrayCanonical(v) {
        var i :| 0 <= i < |leaves| && !ToFloat(leaves[i]).Fin?;
        assert leaves[i] == FloatNum(ToFloat(leaves[i]));
        assert ArrayHolds(v, ToFloat(leaves[i]));
      }
      forall n | ArrayCanonical(v) && ArrayHolds(v, n)
        ensures n.Fin?
      {
        var i :| 0 <= i < |leaves| && leaves[i] == FloatNum(n);
        assert ToFloat(leaves[i]).Fin?;
      }
    }
  }

  lemma MetricsCanonicalMeaning(m: Metrics)
    ensures MetricsCanonical(m) <==> forall n :: MetricsHold(m, n) ==> n.Fin?
  {
    assert MetricsHold(m, m.maxAbsError) && MetricsHold(m, m.meanAbsError) && MetricsHold(m, m.relativeMae);
  }

  /** A report can be hashed exactly when every float that stands anywhere in it is finite. */
  lemma ReportCanonicalMeaning(r: Report)
    ensures ReportCanonical(r) <==> forall n :: ReportHolds(r, n) ==> n.Fin?
  {
    forall i | 0 <= i < |r.cases|
      ensures MetricsCanonical(r.cases[i].metrics) <==> forall n :: MetricsHold(r.cases[i].metrics, n) ==> n.Fin?
      ensures ArrayCanonical(r.cases[i].reference) <==> forall n :: ArrayHolds(r.cases[i].reference, n) ==> n.Fin?
      ensures ArrayCanonical(r.cases[i].candidate) <==> forall n :: ArrayHolds(r.cases[i].candidate, n) ==> n.Fin?
    {
      MetricsCanonicalMeaning(r.cases[i].metrics);
      ArrayCanonicalMeaning(r.cases[i].reference);
      ArrayCanonicalMeaning(r.cases[i].candidate);
    }
    if !ReportCanonical(r) {
      var i :| 0 <= i < |r.cases| && !(MetricsCanonical(r.cases[i].metrics) && ArrayCanonical(r.cases[i].reference)
                                       && ArrayCanonical(r.cases[i].candidate));
      var n: Number :| !n.Fin? && (MetricsHold(r.cases[i].metrics, n) || ArrayHolds(r.cases[i].reference, n)
                                   || ArrayHolds(r.cases[i].candidate, n));
      assert ReportHolds(r, n);
    }
  }

  lemma EvidenceCanonicalMeaning(e: ModelConversion.Evidence)
    ensures EvidenceCanonical(e) <==> forall n :: EvidenceHolds(e, n) ==> n.Fin?
  {
    MetricsCanonicalMeaning(e.parity.metrics);
    if e.bundle.Some? {
      ArrayCanonicalMeaning(e.bundle.value.referenceInputs);
      ArrayCanonicalMeaning(Some(e.bundle.value.referenceOutputs));
      ArrayCanonicalMeaning(Some(e.bundle.value.candidateOutputs));
    }
  }

  // ---------------------------------------------------------------- the relative error

  /** The relative error has something to divide by, or nothing to divide. */
  predicate HasSignal(reference: Array, candidate: Array) {
    var a := Values(reference);
    a == Values(candidate) || exists i :: 0 <= i < |a| && a[i] != 0.0
  }

  /** A sum of nonnegative numbers is positive exactly when one of them is, and so is the mean. */
  lemma PositiveMean(xs: seq<real>)
    requires xs != [] && forall i :: 0 <= i < |xs| ==> xs[i] >= 0.0
    ensures Over(Sum(xs), |xs| as real) >= 0.0
    ensures Over(Sum(xs), |xs| as real) > 0.0 <==> exists i :: 0 <= i < |xs| && xs[i] != 0.0
  {
    var n := |xs| as real;
    SumVanishes(xs);
    OverTimes(Sum(xs), n);
    assert Times(0.0, n) == 0.0;
    Unscale(0.0, Over(Sum(xs), n), n);
    if Sum(xs) == 0.0 {
      Unscale(Over(Sum(xs), n), 0.0, n);
    }
  }

  lemma DiffsVanish(a: seq<real>, b: seq<real>)
    requires |a| == |b|
    ensures (exists i :: 0 <= i < |a| && Diffs(a, b)[i] != 0.0) <==> a != b
  {
    var d := Diffs(a, b);
    if a != b {
      var i :| 0 <= i < |a| && a[i] != b[i];
      assert d[i] != 0.0;
    }
  }

  lemma AbsolutesVanish(a: seq<real>)
    ensures (exists i :: 0 <= i < |a| && Absolutes(a)[i] != 0.0) <==> exists i :: 0 <= i < |a| && a[i] != 0.0
    ensures forall i :: 0 <= i < |a| ==> Absolutes(a)[i] >= 0.0
  {
    assert forall i :: 0 <= i < |a| ==> (Absolutes(a)[i] != 0.0 <==> a[i] != 0.0);
  }

  /** The metrics of two comparable finite arrays are finite exactly when the reference has a
      leaf other than zero, or the arrays agree. */
  lemma FiniteMetricsIff(a: Array, b: Array, sqrt: real -> real)
    requires ParityMetrics.Comparable(a, b) && AllFinite(a) && AllFinite(b)
    ensures MetricsCanonical(ComputeMetrics(a, b, sqrt)) <==> HasSignal(a, b)
  {
    var x, y := Values(a), Values(b);
    NumericMetrics(a, b, sqrt);
    RelativeError(a, b, sqrt);
    if x != [] {
      PositiveMean(Absolutes(x));
      PositiveMean(Diffs(x, y));
      AbsolutesVanish(x);
      DiffsVanish(x, y);
    }
  }

  lemma RelativeError(a: Array, b: Array, sqrt: real -> real)
    requires ParityMetrics.Comparable(a, b) && AllFinite(a) && AllFinite(b)
    ensures |Values(a)| == |Values(b)|
    ensures ComputeMetrics(a, b, sqrt).relativeMae.Fin? <==>
            Values(a) != [] ==>
              Over(Sum(Absolutes(Values(a))), |Values(a)| as real) > 0.0 || MeanError(Values(a), Values(b)) == 0.0
  {
    ShapeMatchMeaning(a, b, sqrt);
    AllFiniteCount(a);
    AllFiniteCount(b);
  }

  // ---------------------------------------------------------------- reports and evidence

  /** A true claim does not make a report canonical: it is exactly when every case has a signal. */
  lemma ClaimedReportCanonicalIff(r: Report, sqrt: real -> real)
    requires ProcessorParity.Verifies(r, sqrt) && r.grade == Certificate && r.parityVerified
    ensures forall i :: 0 <= i < |r.cases| ==> r.cases[i].reference.Some? && r.cases[i].candidate.Some?
    ensures ReportCanonical(r) <==>
            forall i :: 0 <= i < |r.cases| ==> HasSignal(r.cases[i].reference.value, r.cases[i].candidate.value)
  {
    VerifiedClaimIsTrue(r, sqrt);
    forall i | 0 <= i < |r.cases|
      ensures !ModelConversion.HasNonFiniteLeaf(r.cases[i].reference.value)
      ensures !ModelConversion.HasNonFiniteLeaf(r.cases[i].candidate.value)
      ensures MetricsCanonical(r.cases[i].metrics) <==> HasSignal(r.cases[i].reference.value, r.cases[i].candidate.value)
    {
      var c := r.cases[i];
      assert CaseHolds(c, true, sqrt);
      AllFiniteCount(c.reference.value);
      AllFiniteCount(c.candidate.value);
      FiniteMetricsIff(c.reference.value, c.candidate.value, sqrt);
    }
  }

  /** The same for conversion evidence. */
  lemma ClaimedEvidenceCanonicalIff(e: ModelConversion.Evidence, sqrt: real -> real)
    requires ModelConversion.Verifies(e, None, sqrt) && e.conversionVerified
    ensures e.bundle.Some?
    ensures EvidenceCanonical(e) <==> HasSignal(e.bundle.value.referenceOutputs, e.bundle.value.candidateOutputs)
  {
    ModelConversion.VerifiedConversionIsTrue(e, None, sqrt);
    var b := e.bundle.value;
    AllFiniteCount(b.referenceOutputs);
    AllFiniteCount(b.candidateOutputs);
    FiniteMetricsIff(b.referenceOutputs, b.candidateOutputs, sqrt);
  }

  // ---------------------------------------------------------------- a passing report without a hash

  function Single(x: real): Array {
    List([Leaf(FloatNum(Fin(x)))])
  }

  lemma SingleValues(x: real)
    ensures Values(Single(x)) == [x] && AllFinite(Single(x)) && HasShape(Single(x), [1])
  {
    var leaves := [FloatNum(Fin(x))];
    var items: seq<Array> := [Leaf(leaves[0])];
    assert Single(x) == List(items) && items[1..] == [];
    assert FlattenAll(items) == Flatten(items[0]) + FlattenAll(items[1..]);
    assert Flatten(items[0]) == leaves && FlattenAll(items[1..]) == [];
    assert Flatten(Single(x)) == leaves;
    assert Floats(leaves) == [Fin(x)];
    assert Reals([Fin(x)]) == [x];
  }

  lemma SinglesComparable(x: real, y: real)
    ensures ParityMetrics.Comparable(Single(x), Single(y))
  {
    SingleValues(x);
    SingleValues(y);
    var s: Shape := [1];
    assert HasShape(Single(x), s) && HasShape(Single(y), s) && Tight(s);
  }

  /** One case: a candidate of 0.001 against a reference of zero, within 0.01. */
  function ZeroReferenceCase(): ParityCase {
    ParityCase("observation:state@environment_raw.v1", "environment_raw.v1", "environment_raw.v1", NumericMode,
               Single(0.0), Single(0.001), [("max_abs_error", 0.01)])
  }

  lemma ZeroReferencePasses(sqrt: real -> real)
    ensures var c := ZeroReferenceCase();
            && Evaluate(c.reference, c.candidate, c.mode, c.thresholds, sqrt).passed
            && !HasSignal(c.reference, c.candidate)
  {
    var c := ZeroReferenceCase();
    SingleValues(0.0);
    SingleValues(0.001);
    SinglesComparable(0.0, 0.001);
    NumericMetrics(c.reference, c.candidate, sqrt);
    MaxErrorPointwise([0.0], [0.001], 0.01);
    assert c.thresholds[0] == ("max_abs_error", 0.01) && |c.thresholds| == 1;
    var m := ComputeMetrics(c.reference, c.candidate, sqrt);
    assert m.maxAbsError == Fin(MaxError([0.0], [0.001]));
    assert GateHolds(m, "max_abs_error", 0.01);
    GatesMeaning(m, c.thresholds);
    ShapeMatchMeaning(c.reference, c.candidate, sqrt);
    AllFiniteCount(c.reference);
    AllFiniteCount(c.candidate);
  }

  /** A certificate-grade report that the builder makes, the verifier accepts, and whose claim is
      true, but which has no canonical hash. */
  lemma ZeroReferenceReport(sqrt: real -> real) returns (r: Report)
    ensures BuildReport([ZeroReferenceCase()], Certificate, sqrt) == Success(r)
    ensures ProcessorParity.Verifies(r, sqrt) && r.grade == Certificate && r.parityVerified
    ensures !ReportCanonical(r)
  {
    var cases := [ZeroReferenceCase()];
    ZeroReferencePasses(sqrt);
    assert cases[0].mode == NumericMode;
    assert EvaluateCase(cases[0], true, sqrt).Success?;
    assert BuildReport(cases, Certificate, sqrt).Success?;
    r := BuildReport(cases, Certificate, sqrt).value;
    assert |r.cases| == 1 && EvaluateCase(cases[0], true, sqrt) == Success(r.cases[0]);
    BuiltReportsVerify(cases, Certificate, sqrt);
    assert r.cases[0].passed;
    ClaimedReportCanonicalIff(r, sqrt);
    assert !HasSignal(r.cases[0].reference.value, r.cases[0].candidate.value);
  }
}
