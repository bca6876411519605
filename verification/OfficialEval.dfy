/** From a matrix of executor runs to an official-eval certificate and its offline verifier. */
module OfficialEval {
  import opened Outcomes
  import NestedLists
  import opened Numbers
  import ParityMetrics
  import ProcessorParity
  import opened CertificationBundle
  import opened ModelConversion
  import opened Sorting
  import opened Capabilities

  const REQUIRED_CASES: set<string> := {"single-b1", "native-b2", "native-b4", "split-b2", "split-b4"}

  // ---------------------------------------------------------------- the command line

  function AfterLastSlash(s: string): string {
    if s == "" then ""
    else if s[|s| - 1] == '/' then ""
    else AfterLastSlash(s[..|s| - 1]) + [s[|s| - 1]]
  }

  function JoinWithSpaces(words: seq<string>): string {
    if words == [] then "" else if |words| == 1 then words[0] else words[0] + " " + JoinWithSpaces(words[1..])
  }

  predicate Contains(text: string, part: string) {
    exists i :: 0 <= i <= |text| - |part| && OccursAt(text, part, i)
  }

  predicate OccursAt(text: string, part: string, i: nat)
    requires i + |part| <= |text|
  {
    text[i..i + |part|] == part
  }

  /** The argv invoked the public evaluation command, by script or by module. */
  predicate IsOfficialArgv(argv: seq<string>) {
    && argv != []
    && (AfterLastSlash(argv[0]) == "lerobot-eval"
        || (Contains(JoinWithSpaces(argv), "lerobot.scripts.lerobot_eval") && "-m" in argv))
  }

  /** An absolute path outside the temporary directories. */
  predicate IsInstalledPath(path: string) {
    && "/" <= path
    && !("/tmp/" <= path) && !("/private/tmp/" <= path) && !("/var/folders/" <= path) && !("/dev/shm/" <= path)
  }

  const SCRIPT := "lerobot-eval"
  const EVAL_MODULE := "lerobot.scripts.lerobot_eval"

  /** The text `part` occurs somewhere in `text`. */
  ghost predicate Occurs(text: string, part: string) {
    exists pre: string, post: string :: text == pre + part + post
  }

  /** The text ends in a slash and `name`. */
  ghost predicate EndsInPath(text: string, name: string) {
    exists pre: string :: text == pre + "/" + name
  }

  /** The public evaluation command: the script by its name or path, or the module with `-m`. */
  ghost predicate InvokesEvaluation(argv: seq<string>) {
    && argv != []
    && (argv[0] == SCRIPT || EndsInPath(argv[0], SCRIPT) || ("-m" in argv && Occurs(JoinWithSpaces(argv), EVAL_MODULE)))
  }

  /** The path is absolute and below none of the temporary directories. */
  ghost predicate IsOutsideTemporary(path: string) {
    && (exists rest: string :: path == "/" + rest)
    && forall rest: string ::
         path != "/tmp/" + rest && path != "/private/tmp/" + rest && path != "/var/folders/" + rest && path != "/dev/shm/" + rest
  }

  /** The words stand in order with one space between neighbours. */
  lemma {:induction false} JoinMeaning(a: seq<string>, b: seq<string>)
    requires b != []
    ensures |a| == 1 ==> JoinWithSpaces(a) == a[0]
    ensures a != [] ==> JoinWithSpaces(a + b) == JoinWithSpaces(a) + " " + JoinWithSpaces(b)
  {
    if a == [] {
    } else if |a| == 1 {
      assert (a + b)[1..] == b;
    } else {
      assert (a + b)[1..] == a[1..] + b;
      JoinMeaning(a[1..], b);
      assert JoinWithSpaces(a + b) == a[0] + " " + (JoinWithSpaces(a[1..]) + " " + JoinWithSpaces(b));
    }
  }

  lemma {:induction false} LastPartIs(s: string, name: string)
    requires '/' !in name
    ensures AfterLastSlash(s) == name <==> s == name || EndsInPath(s, name)
  {
    if s == "" {
    } else {
      var init, last := s[..|s| - 1], s[|s| - 1];
      assert s == init + [last];
      if last == '/' {
        SlashLast(s, name);
      } else if name == "" {
        assert AfterLastSlash(s) != "";
        PathEnds(s, name);
      } else {
        var stem := name[..|name| - 1];
        assert name == stem + [name[|name| - 1]];
        LastPartIs(init, stem);
        LastCharacter(init, last, stem, name[|name| - 1]);
      }
    }
  }

  /** A path ends as its last part does. */
  lemma PathEnds(s: string, name: string)
    ensures EndsInPath(s, name) ==> s != "" && s[|s| - 1] == if name == "" then '/' else name[|name| - 1]
  {
  }

  lemma SlashLast(s: string, name: string)
    requires s != "" && s[|s| - 1] == '/' && '/' !in name
    ensures name == "" <==> s == name || EndsInPath(s, name)
  {
    PathEnds(s, name);
    if name == "" {
      assert s == s[..|s| - 1] + "/" + name;
    }
  }

  lemma LastCharacter(init: string, c: char, stem: string, d: char)
    ensures (AfterLastSlash(init) + [c] == stem + [d]) <==> AfterLastSlash(init) == stem && c == d
    ensures (init + [c] == stem + [d]) <==> init == stem && c == d
    ensures EndsInPath(init + [c], stem + [d]) <==> EndsInPath(init, stem) && c == d
  {
    SameLast(AfterLastSlash(init), c, stem, d);
    SameLast(init, c, stem, d);
    if EndsInPath(init, stem) && c == d {
      var pre: string :| init == pre + "/" + stem;
      assert init + [c] == pre + "/" + (stem + [d]);
    }
    if pre: string :| init + [c] == pre + "/" + (stem + [d]) {
      assert pre + "/" + (stem + [d]) == (pre + "/" + stem) + [d];
      SameLast(init, c, pre + "/" + stem, d);
    }
  }

  lemma SameLast(a: string, c: char, b: string, d: char)
    ensures a + [c] == b + [d] <==> a == b && c == d
  {
    if a + [c] == b + [d] {
      assert (a + [c])[..|a|] == (b + [d])[..|b|];
      assert (a + [c])[|a|] == (b + [d])[|b|];
    }
  }

  lemma ContainsMeansOccurs(text: string, part: string)
    ensures Contains(text, part) <==> Occurs(text, part)
  {
    if Contains(text, part) {
      var i :| 0 <= i <= |text| - |part| && OccursAt(text, part, i);
      assert text == text[..i] + part + text[i + |part|..];
    }
    if pre: string, post: string :| text == pre + part + post {
      assert OccursAt(text, part, |pre|);
    }
  }

  /** The check of the command line accepts exactly the invocations of the public command. */
  lemma OfficialArgvIff(argv: seq<string>)
    ensures IsOfficialArgv(argv) <==> InvokesEvaluation(argv)
  {
    if argv != [] {
      ScriptHasNoSlash();
      LastPartIs(argv[0], SCRIPT);
      ContainsMeansOccurs(JoinWithSpaces(argv), EVAL_MODULE);
    }
  }

  lemma ScriptHasNoSlash()
    ensures '/' !in SCRIPT
  {
  }

  lemma PrefixIff(prefix: string, path: string)
    ensures prefix <= path <==> exists rest: string :: path == prefix + rest
  {
    if prefix <= path {
      assert path == prefix + path[|prefix|..];
    }
  }

  /** The check of the executable's path accepts exactly the absolute paths outside the temporary
      directories. */
  lemma InstalledPathIff(path: string)
    ensures IsInstalledPath(path) <==> IsOutsideTemporary(path)
  {
    PrefixIff("/", path);
    PrefixIff("/tmp/", path);
    PrefixIff("/private/tmp/", path);
    PrefixIff("/var/folders/", path);
    PrefixIff("/dev/shm/", path);
  }

  // ---------------------------------------------------------------- executor receipts

  datatype Resolved = Resolved(method_: string, realpath: string, distributionSha: string)

  datatype RunRecord = RunRecord(argv: seq<string>, exitCode: int, challengeEchoed: bool)

  /** The runs of a matrix with their case names, in order. */
  type CaseRuns = seq<(string, RunRecord)>

  /** Hashes and verdicts the executor derived from the outputs it observed. */
  datatype Observed = Observed(
    outputTreeSha: string, resolvedConfigSha: string, outputsValid: bool, outputManifestSha: string,
    replayPassed: bool, replayRootSha: string, verifiedCasesRootSha: string)

  /** The hash of a command line, symbolic and so injective. */
  datatype CommandHash = CommandOf(argv: seq<string>)

  datatype Receipt = Receipt(
    realSubprocess: bool, fakeExecutor: bool, resolved: Resolved, argv: seq<string>, commandSha: CommandHash,
    envInstantiated: bool, cases: seq<string>, exitCode: int, observed: Observed)

  function BuildReceipt(resolved: Resolved, run: RunRecord, cases: seq<string>, envInstantiated: bool, observed: Observed): Receipt {
    Receipt(true, false, resolved, run.argv, CommandOf(run.argv), envInstantiated && run.challengeEchoed, cases, run.exitCode, observed)
  }

  function CaseNames(runs: CaseRuns): (r: seq<string>)
    ensures |r| == |runs| && forall i :: 0 <= i < |r| ==> r[i] == runs[i].0
  {
    seq(|runs|, i requires 0 <= i < |runs| => runs[i].0)
  }

  predicate AllClean(runs: CaseRuns) {
    runs != [] && forall i :: 0 <= i < |runs| ==> runs[i].1.exitCode == 0
  }

  predicate AllEchoed(runs: CaseRuns) {
    runs != [] && forall i :: 0 <= i < |runs| ==> runs[i].1.challengeEchoed
  }

  /** One receipt for the matrix; its command line is the first run's. */
  function BuildMatrixReceipt(resolved: Resolved, runs: CaseRuns, observed: Observed): Receipt {
    var representative := if runs != [] then runs[0].1.argv else [];
    BuildReceipt(resolved, RunRecord(representative, if AllClean(runs) then 0 else 1, AllEchoed(runs)),
                 Sort(CaseNames(runs), StringAtMost), AllEchoed(runs), observed)
  }

  predicate HashesValid(resolved: Resolved, observed: Observed) {
    && IsSha256(resolved.distributionSha) && IsSha256(observed.outputTreeSha) && IsSha256(observed.resolvedConfigSha)
    && IsSha256(observed.outputManifestSha) && IsSha256(observed.replayRootSha) && IsSha256(observed.verifiedCasesRootSha)
  }

  predicate ReceiptSchemaValid(r: Receipt) {
    && r.resolved.method_ in {"console_script", "python_-m"} && r.resolved.realpath != ""
    && r.argv != [] && r.cases != [] && HashesValid(r.resolved, r.observed)
  }

  /** All six hashes of a receipt are content addresses, and nothing it must name is empty. */
  lemma ReceiptSchemaMeaning(r: Receipt)
    ensures ReceiptSchemaValid(r) <==>
            && (r.resolved.method_ == "console_script" || r.resolved.method_ == "python_-m")
            && |r.resolved.realpath| > 0 && |r.argv| > 0 && |r.cases| > 0
            && forall h :: h in HashesOf(r) ==> IsSha256(h)
  {
    if forall h :: h in HashesOf(r) ==> IsSha256(h) {
      assert r.resolved.distributionSha in HashesOf(r) && r.observed.outputTreeSha in HashesOf(r);
      assert r.observed.resolvedConfigSha in HashesOf(r) && r.observed.outputManifestSha in HashesOf(r);
      assert r.observed.replayRootSha in HashesOf(r) && r.observed.verifiedCasesRootSha in HashesOf(r);
    }
  }

  function HashesOf(r: Receipt): set<string> {
    {r.resolved.distributionSha, r.observed.outputTreeSha, r.observed.resolvedConfigSha, r.observed.outputManifestSha,
     r.observed.replayRootSha, r.observed.verifiedCasesRootSha}
  }

  datatype AuthorityError = SchemaError | NotCertificateGrade | BundleRefused

  function AsSet(cases: seq<string>): set<string> {
    set c | c in cases
  }

  datatype Namespace = Production | TestOnly

  /** A receipt that the authority has minted, with the namespace it stamps on it. */
  datatype VerifiedReceipt = VerifiedReceipt(receipt: Receipt, namespace_: Namespace)

  datatype ReceiptFlaw =
    | NotARealSubprocess | WrongEntrypoint | NotInstalled | EnvironmentMissing
    | CasesIncomplete | NonZeroExit | OutputsInvalid | ReplayFailed

  /** What each ground for refusing a receipt says. */
  predicate IsReceiptFlaw(r: Receipt, e: ReceiptFlaw) {
    match e
    case NotARealSubprocess => !r.realSubprocess || r.fakeExecutor
    case WrongEntrypoint => !IsOfficialArgv(r.argv)
    case NotInstalled => !IsInstalledPath(r.resolved.realpath)
    case EnvironmentMissing => !r.envInstantiated
    case CasesIncomplete => AsSet(r.cases) != REQUIRED_CASES
    case NonZeroExit => r.exitCode != 0
    case OutputsInvalid => !r.observed.outputsValid
    case ReplayFailed => !r.observed.replayPassed
  }

  predicate CertificateGrade(r: Receipt) {
    forall e: ReceiptFlaw :: !IsReceiptFlaw(r, e)
  }

  function MintReceipt(r: Receipt): Result<VerifiedReceipt, AuthorityError> {
    if !ReceiptSchemaValid(r) then Failure(SchemaError)
    else if !CertificateGrade(r) then Failure(NotCertificateGrade)
    else Success(VerifiedReceipt(r, TestOnly))
  }

  lemma GradeMeaning(r: Receipt)
    ensures CertificateGrade(r) <==>
            && r.realSubprocess && !r.fakeExecutor && IsOfficialArgv(r.argv) && IsInstalledPath(r.resolved.realpath)
            && r.envInstantiated && AsSet(r.cases) == REQUIRED_CASES && r.exitCode == 0
            && r.observed.outputsValid && r.observed.replayPassed
  {
    if CertificateGrade(r) {
      assert !IsReceiptFlaw(r, NotARealSubprocess) && !IsReceiptFlaw(r, WrongEntrypoint);
      assert !IsReceiptFlaw(r, NotInstalled) && !IsReceiptFlaw(r, EnvironmentMissing);
      assert !IsReceiptFlaw(r, CasesIncomplete) && !IsReceiptFlaw(r, NonZeroExit);
      assert !IsReceiptFlaw(r, OutputsInvalid) && !IsReceiptFlaw(r, ReplayFailed);
    }
  }

  /** What a single run must be for its receipt to be minted. */
  lemma SingleRunMinted(resolved: Resolved, run: RunRecord, cases: seq<string>, envInstantiated: bool, observed: Observed)
    ensures MintReceipt(BuildReceipt(resolved, run, cases, envInstantiated, observed)).Success? <==>
            && resolved.method_ in {"console_script", "python_-m"} && HashesValid(resolved, observed)
            && InvokesEvaluation(run.argv) && IsOutsideTemporary(resolved.realpath)
            && envInstantiated && run.challengeEchoed && run.exitCode == 0
            && (forall name :: name in cases <==> name in REQUIRED_CASES)
            && observed.outputsValid && observed.replayPassed
  {
    var r := BuildReceipt(resolved, run, cases, envInstantiated, observed);
    GradeMeaning(r);
    OfficialArgvIff(run.argv);
    InstalledPathIff(resolved.realpath);
    assert AsSet(cases) == REQUIRED_CASES <==> forall name :: name in cases <==> name in REQUIRED_CASES;
    assert cases == [] ==> AsSet(cases) == {};
    assert "single-b1" in REQUIRED_CASES;
  }

  /** The grounds that concern how the command was run. */
  method CollectRunFlaws(r: Receipt) returns (fails: seq<ReceiptFlaw>)
    ensures forall e :: e in fails <==>
              (e.NotARealSubprocess? || e.WrongEntrypoint? || e.NotInstalled? || e.EnvironmentMissing?) && IsReceiptFlaw(r, e)
  {
    fails := [];
    if !r.realSubprocess || r.fakeExecutor {
      fails := fails + [NotARealSubprocess];
    }
    if !IsOfficialArgv(r.argv) {
      fails := fails + [WrongEntrypoint];
    }
    if !IsInstalledPath(r.resolved.realpath) {
      fails := fails + [NotInstalled];
    }
    if !r.envInstantiated {
      fails := fails + [EnvironmentMissing];
    }
  }

  /** The grounds that concern what came of it. */
  method CollectResultFlaws(r: Receipt) returns (fails: seq<ReceiptFlaw>)
    ensures forall e :: e in fails <==>
              (e.CasesIncomplete? || e.NonZeroExit? || e.OutputsInvalid? || e.ReplayFailed?) && IsReceiptFlaw(r, e)
  {
    fails := [];
    if AsSet(r.cases) != REQUIRED_CASES {
      fails := fails + [CasesIncomplete];
    }
    if r.exitCode != 0 {
      fails := fails + [NonZeroExit];
    }
    if !r.observed.outputsValid {
      fails := fails + [OutputsInvalid];
    }
    if !r.observed.replayPassed {
      fails := fails + [ReplayFailed];
    }
  }

  /** `verify_official_eval_execution_receipt`: mints exactly the flawless schema-valid receipts,
      stamped as test-only. */
  method VerifyReceipt(r: Receipt) returns (minted: Result<VerifiedReceipt, AuthorityError>, fails: seq<ReceiptFlaw>)
    ensures minted == MintReceipt(r)
    ensures minted.Success? ==> minted.value.receipt == r && minted.value.namespace_ == TestOnly
    ensures minted.Success? <==>
            && ReceiptSchemaValid(r) && r.realSubprocess && !r.fakeExecutor
            && InvokesEvaluation(r.argv) && IsOutsideTemporary(r.resolved.realpath)
            && r.envInstantiated && AsSet(r.cases) == REQUIRED_CASES && r.exitCode == 0
            && r.observed.outputsValid && r.observed.replayPassed
    ensures ReceiptSchemaValid(r) ==> forall e :: e in fails <==> IsReceiptFlaw(r, e)
  {
    GradeMeaning(r);
    OfficialArgvIff(r.argv);
    InstalledPathIff(r.resolved.realpath);
    if !ReceiptSchemaValid(r) {
      return Failure(SchemaError), [];
    }
    var ofRun := CollectRunFlaws(r);
    var ofResult := CollectResultFlaws(r);
    fails := ofRun + ofResult;
    if fails != [] {
      assert fails[0] in fails;
      return Failure(NotCertificateGrade), fails;
    }
    return Success(VerifiedReceipt(r, TestOnly)), fails;
  }

  // ---------------------------------------------------------------- the certificate

  datatype EvidenceGrade = DiagnosticGrade | PromotedGrade

  datatype Checks = Checks(
    officialEntrypoint: bool, pluginRegistered: bool, allCasesPassed: bool, outputsValid: bool, replayPassed: bool)

  datatype Execution = Execution(
    argv: seq<string>, commandSha: CommandHash, resolvedConfigSha: string, exitCode: int, outputTreeSha: string)

  datatype Scope = Scope(lerobotVersion: Option<string>, distributionSha: Option<string>, environment: string, cases: seq<string>)

  datatype Certificate = Certificate(
    grade: EvidenceGrade, namespace_: Namespace, scope: Scope,
    inputs: map<RootKey, Option<LeafHash>>, execution: Execution, checks: Checks, certified: bool)

  predicate Gate(e: Execution, c: Checks, cases: seq<string>) {
    && IsOfficialArgv(e.argv) && AsSet(cases) == REQUIRED_CASES && e.exitCode == 0
    && c.officialEntrypoint && c.pluginRegistered && c.allCasesPassed && c.outputsValid && c.replayPassed
  }

  predicate RootsComplete(inputs: map<RootKey, Option<LeafHash>>) {
    forall i :: 0 <= i < |ROOT_KEYS| ==> ROOT_KEYS[i] in inputs && inputs[ROOT_KEYS[i]].Some?
  }

  /** `_assemble`: the entrypoint check is pinned to the argv, and only a promotion may turn
      the gate's verdict into the claim. */
  function Assemble(scope: Scope, inputs: map<RootKey, Option<LeafHash>>, e: Execution, checks: Checks,
                    promoted: bool, namespace_: Namespace): Certificate
  {
    var full := checks.(officialEntrypoint := IsOfficialArgv(e.argv));
    Certificate(if promoted then PromotedGrade else DiagnosticGrade,
                if promoted then namespace_ else TestOnly,
                scope, inputs, e, full,
                promoted && RootsComplete(inputs) && Gate(e, full, scope.cases))
  }

  function Promote(v: VerifiedReceipt, roots: Roots): Certificate {
    var r := v.receipt;
    Assemble(Scope(None, Some(r.resolved.distributionSha), "coreai_cert_env", Sort(r.cases, StringAtMost)),
             map k | k in roots :: Some(roots[k]),
             Execution(r.argv, r.commandSha, r.observed.resolvedConfigSha, r.exitCode, r.observed.outputTreeSha),
             Checks(false, r.envInstantiated, AsSet(r.cases) == REQUIRED_CASES, r.observed.outputsValid, r.observed.replayPassed),
             true, v.namespace_)
  }

  datatype CertificateError = EntrypointInconsistent | DiagnosticForged | ClaimUnlikeGate | IncompleteCases | RootsMissing | OutputTampered

  /** What each complaint of the offline verifier says. */
  predicate IsFlawed(c: Certificate, outputTreeSha: Option<string>, requireCases: bool, e: CertificateError) {
    match e
    case EntrypointInconsistent => c.checks.officialEntrypoint != IsOfficialArgv(c.execution.argv)
    case DiagnosticForged => c.grade == DiagnosticGrade && c.certified
    case ClaimUnlikeGate => c.grade != DiagnosticGrade && c.certified != Gate(c.execution, c.checks, c.scope.cases)
    case IncompleteCases => requireCases && c.certified && AsSet(c.scope.cases) != REQUIRED_CASES
    case RootsMissing => c.certified && !RootsComplete(c.inputs)
    case OutputTampered => outputTreeSha.Some? && outputTreeSha.value != c.execution.outputTreeSha
  }

  /** When the offline verifier accepts a schema-valid certificate. */
  predicate CertificateHolds(c: Certificate, outputTreeSha: Option<string>, requireCases: bool) {
    forall e: CertificateError :: !IsFlawed(c, outputTreeSha, requireCases, e)
  }

  /** The complaints, each found exactly when its flaw is there. */
  method CollectFlaws(c: Certificate, outputTreeSha: Option<string>, requireCases: bool) returns (errors: seq<CertificateError>)
    ensures forall e :: e in errors <==> IsFlawed(c, outputTreeSha, requireCases, e)
  {
    errors := [];
    if c.checks.officialEntrypoint != IsOfficialArgv(c.execution.argv) {
      errors := errors + [EntrypointInconsistent];
    }
    if c.grade == DiagnosticGrade {
      if c.certified {
        errors := errors + [DiagnosticForged];
      }
    } else if c.certified != Gate(c.execution, c.checks, c.scope.cases) {
      errors := errors + [ClaimUnlikeGate];
    }
    if requireCases && c.certified && AsSet(c.scope.cases) != REQUIRED_CASES {
      errors := errors + [IncompleteCases];
    }
    if c.certified && !RootsComplete(c.inputs) {
      errors := errors + [RootsMissing];
    }
    if outputTreeSha.Some? && outputTreeSha.value != c.execution.outputTreeSha {
      errors := errors + [OutputTampered];
    }
  }

  /** `verify_official_eval_certificate`. */
  method VerifyCertificate(c: Certificate, outputTreeSha: Option<string>, requireCases: bool)
    returns (ok: bool, errors: seq<CertificateError>)
    ensures ok <==> errors == []
    ensures ok <==> CertificateHolds(c, outputTreeSha, requireCases)
    ensures forall e :: e in errors <==> IsFlawed(c, outputTreeSha, requireCases, e)
    ensures ok ==> (c.checks.officialEntrypoint <==> InvokesEvaluation(c.execution.argv))
    ensures ok && c.certified ==> InvokesEvaluation(c.execution.argv)
  {
    OfficialArgvIff(c.execution.argv);
    errors := CollectFlaws(c, outputTreeSha, requireCases);
    ok := errors == [];
    assert !ok ==> errors[0] in errors;
    assert ok ==> !IsFlawed(c, outputTreeSha, requireCases, EntrypointInconsistent);
    assert ok ==> !IsFlawed(c, outputTreeSha, requireCases, ClaimUnlikeGate);
    assert ok ==> !IsFlawed(c, outputTreeSha, requireCases, DiagnosticForged);
  }

  // ---------------------------------------------------------------- end to end

  /** The roots of a bundle's leaves. */
  function RootsOf(leaves: Leaves): Roots {
    map k | k in leaves :: HashOf(leaves[k])
  }

  /** Runs, receipt and its mint, bundle and its mint, and promotion in one. */
  function Certify(resolved: Resolved, runs: CaseRuns, observed: Observed, leaves: Leaves, sqrt: real -> real)
    : Result<Certificate, AuthorityError>
  {
    var v :- MintReceipt(BuildMatrixReceipt(resolved, runs, observed));
    if BundleHolds(leaves, sqrt) then Success(Promote(v, RootsOf(leaves))) else Failure(BundleRefused)
  }

  /** What the receipt schema asks of what the executor is given. */
  predicate InputsValid(resolved: Resolved, observed: Observed) {
    HashesValid(resolved, observed) && resolved.method_ in {"console_script", "python_-m"}
  }

  /** What the runs must have been. Only the first run's command is looked at. */
  ghost predicate GenuineMatrix(resolved: Resolved, runs: CaseRuns, observed: Observed) {
    && runs != []
    && AsSet(CaseNames(runs)) == REQUIRED_CASES
    && (forall i :: 0 <= i < |runs| ==> runs[i].1.exitCode == 0 && runs[i].1.challengeEchoed)
    && observed.outputsValid && observed.replayPassed
    && InvokesEvaluation(runs[0].1.argv) && IsOutsideTemporary(resolved.realpath)
  }

  lemma SortKeepsSet(cases: seq<string>)
    ensures AsSet(Sort(cases, StringAtMost)) == AsSet(cases)
    ensures multiset(Sort(cases, StringAtMost)) == multiset(cases)
    ensures Sort(cases, StringAtMost) == [] <==> cases == []
  {
    StringOrderIsTotal();
    SortSorts(cases, StringAtMost);
    var sorted := Sort(cases, StringAtMost);
    assert forall c :: c in sorted <==> c in multiset(sorted);
    assert forall c :: c in cases <==> c in multiset(cases);
    assert |multiset(sorted)| == |sorted| && |multiset(cases)| == |cases|;
  }

  lemma MintIffGenuine(resolved: Resolved, runs: CaseRuns, observed: Observed)
    ensures MintReceipt(BuildMatrixReceipt(resolved, runs, observed)).Success? <==>
            InputsValid(resolved, observed) && GenuineMatrix(resolved, runs, observed)
  {
    SortKeepsSet(CaseNames(runs));
    var r := BuildMatrixReceipt(resolved, runs, observed);
    GradeMeaning(r);
    OfficialArgvIff(r.argv);
    InstalledPathIff(resolved.realpath);
    if GenuineMatrix(resolved, runs, observed) {
      assert IsOfficialArgv(r.argv);
    }
  }

  /** End to end: a matrix of runs and a bundle of leaves yield a certificate exactly when the
      hashes are well formed, the required cases all ran, all exited cleanly and echoed the
      challenge, both reports passed, the first run's command is the official one, the executable
      is installed, and the bundle verifies without raising. The certificate then makes the claim,
      binds the eleven leaf hashes, is test-only, and passes the offline verifier, the recomputed
      output digest too. */
  lemma CertifiedIffGenuine(resolved: Resolved, runs: CaseRuns, observed: Observed, leaves: Leaves, sqrt: real -> real)
    ensures Certify(resolved, runs, observed, leaves, sqrt).Success? <==>
            InputsValid(resolved, observed) && GenuineMatrix(resolved, runs, observed) && BundleHolds(leaves, sqrt)
    ensures Certify(resolved, runs, observed, leaves, sqrt).Success? ==>
              var c := Certify(resolved, runs, observed, leaves, sqrt).value;
              && c.certified && c.grade == PromotedGrade && c.namespace_ == TestOnly
              && (forall k :: k in c.inputs && k in leaves && c.inputs[k] == Some(HashOf(leaves[k])))
              && CertificateHolds(c, Some(observed.outputTreeSha), true)
  {
    MintIffGenuine(resolved, runs, observed);
    var minted := MintReceipt(BuildMatrixReceipt(resolved, runs, observed));
    if minted.Success? && BundleHolds(leaves, sqrt) {
      BundleRootsComplete(leaves);
      PromotedCertificateHolds(minted.value, RootsOf(leaves));
    }
  }

  lemma BundleRootsComplete(leaves: Leaves)
    requires HasAllLeaves(leaves)
    ensures forall k :: k in leaves && k in RootsOf(leaves) && RootsOf(leaves)[k] == HashOf(leaves[k])
  {
    forall k: RootKey
      ensures k in leaves
    {
      EveryKeyListed(k);
    }
  }

  /** Promoting a certificate-grade receipt with all roots makes the claim, keeps the receipt's
      namespace and passes the offline verifier. */
  lemma PromotedCertificateHolds(v: VerifiedReceipt, roots: Roots)
    requires CertificateGrade(v.receipt) && forall k: RootKey :: k in roots
    ensures var c := Promote(v, roots);
            && c.certified && c.grade == PromotedGrade && c.namespace_ == v.namespace_
            && (forall k :: k in c.inputs && c.inputs[k] == Some(roots[k]))
            && CertificateHolds(c, Some(v.receipt.observed.outputTreeSha), true)
  {
    SortKeepsSet(v.receipt.cases);
    GradeMeaning(v.receipt);
    var c := Promote(v, roots);
    assert forall k :: k in c.inputs && c.inputs[k] == Some(roots[k]);
    assert RootsComplete(c.inputs);
    assert Gate(c.execution, c.checks, c.scope.cases);
  }

  /** An accepted claim is of certificate grade and rests on the official command, the five
      cases, a clean exit, every check and all roots. */
  lemma AcceptedClaimRestsOnTheGate(c: Certificate, outputTreeSha: Option<string>, requireCases: bool)
    requires CertificateHolds(c, outputTreeSha, requireCases) && c.certified
    ensures c.grade == PromotedGrade && forall k: RootKey :: k in c.inputs && c.inputs[k].Some?
    ensures IsOfficialArgv(c.execution.argv) && InvokesEvaluation(c.execution.argv) && AsSet(c.scope.cases) == REQUIRED_CASES && c.execution.exitCode == 0
    ensures c.checks == Checks(true, true, true, true, true)
    ensures outputTreeSha.Some? ==> outputTreeSha.value == c.execution.outputTreeSha
  {
    assert !IsFlawed(c, outputTreeSha, requireCases, DiagnosticForged);
    assert !IsFlawed(c, outputTreeSha, requireCases, ClaimUnlikeGate);
    assert !IsFlawed(c, outputTreeSha, requireCases, RootsMissing);
    assert !IsFlawed(c, outputTreeSha, requireCases, OutputTampered);
    OfficialArgvIff(c.execution.argv);
    forall k: RootKey
      ensures k in c.inputs && c.inputs[k].Some?
    {
      EveryKeyListed(k);
    }
  }

  // ---------------------------------------------------------------- what the verifier stands for

  /** Two certificates that differ at most in what the offline verifier does not look at: the
      namespace, the order of the cases, and the rest of the scope. */
  predicate SameEvidence(c: Certificate, d: Certificate) {
    && c.(namespace_ := TestOnly, scope := d.scope) == d.(namespace_ := TestOnly)
    && multiset(c.scope.cases) == multiset(d.scope.cases)
  }

  /** The certificate is, up to that, the promotion of a certificate-grade receipt and all roots. */
  ghost predicate IsPromotion(c: Certificate) {
    exists v: VerifiedReceipt, roots: Roots ::
      CertificateGrade(v.receipt) && (forall k: RootKey :: k in roots) && SameEvidence(c, Promote(v, roots))
  }

  const INSTALLED_PATH := "/opt/lerobot-eval"

  lemma PathOutsideTemporary(path: string)
    requires |path| > 1 && path[0] == '/' && path[1] == 'o'
    ensures IsInstalledPath(path)
  {
    assert "/tmp/"[1] == 't' && "/private/tmp/"[1] == 'p' && "/var/folders/"[1] == 'v' && "/dev/shm/"[1] == 'd';
  }

  /** A receipt that a claimed certificate could have been promoted from. */
  function ReceiptBehind(c: Certificate): Receipt {
    var sha := c.execution.outputTreeSha;
    Receipt(true, false, Resolved("console_script", INSTALLED_PATH, if c.scope.distributionSha.Some? then c.scope.distributionSha.value else sha),
            c.execution.argv, c.execution.commandSha, true, c.scope.cases, c.execution.exitCode,
            Observed(sha, c.execution.resolvedConfigSha, true, sha, true, sha, sha))
  }

  lemma ReceiptBehindIsGenuine(c: Certificate, outputTreeSha: Option<string>, requireCases: bool)
    requires CertificateHolds(c, outputTreeSha, requireCases) && c.certified
    ensures CertificateGrade(ReceiptBehind(c))
  {
    AcceptedClaimRestsOnTheGate(c, outputTreeSha, requireCases);
    PathOutsideTemporary(INSTALLED_PATH);
    GradeMeaning(ReceiptBehind(c));
  }

  /** Promoting the receipt behind a claim gives back the claim. */
  lemma ReceiptBehindPromotes(c: Certificate, roots: Roots)
    requires c.certified && c.grade == PromotedGrade && c.checks == Checks(true, true, true, true, true)
    requires CertificateGrade(ReceiptBehind(c))
    requires (forall k: RootKey :: k in roots) && forall k :: k in c.inputs && c.inputs[k] == Some(roots[k])
    ensures SameEvidence(c, Promote(VerifiedReceipt(ReceiptBehind(c), TestOnly), roots))
  {
    var v := VerifiedReceipt(ReceiptBehind(c), TestOnly);
    PromotedCertificateHolds(v, roots);
    SortKeepsSet(c.scope.cases);
    var d := Promote(v, roots);
    assert c.inputs == d.inputs;
    GradeMeaning(ReceiptBehind(c));
    assert d.execution == c.execution && d.checks == c.checks;
  }

  /** What the offline verifier establishes of a claim: no less and no more than that it is a
      promotion, with the output digest as recomputed. */
  lemma AcceptedClaimIffPromotion(c: Certificate, outputTreeSha: Option<string>, requireCases: bool)
    requires c.certified
    ensures CertificateHolds(c, outputTreeSha, requireCases) <==>
            IsPromotion(c) && (outputTreeSha.Some? ==> outputTreeSha.value == c.execution.outputTreeSha)
  {
    if CertificateHolds(c, outputTreeSha, requireCases) {
      AcceptedClaimRestsOnTheGate(c, outputTreeSha, requireCases);
      var roots: Roots := map k | k in c.inputs :: c.inputs[k].value;
      ReceiptBehindIsGenuine(c, outputTreeSha, requireCases);
      assert forall k: RootKey :: k in roots;
      ReceiptBehindPromotes(c, roots);
    }
    if IsPromotion(c) && (outputTreeSha.Some? ==> outputTreeSha.value == c.execution.outputTreeSha) {
      var v: VerifiedReceipt, roots: Roots :|
        CertificateGrade(v.receipt) && (forall k: RootKey :: k in roots) && SameEvidence(c, Promote(v, roots));
      var d := Promote(v, roots);
      PromotedCertificateHolds(v, roots);
      assert d.execution.outputTreeSha == v.receipt.observed.outputTreeSha && c.execution == d.execution;
      SameEvidenceHolds(c, d, outputTreeSha, requireCases);
    }
  }

  lemma SameCases(a: seq<string>, b: seq<string>)
    requires multiset(a) == multiset(b)
    ensures AsSet(a) == AsSet(b)
  {
    assert forall x :: x in a <==> x in multiset(a);
    assert forall x :: x in b <==> x in multiset(b);
  }

  /** The verifier cannot tell such certificates apart. In particular the namespace is not
      protected: a test-only certificate relabelled as production is still accepted. */
  lemma SameEvidenceHolds(c: Certificate, d: Certificate, outputTreeSha: Option<string>, requireCases: bool)
    requires SameEvidence(c, d)
    requires CertificateHolds(d, Some(d.execution.outputTreeSha), true)
    requires outputTreeSha.Some? ==> outputTreeSha.value == d.execution.outputTreeSha
    ensures CertificateHolds(c, outputTreeSha, requireCases)
  {
    SameCases(c.scope.cases, d.scope.cases);
    forall e: CertificateError
      ensures !IsFlawed(c, outputTreeSha, requireCases, e)
    {
      assert !IsFlawed(d, Some(d.execution.outputTreeSha), true, e);
    }
  }

  lemma NamespaceIsNotProtected(c: Certificate, outputTreeSha: Option<string>, requireCases: bool, namespace_: Namespace)
    ensures CertificateHolds(c, outputTreeSha, requireCases) <==>
            CertificateHolds(c.(namespace_ := namespace_), outputTreeSha, requireCases)
  {
    var d := c.(namespace_ := namespace_);
    assert forall e: CertificateError :: IsFlawed(c, outputTreeSha, requireCases, e) <==> IsFlawed(d, outputTreeSha, requireCases, e);
  }

  /** Neither is the binding of the command hash to the command, which every certificate made
      from runs has. */
  lemma CommandHashIsNotProtected(c: Certificate, outputTreeSha: Option<string>, requireCases: bool, other: CommandHash)
    ensures CertificateHolds(c, outputTreeSha, requireCases) <==>
            CertificateHolds(c.(execution := c.execution.(commandSha := other)), outputTreeSha, requireCases)
  {
    var d := c.(execution := c.execution.(commandSha := other));
    assert forall e: CertificateError :: IsFlawed(c, outputTreeSha, requireCases, e) <==> IsFlawed(d, outputTreeSha, requireCases, e);
  }

  /** A report assembled without promotion never certifies, whatever it is given, and
      switching its claim on is always detected. */
  lemma DiagnosticNeverCertifies(scope: Scope, inputs: map<RootKey, Option<LeafHash>>, e: Execution, checks: Checks)
    ensures var d := Assemble(scope, inputs, e, checks, false, TestOnly);
            && !d.certified && CertificateHolds(d, None, true)
            && !CertificateHolds(d.(certified := true), None, true)
  {
    var d := Assemble(scope, inputs, e, checks, false, TestOnly);
    assert IsFlawed(d.(certified := true), None, true, DiagnosticForged);
  }

  // ---------------------------------------------------------------- which claims come from runs

  /** The leaves that the certificate's inputs are hashes of. */
  function LeavesOf(inputs: map<RootKey, Option<LeafHash>>): Leaves {
    map k | k in inputs && inputs[k].Some? :: inputs[k].value.leaf
  }

  /** What only a certificate made from runs has, and the offline verifier does not look at. */
  ghost predicate IsPublished(c: Certificate, sqrt: real -> real) {
    && c.namespace_ == TestOnly
    && c.scope.lerobotVersion.None? && c.scope.environment == "coreai_cert_env"
    && c.scope.distributionSha.Some? && IsSha256(c.scope.distributionSha.value)
    && IsSorted(c.scope.cases, StringAtMost) && !HasDuplicates(c.scope.cases)
    && c.execution.commandSha == CommandOf(c.execution.argv)
    && IsSha256(c.execution.outputTreeSha) && IsSha256(c.execution.resolvedConfigSha)
    && BundleHolds(LeavesOf(c.inputs), sqrt)
  }

  ghost predicate IsMadeFrom(c: Certificate, resolved: Resolved, runs: CaseRuns, observed: Observed, leaves: Leaves,
                             sqrt: real -> real)
  {
    !HasDuplicates(CaseNames(runs)) && Certify(resolved, runs, observed, leaves, sqrt) == Success(c)
  }

  lemma SortedTwice(names: seq<string>)
    requires !HasDuplicates(names)
    ensures var cases := Sort(Sort(names, StringAtMost), StringAtMost); IsSorted(cases, StringAtMost) && !HasDuplicates(cases)
  {
    var once := Sort(names, StringAtMost);
    StringOrderIsTotal();
    SortSorts(names, StringAtMost);
    SortSorts(once, StringAtMost);
    DuplicatesInMultiset(names);
    DuplicatesInMultiset(Sort(once, StringAtMost));
    assert forall x :: x in Sort(once, StringAtMost) ==> x in multiset(names);
  }

  lemma LeavesOfRoots(leaves: Leaves)
    requires HasAllLeaves(leaves)
    ensures LeavesOf(map k | k in RootsOf(leaves) :: Some(RootsOf(leaves)[k])) == leaves
  {
  }

  lemma MadeIsPublished(c: Certificate, resolved: Resolved, runs: CaseRuns, observed: Observed, leaves: Leaves, sqrt: real -> real)
    requires IsMadeFrom(c, resolved, runs, observed, leaves, sqrt)
    ensures c.certified && CertificateHolds(c, None, true) && IsPublished(c, sqrt)
  {
    CertifiedIffGenuine(resolved, runs, observed, leaves, sqrt);
    var v := MintReceipt(BuildMatrixReceipt(resolved, runs, observed)).value;
    assert c == Promote(v, RootsOf(leaves));
    assert c.execution.outputTreeSha == observed.outputTreeSha;
    SameEvidenceHolds(c, c, None, true);
    SortedTwice(CaseNames(runs));
    LeavesOfRoots(leaves);
  }

  /** Runs that lead to a published claim. */
  function RunsBehind(c: Certificate): CaseRuns {
    seq(|c.scope.cases|, i requires 0 <= i < |c.scope.cases| => (c.scope.cases[i], RunRecord(c.execution.argv, 0, true)))
  }

  /** The receipt of clean runs of one command. */
  lemma ReceiptOfCleanRuns(resolved: Resolved, runs: CaseRuns, argv: seq<string>, observed: Observed)
    requires runs != [] && forall i :: 0 <= i < |runs| ==> runs[i].1 == RunRecord(argv, 0, true)
    ensures BuildMatrixReceipt(resolved, runs, observed) ==
            Receipt(true, false, resolved, argv, CommandOf(argv), true, Sort(CaseNames(runs), StringAtMost), 0, observed)
  {
    assert AllClean(runs) && AllEchoed(runs) && runs[0].1.argv == argv;
  }

  lemma ClaimHasCases(c: Certificate)
    requires c.certified && CertificateHolds(c, None, true)
    ensures c.scope.cases != []
  {
    AcceptedClaimRestsOnTheGate(c, None, true);
    assert "single-b1" in AsSet(c.scope.cases);
  }

  lemma RunsBehindReceipt(c: Certificate, sqrt: real -> real)
    requires c.certified && CertificateHolds(c, None, true) && IsPublished(c, sqrt)
    ensures CaseNames(RunsBehind(c)) == c.scope.cases
    ensures var r := ReceiptBehind(c); BuildMatrixReceipt(r.resolved, RunsBehind(c), r.observed) == r
  {
    var r := ReceiptBehind(c);
    AcceptedClaimRestsOnTheGate(c, None, true);
    ClaimHasCases(c);
    assert CaseNames(RunsBehind(c)) == c.scope.cases;
    ReceiptOfCleanRuns(r.resolved, RunsBehind(c), c.execution.argv, r.observed);
    StringOrderIsTotal();
    SortOfSorted(c.scope.cases, StringAtMost);
  }

  lemma PublishedIsMade(c: Certificate, sqrt: real -> real)
    requires c.certified && CertificateHolds(c, None, true) && IsPublished(c, sqrt)
    ensures var r := ReceiptBehind(c);
            IsMadeFrom(c, r.resolved, RunsBehind(c), r.observed, LeavesOf(c.inputs), sqrt)
  {
    var r, leaves := ReceiptBehind(c), LeavesOf(c.inputs);
    RunsBehindReceipt(c, sqrt);
    AcceptedClaimRestsOnTheGate(c, None, true);
    ReceiptBehindIsGenuine(c, None, true);
    BundleRootsComplete(leaves);
    ReceiptBehindPromotes(c, RootsOf(leaves));
    StringOrderIsTotal();
    SortOfSorted(c.scope.cases, StringAtMost);
    assert ReceiptSchemaValid(r);
    var d := Promote(VerifiedReceipt(r, TestOnly), RootsOf(leaves));
    assert d.scope == c.scope && d.namespace_ == TestOnly;
    assert c.(namespace_ := TestOnly, scope := d.scope) == c;
  }

  /** Exactly which certificates come out of genuine runs and a verified bundle: those with an
      accepted claim that are published as the authority publishes them. */
  lemma MadeFromRunsIff(c: Certificate, sqrt: real -> real)
    ensures (exists resolved, runs, observed, leaves :: IsMadeFrom(c, resolved, runs, observed, leaves, sqrt)) <==>
            c.certified && CertificateHolds(c, None, true) && IsPublished(c, sqrt)
  {
    if resolved, runs, observed, leaves :| IsMadeFrom(c, resolved, runs, observed, leaves, sqrt) {
      MadeIsPublished(c, resolved, runs, observed, leaves, sqrt);
    }
    if c.certified && CertificateHolds(c, None, true) && IsPublished(c, sqrt) {
      PublishedIsMade(c, sqrt);
    }
  }

  // ---------------------------------------------------------------- a certificate, and its relabelling

  function Repeat(n: nat, c: char): (s: string)
    ensures |s| == n && forall i :: 0 <= i < n ==> s[i] == c
  {
    seq(n, _ => c)
  }

  function ZeroSha(): string {
    "sha256:" + Repeat(64, '0')
  }

  lemma ZeroShaIsSha256()
    ensures IsSha256(ZeroSha())
  {
    assert ZeroSha()[..7] == "sha256:";
  }

  /** Diagnostic evidence that claims nothing. */
  function ModestEvidence(): ModelConversion.Evidence {
    var sha := ZeroSha();
    var nothing := ProcessorParity.Sha256(NestedLists.List([]));
    Evidence(ProcessorParity.Diagnostic, None, Identity("repository", "revision", sha, "exporter", "build", sha, sha, "v1", sha),
             ParityBlock(None, nothing, nothing, [],
                         ParityMetrics.Metrics([0], [0], true, 0, 0, 0, Fin(0.0), Fin(0.0), Fin(0.0), 1.0), false),
             false, false)
  }

  function ModestLeaf(k: RootKey): Leaf {
    match k
    case ProcessorParityRoot => ParityLeaf(ProcessorParity.Report(ProcessorParity.Diagnostic, [], false, false), None)
    case ModelConversionRoot => ConversionLeaf(ModestEvidence())
    case _ => ObjectLeaf("{}", true, None, None, None)
  }

  function ModestLeaves(): Leaves {
    map k | k in ROOT_KEYS :: ModestLeaf(k)
  }

  lemma ModestBundleHolds(sqrt: real -> real)
    ensures BundleHolds(ModestLeaves(), sqrt)
  {
    ZeroShaIsSha256();
    var leaves := ModestLeaves();
    EveryKeyListed(ProcessorParityRoot);
    EveryKeyListed(FeatureContractRoot);
    EveryKeyListed(ModelConversionRoot);
    EveryKeyListed(ArtifactRoot);
    forall k: RootKey
      ensures ModestLeaf(k).IsCanonical() && LeafHolds(k, ModestLeaf(k), sqrt)
    {
    }
    forall i | 0 <= i < |ROOT_KEYS|
      ensures ROOT_KEYS[i] in leaves && leaves[ROOT_KEYS[i]] == ModestLeaf(ROOT_KEYS[i])
    {
    }
  }

  /** Five clean runs of the console script. */
  function CleanRuns(argv: seq<string>): CaseRuns {
    var run := RunRecord(argv, 0, true);
    [("single-b1", run), ("native-b2", run), ("native-b4", run), ("split-b2", run), ("split-b4", run)]
  }

  lemma CleanRunsAreGenuine(resolved: Resolved, argv: seq<string>, observed: Observed)
    requires InvokesEvaluation(argv) && IsOutsideTemporary(resolved.realpath) && observed.outputsValid && observed.replayPassed
    ensures GenuineMatrix(resolved, CleanRuns(argv), observed)
  {
    var names := CaseNames(CleanRuns(argv));
    assert names == ["single-b1", "native-b2", "native-b4", "split-b2", "split-b4"];
  }

  /** Genuine runs and a bundle that verifies exist together, and the test-only certificate they
      lead to is still accepted, claim and all, when it is relabelled as production. */
  lemma RelabelledCertificateAccepted(sqrt: real -> real) returns (made: Certificate)
    ensures made.certified && made.namespace_ == TestOnly
    ensures exists resolved, runs, observed, leaves :: Certify(resolved, runs, observed, leaves, sqrt) == Success(made)
    ensures CertificateHolds(made.(namespace_ := Production), Some(made.execution.outputTreeSha), true)
  {
    var sha := ZeroSha();
    ZeroShaIsSha256();
    var resolved, argv := Resolved("console_script", INSTALLED_PATH, sha), ["lerobot-eval"];
    var observed := Observed(sha, sha, true, sha, true, sha, sha);
    PathOutsideTemporary(INSTALLED_PATH);
    InstalledPathIff(INSTALLED_PATH);
    CleanRunsAreGenuine(resolved, argv, observed);
    ModestBundleHolds(sqrt);
    CertifiedIffGenuine(resolved, CleanRuns(argv), observed, ModestLeaves(), sqrt);
    made := Certify(resolved, CleanRuns(argv), observed, ModestLeaves(), sqrt).value;
    NamespaceIsNotProtected(made, Some(sha), true, Production);
    assert made.execution.outputTreeSha == sha;
  }
}
