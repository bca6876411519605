/** Canonical normalization of a runner's announced capabilities. */
module Capabilities {
  import opened Outcomes
  import opened Sorting

  // ---------------------------------------------------------------- string order

  /** The language's order on strings: by code point, a prefix first. */
  predicate StringAtMost(a: string, b: string) {
    a == "" || (b != "" && (a[0] < b[0] || (a[0] == b[0] && StringAtMost(a[1..], b[1..]))))
  }

  lemma {:induction false} StringReflexive(a: string)
    ensures StringAtMost(a, a)
  {
    if a == "" {
    } else {
      StringReflexive(a[1..]);
    }
  }

  lemma {:induction false} StringTotal(a: string, b: string)
    ensures StringAtMost(a, b) || StringAtMost(b, a)
  {
    if a == "" || b == "" {
    } else {
      StringTotal(a[1..], b[1..]);
    }
  }

  lemma {:induction false} StringAntisymmetric(a: string, b: string)
    requires StringAtMost(a, b) && StringAtMost(b, a)
    ensures a == b
  {
    if a == "" || b == "" {
    } else {
      StringAntisymmetric(a[1..], b[1..]);
      assert a == [a[0]] + a[1..] && b == [b[0]] + b[1..];
    }
  }

  lemma {:induction false} StringTransitive(a: string, b: string, c: string)
    requires StringAtMost(a, b) && StringAtMost(b, c)
    ensures StringAtMost(a, c)
  {
    if a == "" || a[0] != b[0] || b[0] != c[0] {
    } else {
      StringTransitive(a[1..], b[1..], c[1..]);
    }
  }

  lemma StringOrderIsTotal()
    ensures IsTotalOrder(StringAtMost)
  {
    forall x: string
      ensures StringAtMost(x, x)
    {
      StringReflexive(x);
    }
    forall x: string, y: string
      ensures StringAtMost(x, y) || StringAtMost(y, x)
      ensures StringAtMost(x, y) && StringAtMost(y, x) ==> x == y
    {
      StringTotal(x, y);
      if StringAtMost(x, y) && StringAtMost(y, x) {
        StringAntisymmetric(x, y);
      }
    }
    forall x: string, y: string, z: string | StringAtMost(x, y) && StringAtMost(y, z)
      ensures StringAtMost(x, z)
    {
      StringTransitive(x, y, z);
    }
  }

  /** The order is the dictionary's: a prefix first, else by the first differing character. */
  lemma {:induction false} StringOrderMeaning(a: string, b: string)
    ensures StringAtMost(a, b) <==> a <= b || exists k :: FirstDifferenceAt(a, b, k) && a[k] < b[k]
  {
    if a == "" || b == "" {
    } else {
      var x, y := a[1..], b[1..];
      assert a == [a[0]] + x && b == [b[0]] + y;
      StringOrderMeaning(x, y);
      if a[0] != b[0] {
        assert FirstDifferenceAt(a, b, 0);
        assert forall k :: FirstDifferenceAt(a, b, k) ==> k == 0;
      } else {
        assert a <= b <==> x <= y;
        forall k | FirstDifferenceAt(x, y, k)
          ensures FirstDifferenceAt(a, b, k + 1) && a[k + 1] == x[k] && b[k + 1] == y[k]
        {
        }
        forall k | FirstDifferenceAt(a, b, k)
          ensures k > 0 && FirstDifferenceAt(x, y, k - 1) && a[k] == x[k - 1] && b[k] == y[k - 1]
        {
        }
      }
    }
  }

  predicate FirstDifferenceAt(a: string, b: string, k: int) {
    0 <= k < |a| && k < |b| && a[k] != b[k] && forall i :: 0 <= i < k ==> a[i] == b[i]
  }

  // ---------------------------------------------------------------- payloads

  /** Announced fields; `None` is an omitted field, or a null one where the raw schema allows null:
      strings and enumerations. */
  datatype RawBatching = RawBatching(
    supported: Option<bool>, maxBatchSize: Option<int>, semantics: Option<string>,
    slotIsolation: Option<string>, stateIsolation: Option<string>)

  datatype RawInference = RawInference(scope: Option<string>, supportsSessionIds: Option<bool>, resetScope: Option<string>)

  datatype Raw = Raw(
    runtime: Option<string>, protocolVersion: Option<string>,
    backwardCompatibleWith: Option<seq<string>>, observationEncodings: Option<seq<string>>,
    supportsAction: Option<bool>, batching: RawBatching, inference: RawInference)

  datatype Batching = Batching(supported: bool, maxBatchSize: int, semantics: Option<string>, slotIsolation: Option<string>)

  datatype Inference = Inference(scope: Option<string>, supportsSessionIds: bool, resetScope: Option<string>)

  datatype Normalized = Normalized(
    runtime: Option<string>, protocolVersion: Option<string>,
    backwardCompatibleWith: seq<string>, observationEncodings: seq<string>,
    supportsAction: bool, batching: Batching, inference: Inference)

  datatype NormalizationError =
    | RawInvalid | DuplicateValue | ConflictingIsolation | UnknownIsolation
    | SupportedNeedsSemantics | SupportedNeedsIsolation | SupportedNeedsBatch | NativeNeedsIsolation
    | SessionScopeNeedsIds | SessionResetNeedsIds

  const SEMANTICS: set<string> := {"native", "split_and_stack"}
  const SLOT_ISOLATION: set<string> := {"independent", "shared", "unknown"}
  const STATE_SCOPE: set<string> := {"stateless", "request_scoped", "session_scoped", "global"}
  const RESET_SCOPE: set<string> := {"none", "session", "global"}

  predicate InEnum(v: Option<string>, allowed: set<string>) {
    v.Some? ==> v.value in allowed
  }

  /** The strict raw schema on the known fields; the isolation alias is not among them. */
  predicate RawValid(raw: Raw) {
    && (raw.batching.maxBatchSize.Some? ==> raw.batching.maxBatchSize.value >= 1)
    && InEnum(raw.batching.semantics, SEMANTICS) && InEnum(raw.batching.slotIsolation, SLOT_ISOLATION)
    && InEnum(raw.inference.scope, STATE_SCOPE) && InEnum(raw.inference.resetScope, RESET_SCOPE)
  }

  function OrElse<T>(v: Option<T>, default: T): T {
    if v.Some? then v.value else default
  }

  predicate HasDuplicates(s: seq<string>) {
    exists i, j :: 0 <= i < j < |s| && s[i] == s[j]
  }

  function SortedUnique(values: Option<seq<string>>): Result<seq<string>, NormalizationError> {
    var s := OrElse(values, []);
    if HasDuplicates(s) then Failure(DuplicateValue) else Success(Sort(s, StringAtMost))
  }

  /** The isolation under either of its two names; both must agree when both are given. */
  function ResolveSlotIsolation(b: RawBatching): Result<Option<string>, NormalizationError> {
    if b.slotIsolation.Some? && b.stateIsolation.Some? && b.slotIsolation != b.stateIsolation then Failure(ConflictingIsolation)
    else
      var value := if b.slotIsolation.Some? then b.slotIsolation else b.stateIsolation;
      if InEnum(value, SLOT_ISOLATION) then Success(value) else Failure(UnknownIsolation)
  }

  /** The conditional contract, first violation first. */
  function Violation(n: Normalized): Option<NormalizationError> {
    var b, i := n.batching, n.inference;
    if b.supported && b.semantics.None? then Some(SupportedNeedsSemantics)
    else if b.supported && b.slotIsolation.None? then Some(SupportedNeedsIsolation)
    else if b.supported && b.maxBatchSize < 2 then Some(SupportedNeedsBatch)
    else if b.semantics == Some("native") && b.slotIsolation.None? then Some(NativeNeedsIsolation)
    else if i.scope == Some("session_scoped") && !i.supportsSessionIds then Some(SessionScopeNeedsIds)
    else if i.resetScope == Some("session") && !i.supportsSessionIds then Some(SessionResetNeedsIds)
    else None
  }

  function Normalize(raw: Raw): Result<Normalized, NormalizationError> {
    if !RawValid(raw) then Failure(RawInvalid)
    else
      var backward :- SortedUnique(raw.backwardCompatibleWith);
      var encodings :- SortedUnique(raw.observationEncodings);
      var isolation :- ResolveSlotIsolation(raw.batching);
      var n := Normalized(
                 raw.runtime, raw.protocolVersion, backward, encodings, OrElse(raw.supportsAction, false),
                 Batching(OrElse(raw.batching.supported, false), OrElse(raw.batching.maxBatchSize, 1),
                          raw.batching.semantics, isolation),
                 Inference(raw.inference.scope, OrElse(raw.inference.supportsSessionIds, false), raw.inference.resetScope));
      if Violation(n).Some? then Failure(Violation(n).value) else Success(n)
  }

  // ---------------------------------------------------------------- canonical form

  ghost predicate SameList(a: Option<seq<string>>, b: Option<seq<string>>) {
    multiset(OrElse(a, [])) == multiset(OrElse(b, []))
  }

  /** What the two names of the isolation together say: every name that is given says it, and
      something is said only where a name is given. */
  predicate SaysIsolation(b: RawBatching, isolation: Option<string>) {
    && (b.slotIsolation.Some? ==> b.slotIsolation == isolation)
    && (b.stateIsolation.Some? ==> b.stateIsolation == isolation)
    && (isolation.Some? ==> b.slotIsolation.Some? || b.stateIsolation.Some?)
  }

  lemma IsolationMeaning(b: RawBatching, isolation: Option<string>)
    ensures ResolveSlotIsolation(b) == Success(isolation) <==> SaysIsolation(b, isolation) && InEnum(isolation, SLOT_ISOLATION)
    ensures ResolveSlotIsolation(b) == Failure(ConflictingIsolation) <==>
            b.slotIsolation.Some? && b.stateIsolation.Some? && b.slotIsolation.value != b.stateIsolation.value
    ensures SaysIsolation(b, isolation) && !InEnum(isolation, SLOT_ISOLATION) ==>
              ResolveSlotIsolation(b) == Failure(UnknownIsolation)
  {
  }

  /** Two payloads say the same: lists up to order, defaults explicit or not, the isolation
      under either name. */
  ghost predicate Equivalent(r: Raw, q: Raw) {
    && r.runtime == q.runtime && r.protocolVersion == q.protocolVersion
    && SameList(r.backwardCompatibleWith, q.backwardCompatibleWith)
    && SameList(r.observationEncodings, q.observationEncodings)
    && OrElse(r.supportsAction, false) == OrElse(q.supportsAction, false)
    && OrElse(r.batching.supported, false) == OrElse(q.batching.supported, false)
    && OrElse(r.batching.maxBatchSize, 1) == OrElse(q.batching.maxBatchSize, 1)
    && r.batching.semantics == q.batching.semantics
    && (forall isolation :: SaysIsolation(r.batching, isolation) <==> SaysIsolation(q.batching, isolation))
    && r.inference.scope == q.inference.scope && r.inference.resetScope == q.inference.resetScope
    && OrElse(r.inference.supportsSessionIds, false) == OrElse(q.inference.supportsSessionIds, false)
  }

  lemma {:induction false} DuplicatesInMultiset(s: seq<string>)
    ensures HasDuplicates(s) <==> exists x :: x in s && multiset(s)[x] > 1
  {
    if s == [] {
    } else {
      var init, last := s[..|s| - 1], s[|s| - 1];
      assert s == init + [last];
      DuplicatesInMultiset(init);
      if last in init {
        var i :| 0 <= i < |init| && init[i] == last;
        assert s[i] == s[|s| - 1];
        assert multiset(init)[last] > 0 && multiset(s)[last] > 1;
      } else {
        assert multiset(init)[last] == 0;
        if HasDuplicates(init) {
          var i, j :| 0 <= i < j < |init| && init[i] == init[j];
          assert s[i] == s[j];
          var x :| x in init && multiset(init)[x] > 1;
          assert x in s && multiset(s)[x] > 1;
        }
        if HasDuplicates(s) {
          var i, j :| 0 <= i < j < |s| && s[i] == s[j];
          assert init[i] == s[i];
        }
        if x :| x in s && multiset(s)[x] > 1 {
          assert x in init && multiset(init)[x] > 1;
        }
      }
    }
  }

  lemma SortedUniqueCanonical(a: Option<seq<string>>, b: Option<seq<string>>)
    ensures SameList(a, b) ==> SortedUnique(a) == SortedUnique(b)
    ensures SortedUnique(a).Success? && SortedUnique(a) == SortedUnique(b) ==> SameList(a, b)
  {
    var s, t := OrElse(a, []), OrElse(b, []);
    StringOrderIsTotal();
    SortSorts(s, StringAtMost);
    SortSorts(t, StringAtMost);
    if multiset(s) == multiset(t) {
      DuplicatesInMultiset(s);
      DuplicatesInMultiset(t);
      assert forall x :: x in s <==> x in multiset(s);
      assert forall x :: x in t <==> x in multiset(t);
      SortOfPermutation(s, t, StringAtMost);
    }
  }

  /** Normalization is a canonical form: valid payloads that say the same are normalized, or
      refused, alike, and payloads with one normal form say the same. */
  lemma NormalFormIffEquivalent(r: Raw, q: Raw)
    requires RawValid(r) && RawValid(q)
    ensures Equivalent(r, q) ==> Normalize(r) == Normalize(q)
    ensures Normalize(r).Success? && Normalize(r) == Normalize(q) ==> Equivalent(r, q)
  {
    SortedUniqueCanonical(r.backwardCompatibleWith, q.backwardCompatibleWith);
    SortedUniqueCanonical(r.observationEncodings, q.observationEncodings);
    SameIsolation(r.batching, q.batching);
  }

  lemma SameIsolation(b: RawBatching, c: RawBatching)
    ensures (forall isolation :: SaysIsolation(b, isolation) <==> SaysIsolation(c, isolation)) ==>
              ResolveSlotIsolation(b) == ResolveSlotIsolation(c)
    ensures ResolveSlotIsolation(b).Success? && ResolveSlotIsolation(b) == ResolveSlotIsolation(c) ==>
              forall isolation :: SaysIsolation(b, isolation) <==> SaysIsolation(c, isolation)
  {
    var x := if b.slotIsolation.Some? then b.slotIsolation else b.stateIsolation;
    var y := if c.slotIsolation.Some? then c.slotIsolation else c.stateIsolation;
    if forall isolation :: SaysIsolation(b, isolation) <==> SaysIsolation(c, isolation) {
      assert SaysIsolation(b, x) <==> SaysIsolation(c, x);
      assert SaysIsolation(b, y) <==> SaysIsolation(c, y);
    }
    if ResolveSlotIsolation(b).Success? && ResolveSlotIsolation(b) == ResolveSlotIsolation(c) {
      assert x == y;
      assert forall isolation :: SaysIsolation(b, isolation) <==> isolation == x;
      assert forall isolation :: SaysIsolation(c, isolation) <==> isolation == x;
    }
  }

  // ---------------------------------------------------------------- what an output is

  ghost predicate StrictlySorted(s: seq<string>) {
    forall i, j :: 0 <= i < j < |s| ==> StringAtMost(s[i], s[j]) && s[i] != s[j]
  }

  /** The conditional contract, as implications. */
  predicate MeetsContract(n: Normalized) {
    && (n.batching.supported ==> n.batching.semantics.Some? && n.batching.slotIsolation.Some? && n.batching.maxBatchSize >= 2)
    && (n.batching.semantics == Some("native") ==> n.batching.slotIsolation.Some?)
    && (n.inference.scope == Some("session_scoped") || n.inference.resetScope == Some("session") ==> n.inference.supportsSessionIds)
  }

  /** The schema of normalized payloads. */
  predicate NormalizedValid(n: Normalized) {
    && n.batching.maxBatchSize >= 1
    && (n.batching.semantics.Some? ==> n.batching.semantics.value in SEMANTICS)
    && (n.batching.slotIsolation.Some? ==> n.batching.slotIsolation.value in SLOT_ISOLATION)
    && (n.inference.scope.Some? ==> n.inference.scope.value in STATE_SCOPE)
    && (n.inference.resetScope.Some? ==> n.inference.resetScope.value in RESET_SCOPE)
    && !HasDuplicates(n.backwardCompatibleWith) && !HasDuplicates(n.observationEncodings)
  }

  lemma SortedUniqueIsStrict(values: Option<seq<string>>)
    ensures SortedUnique(values).Success? ==>
              StrictlySorted(SortedUnique(values).value) && !HasDuplicates(SortedUnique(values).value)
  {
    var s := OrElse(values, []);
    if !HasDuplicates(s) {
      StringOrderIsTotal();
      SortSorts(s, StringAtMost);
      var t := Sort(s, StringAtMost);
      DuplicatesInMultiset(s);
      DuplicatesInMultiset(t);
      assert forall x :: x in s <==> x in multiset(s);
      assert forall x :: x in t <==> x in multiset(t);
    }
  }

  /** Every output has strictly sorted lists, fits the normalized schema and meets the
      conditional contract, and only such values are outputs. */
  lemma OutputsAreCanonical(n: Normalized)
    ensures (exists raw :: Normalize(raw) == Success(n)) <==>
            && StrictlySorted(n.backwardCompatibleWith) && StrictlySorted(n.observationEncodings)
            && NormalizedValid(n) && MeetsContract(n)
  {
    if raw :| Normalize(raw) == Success(n) {
      SortedUniqueIsStrict(raw.backwardCompatibleWith);
      SortedUniqueIsStrict(raw.observationEncodings);
    }
    if StrictlySorted(n.backwardCompatibleWith) && StrictlySorted(n.observationEncodings) && NormalizedValid(n) && MeetsContract(n) {
      NormalizeIsIdempotent(n);
    }
  }

  /** A normalized value announced as a payload, every default explicit. */
  function AsRaw(n: Normalized): Raw {
    Raw(n.runtime, n.protocolVersion, Some(n.backwardCompatibleWith), Some(n.observationEncodings), Some(n.supportsAction),
        RawBatching(Some(n.batching.supported), Some(n.batching.maxBatchSize), n.batching.semantics, n.batching.slotIsolation, None),
        RawInference(n.inference.scope, Some(n.inference.supportsSessionIds), n.inference.resetScope))
  }

  /** Normalizing a canonical value again gives it back. */
  lemma NormalizeIsIdempotent(n: Normalized)
    requires StrictlySorted(n.backwardCompatibleWith) && StrictlySorted(n.observationEncodings)
    requires NormalizedValid(n) && MeetsContract(n)
    ensures Normalize(AsRaw(n)) == Success(n)
  {
    StringOrderIsTotal();
    SortOfSorted(n.backwardCompatibleWith, StringAtMost);
    SortOfSorted(n.observationEncodings, StringAtMost);
  }

  // ---------------------------------------------------------------- the typed object

  datatype Typed = Typed(
    runtime: Option<string>, protocolVersion: Option<string>,
    backwardCompatibleWith: seq<string>, observationEncodings: seq<string>,
    supportsAction: bool, batchingSupported: bool, maxBatchSize: int,
    batchingSemantics: Option<string>, slotIsolation: Option<string>,
    stateScope: Option<string>, supportsSessionIds: bool, resetScope: Option<string>)

  function TypedCapabilities(raw: Raw): Result<Typed, NormalizationError> {
    var n :- Normalize(raw);
    Success(Typed(n.runtime, n.protocolVersion, n.backwardCompatibleWith, n.observationEncodings,
                  n.supportsAction, n.batching.supported, n.batching.maxBatchSize, n.batching.semantics,
                  n.batching.slotIsolation, n.inference.scope, n.inference.supportsSessionIds, n.inference.resetScope))
  }

  function FromTyped(t: Typed): Normalized {
    Normalized(t.runtime, t.protocolVersion, t.backwardCompatibleWith, t.observationEncodings, t.supportsAction,
               Batching(t.batchingSupported, t.maxBatchSize, t.batchingSemantics, t.slotIsolation),
               Inference(t.stateScope, t.supportsSessionIds, t.resetScope))
  }

  /** The typed object carries the normal form, and announcing it again changes nothing. */
  lemma TypedRoundTrip(raw: Raw)
    requires TypedCapabilities(raw).Success?
    ensures Normalize(raw) == Success(FromTyped(TypedCapabilities(raw).value))
    ensures TypedCapabilities(AsRaw(FromTyped(TypedCapabilities(raw).value))) == TypedCapabilities(raw)
  {
    var n := Normalize(raw).value;
    OutputsAreCanonical(n);
    NormalizeIsIdempotent(n);
  }

  // ---------------------------------------------------------------- what normalizing does

  /** `sorted` holds what the list announces, an omitted list nothing, in strict order. */
  ghost predicate Sorts(announced: Option<seq<string>>, sorted: seq<string>) {
    && StrictlySorted(sorted)
    && multiset(sorted) == if announced.Some? then multiset(announced.value) else multiset{}
  }

  lemma SortedUniqueMeaning(announced: Option<seq<string>>, sorted: seq<string>)
    ensures SortedUnique(announced) == Success(sorted) <==> Sorts(announced, sorted)
    ensures SortedUnique(announced).Failure? ==> SortedUnique(announced).error == DuplicateValue
  {
    var s := OrElse(announced, []);
    StringOrderIsTotal();
    SortSorts(s, StringAtMost);
    SortedUniqueIsStrict(announced);
    if Sorts(announced, sorted) {
      assert multiset(s) == multiset(sorted);
      SortOfPermutation(s, sorted, StringAtMost);
      SortOfSorted(sorted, StringAtMost);
      DuplicatesInMultiset(s);
      DuplicatesInMultiset(sorted);
      assert forall x :: x in s <==> x in multiset(s);
      assert forall x :: x in sorted <==> x in multiset(sorted);
    }
  }

  /** What a payload is normalized to, field by field: lists sorted, omitted flags false, an omitted
      batch size one, the isolation under either name; and the record must fit its schema and meet
      the conditional contract. */
  lemma NormalizesIff(raw: Raw, n: Normalized)
    ensures Normalize(raw) == Success(n) <==>
            && n.runtime == raw.runtime && n.protocolVersion == raw.protocolVersion
            && Sorts(raw.backwardCompatibleWith, n.backwardCompatibleWith)
            && Sorts(raw.observationEncodings, n.observationEncodings)
            && (n.supportsAction <==> raw.supportsAction == Some(true))
            && (n.batching.supported <==> raw.batching.supported == Some(true))
            && (if raw.batching.maxBatchSize.None? then n.batching.maxBatchSize == 1
                else raw.batching.maxBatchSize == Some(n.batching.maxBatchSize))
            && n.batching.semantics == raw.batching.semantics
            && SaysIsolation(raw.batching, n.batching.slotIsolation)
            && n.inference.scope == raw.inference.scope && n.inference.resetScope == raw.inference.resetScope
            && (n.inference.supportsSessionIds <==> raw.inference.supportsSessionIds == Some(true))
            && NormalizedValid(n) && MeetsContract(n)
  {
    SortedUniqueMeaning(raw.backwardCompatibleWith, n.backwardCompatibleWith);
    SortedUniqueMeaning(raw.observationEncodings, n.observationEncodings);
    IsolationMeaning(raw.batching, n.batching.slotIsolation);
  }

  /** What the strict schema refuses: a batch size below one, or a name outside its vocabulary, the
      isolation's alias aside. */
  lemma SchemaRefuses(raw: Raw)
    ensures Normalize(raw) == Failure(RawInvalid) <==>
            || (raw.batching.maxBatchSize.Some? && raw.batching.maxBatchSize.value <= 0)
            || (raw.batching.semantics.Some? && raw.batching.semantics.value !in {"native", "split_and_stack"})
            || (raw.batching.slotIsolation.Some? && raw.batching.slotIsolation.value !in {"independent", "shared", "unknown"})
            || (raw.inference.scope.Some?
                && raw.inference.scope.value !in {"stateless", "request_scoped", "session_scoped", "global"})
            || (raw.inference.resetScope.Some? && raw.inference.resetScope.value !in {"none", "session", "global"})
  {
    if RawValid(raw) && Normalize(raw).Failure? {
      NotTheSchema(raw);
    }
  }

  lemma NotTheSchema(raw: Raw)
    requires RawValid(raw)
    ensures Normalize(raw) != Failure(RawInvalid)
  {
    SortedUniqueError(raw.backwardCompatibleWith);
    SortedUniqueError(raw.observationEncodings);
  }

  lemma SortedUniqueError(values: Option<seq<string>>)
    ensures SortedUnique(values).Failure? ==> SortedUnique(values).error == DuplicateValue
  {
  }

  const RULES: seq<NormalizationError> := [
    SupportedNeedsSemantics, SupportedNeedsIsolation, SupportedNeedsBatch, NativeNeedsIsolation,
    SessionScopeNeedsIds, SessionResetNeedsIds]

  /** The rule of the conditional contract that the error names is broken. */
  predicate Broken(n: Normalized, rule: NormalizationError) {
    match rule
    case SupportedNeedsSemantics => n.batching.supported && n.batching.semantics.None?
    case SupportedNeedsIsolation => n.batching.supported && n.batching.slotIsolation.None?
    case SupportedNeedsBatch => n.batching.supported && n.batching.maxBatchSize <= 1
    case NativeNeedsIsolation => n.batching.semantics == Some("native") && n.batching.slotIsolation.None?
    case SessionScopeNeedsIds => n.inference.scope == Some("session_scoped") && !n.inference.supportsSessionIds
    case SessionResetNeedsIds => n.inference.resetScope == Some("session") && !n.inference.supportsSessionIds
    case _ => false
  }

  /** The violation reported is the first broken rule. */
  lemma ViolationIsFirst(n: Normalized, r: nat)
    requires r < |RULES|
    ensures Violation(n) == Some(RULES[r]) <==> Broken(n, RULES[r]) && forall j :: 0 <= j < r ==> !Broken(n, RULES[j])
  {
    var broken := (j: nat) requires j < |RULES| => Broken(n, RULES[j]);
    assert broken(0) <==> n.batching.supported && n.batching.semantics.None?;
    assert broken(1) <==> n.batching.supported && n.batching.slotIsolation.None?;
    assert broken(2) <==> n.batching.supported && n.batching.maxBatchSize < 2;
    assert broken(3) <==> n.batching.semantics == Some("native") && n.batching.slotIsolation.None?;
    assert broken(4) <==> n.inference.scope == Some("session_scoped") && !n.inference.supportsSessionIds;
    assert broken(5) <==> n.inference.resetScope == Some("session") && !n.inference.supportsSessionIds;
    assert (forall j :: 0 <= j < r ==> !Broken(n, RULES[j])) <==> forall j: nat :: j < r ==> !broken(j);
  }
}
