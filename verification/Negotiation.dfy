/** Protocol parsing and the runner negotiation primitive. */
module Negotiation {
  import opened Outcomes

  // ---------------------------------------------------------------- protocol names

  predicate IsDigit(c: char) {
    '0' <= c <= '9'
  }

  /** The characters of a protocol family; the dot and digits are among them. */
  predicate IsFamilyChar(c: char) {
    'a' <= c <= 'z' || 'A' <= c <= 'Z' || IsDigit(c) || c == '_' || c == '.' || c == '-'
  }

  predicate IsSpace(c: char) {
    c == ' ' || '\t' <= c <= '\r' || c as int == 28 || c as int == 29 || c as int == 30 || c as int == 31
  }

  lemma FamilyAlphabet(c: char)
    ensures IsFamilyChar(c) <==>
            c in {'a', 'b', 'c', 'd', 'e', 'f', 'g', 'h', 'i', 'j', 'k', 'l', 'm', 'n', 'o', 'p', 'q', 'r', 's', 't', 'u', 'v', 'w',
                  'x', 'y', 'z', 'A', 'B', 'C', 'D', 'E', 'F', 'G', 'H', 'I', 'J', 'K', 'L', 'M', 'N', 'O', 'P', 'Q', 'R', 'S', 'T',
                  'U', 'V', 'W', 'X', 'Y', 'Z', '0', '1', '2', '3', '4', '5', '6', '7', '8', '9', '_', '.', '-'}
  {
    var code := c as int;
    assert 97 <= code <= 122 ==> c == (97 + (code - 97)) as char;
  }

  /** Tab, line feed, vertical tab, form feed, carriage return, the four separators and the space. */
  lemma SpaceCodes(c: char)
    ensures IsSpace(c) <==> c as int in {9, 10, 11, 12, 13, 28, 29, 30, 31, 32}
  {
    assert ' ' as int == 32 && '\t' as int == 9 && '\r' as int == 13;
  }

  predicate IsFamily(s: string) {
    s != "" && forall i :: 0 <= i < |s| ==> IsFamilyChar(s[i])
  }

  predicate IsNumeral(s: string) {
    s != "" && forall i :: 0 <= i < |s| ==> IsDigit(s[i])
  }

  function StripLeft(s: string): string {
    if s != "" && IsSpace(s[0]) then StripLeft(s[1..]) else s
  }

  function StripRight(s: string): string {
    if s != "" && IsSpace(s[|s| - 1]) then StripRight(s[..|s| - 1]) else s
  }

  function Strip(s: string): string {
    StripRight(StripLeft(s))
  }

  function DigitValue(c: char): nat
    requires IsDigit(c)
  {
    c as int - '0' as int
  }

  /** `int(s)` of a decimal numeral, leading zeros allowed. */
  function NumeralValue(s: string): nat
    requires forall i :: 0 <= i < |s| ==> IsDigit(s[i])
  {
    if s == "" then 0 else 10 * NumeralValue(s[..|s| - 1]) + DigitValue(s[|s| - 1])
  }

  datatype Protocol = Protocol(family: string, major: nat)

  /** `t` splits as a family, `.v` and a numeral with the family ending at `i`. */
  predicate SplitsAt(t: string, i: nat) {
    0 < i && i + 2 < |t| && IsFamily(t[..i]) && t[i] == '.' && t[i + 1] == 'v' && IsNumeral(t[i + 2..])
  }

  /** The lazy match of the family: the first split from position `i` on. */
  function FirstSplit(t: string, i: nat): Option<nat>
    requires i <= |t|
    decreases |t| - i
  {
    if i == |t| then None
    else if SplitsAt(t, i) then Some(i)
    else FirstSplit(t, i + 1)
  }

  lemma {:induction false} FirstSplitMeaning(t: string, i: nat)
    requires i <= |t|
    ensures FirstSplit(t, i).Some? ==> i <= FirstSplit(t, i).value < |t| && SplitsAt(t, FirstSplit(t, i).value)
    ensures FirstSplit(t, i).None? ==> forall j :: i <= j < |t| ==> !SplitsAt(t, j)
    decreases |t| - i
  {
    if i == |t| || SplitsAt(t, i) {
    } else {
      FirstSplitMeaning(t, i + 1);
    }
  }

  /** `parse_protocol`; anything but a string has no protocol. */
  function ParseProtocol(version: Option<string>): Option<Protocol> {
    if version.None? then None
    else
      var t := Strip(version.value);
      FirstSplitMeaning(t, 0);
      var split := FirstSplit(t, 0);
      if split.None? then None
      else Some(Protocol(t[..split.value], NumeralValue(t[split.value + 2..])))
  }

  lemma SplitOfConcat(family: string, numeral: string)
    requires IsFamily(family) && IsNumeral(numeral)
    ensures SplitsAt(family + ".v" + numeral, |family|)
    ensures (family + ".v" + numeral)[..|family|] == family && (family + ".v" + numeral)[|family| + 2..] == numeral
  {
    var t := family + ".v" + numeral;
    assert t[..|family|] == family && t[|family| + 2..] == numeral;
  }

  /** A text splits in one way only: past the right `.v` there are digits, and a digit is not `v`. */
  lemma SplitIsUnique(t: string, i: nat, j: nat)
    requires SplitsAt(t, i) && SplitsAt(t, j)
    ensures i == j
  {
    NumeralHasNoV(t, i);
    NumeralHasNoV(t, j);
  }

  lemma NumeralHasNoV(t: string, i: nat)
    requires SplitsAt(t, i)
    ensures forall k :: i + 2 <= k < |t| ==> t[k] != 'v'
  {
    assert forall k :: i + 2 <= k < |t| ==> t[k] == t[i + 2..][k - (i + 2)];
  }

  /** Parsing in one sentence: the stripped text is a family, `.v` and a numeral. */
  lemma ParseMeaning(version: string, p: Protocol)
    ensures ParseProtocol(Some(version)) == Some(p) <==>
            exists numeral :: IsFamily(p.family) && IsNumeral(numeral) && NumeralValue(numeral) == p.major
                              && Strip(version) == p.family + ".v" + numeral
  {
    var t := Strip(version);
    FirstSplitMeaning(t, 0);
    if ParseProtocol(Some(version)) == Some(p) {
      var i := FirstSplit(t, 0).value;
      assert t == t[..i] + ".v" + t[i + 2..];
    }
    if numeral :| IsFamily(p.family) && IsNumeral(numeral) && NumeralValue(numeral) == p.major
                  && t == p.family + ".v" + numeral {
      SplitOfConcat(p.family, numeral);
      SplitIsUnique(t, FirstSplit(t, 0).value, |p.family|);
    }
  }

  // ---------------------------------------------------------------- printing and round trip

  /** The decimal numeral of a number. */
  function Print(n: nat): (s: string)
    ensures IsNumeral(s)
  {
    if n < 10 then [('0' as int + n) as char] else Print(n / 10) + [('0' as int + n % 10) as char]
  }

  lemma {:induction false} PrintedValue(n: nat)
    ensures NumeralValue(Print(n)) == n
  {
    if n < 10 {
    } else {
      PrintedValue(n / 10);
      assert Print(n)[..|Print(n)| - 1] == Print(n / 10);
    }
  }

  function PrintProtocol(p: Protocol): string {
    p.family + ".v" + Print(p.major)
  }

  lemma NothingToStrip(s: string)
    requires s != "" && !IsSpace(s[0]) && !IsSpace(s[|s| - 1])
    ensures Strip(s) == s
  {
  }

  /** Parsing undoes printing, for every family over the allowed characters, also one that
      itself contains `.v1`, and every major. */
  lemma ParseOfPrint(p: Protocol)
    requires IsFamily(p.family)
    ensures ParseProtocol(Some(PrintProtocol(p))) == Some(p)
  {
    var s := PrintProtocol(p);
    PrintedValue(p.major);
    assert IsFamilyChar(s[0]) && IsDigit(s[|s| - 1]);
    NothingToStrip(s);
    ParseMeaning(s, p);
  }

  // ---------------------------------------------------------------- protocol negotiation

  datatype NegotiationError =
    | InvalidMinimum | MalformedRunner | FamilyDiffers | BelowMinimum | UndeclaredCompatibility
    | NothingAnnounced | NotPluginSupported | NotAnnounced | NoCommonEncoding | UnsupportedPolicy

  function ExpectedProtocol(minimum: string, runner: Option<string>, compatibleWith: seq<string>): Result<string, NegotiationError> {
    var min := ParseProtocol(Some(minimum));
    if min.None? then Failure(InvalidMinimum)
    else
      var announced := ParseProtocol(runner);
      if announced.None? then Failure(MalformedRunner)
      else if announced.value.family != min.value.family then Failure(FamilyDiffers)
      else if announced.value.major < min.value.major then Failure(BelowMinimum)
      else if announced.value.major > min.value.major
              && !exists i :: 0 <= i < |compatibleWith| && ParseProtocol(Some(compatibleWith[i])) == min
      then Failure(UndeclaredCompatibility)
      else Success(runner.value)
  }

  /** On well-formed names the rule reads off the printed protocols: one family, not older
      than the minimum, and newer only with the minimum declared compatible. */
  lemma ExpectedProtocolOnNames(minimum: Protocol, runner: Protocol, compatible: seq<Protocol>)
    requires IsFamily(minimum.family) && IsFamily(runner.family)
    requires forall i :: 0 <= i < |compatible| ==> IsFamily(compatible[i].family)
    ensures var names := seq(|compatible|, i requires 0 <= i < |compatible| => PrintProtocol(compatible[i]));
            var r := ExpectedProtocol(PrintProtocol(minimum), Some(PrintProtocol(runner)), names);
            && (r.Success? <==>
                  && runner.family == minimum.family
                  && (runner.major == minimum.major || (runner.major > minimum.major && minimum in compatible)))
            && (r.Success? ==> r.value == PrintProtocol(runner))
  {
    ParseOfPrint(minimum);
    ParseOfPrint(runner);
    var names := seq(|compatible|, i requires 0 <= i < |compatible| => PrintProtocol(compatible[i]));
    forall i | 0 <= i < |compatible|
      ensures ParseProtocol(Some(names[i])) == Some(compatible[i])
    {
      ParseOfPrint(compatible[i]);
    }
    assert minimum in compatible <==> exists i :: 0 <= i < |names| && ParseProtocol(Some(names[i])) == Some(minimum);
  }

  // ---------------------------------------------------------------- encoding negotiation

  function FirstAnnounced(preferences: seq<string>, announced: seq<string>): Option<string> {
    if preferences == [] then None
    else if preferences[0] in announced then Some(preferences[0])
    else FirstAnnounced(preferences[1..], announced)
  }

  function ExpectedEncoding(requested: Option<string>, announced: seq<string>, plugin: seq<string>): Result<string, NegotiationError> {
    if announced == [] then Failure(NothingAnnounced)
    else if requested.Some? && requested.value != "auto" then
      if requested.value !in plugin then Failure(NotPluginSupported)
      else if requested.value !in announced then Failure(NotAnnounced)
      else Success(requested.value)
    else
      match FirstAnnounced(plugin, announced)
      case Some(enc) => Success(enc)
      case None => Failure(NoCommonEncoding)
  }

  /** Position `k` holds the most preferred encoding that is announced. */
  ghost predicate BestAt(plugin: seq<string>, announced: seq<string>, k: int) {
    0 <= k < |plugin| && plugin[k] in announced && forall j :: 0 <= j < k ==> plugin[j] !in announced
  }

  lemma {:induction false} FirstAnnouncedIsBest(plugin: seq<string>, announced: seq<string>)
    ensures FirstAnnounced(plugin, announced).None? <==> forall k :: 0 <= k < |plugin| ==> plugin[k] !in announced
    ensures FirstAnnounced(plugin, announced).Some? ==>
              exists k :: BestAt(plugin, announced, k) && FirstAnnounced(plugin, announced) == Some(plugin[k])
  {
    if plugin == [] {
    } else {
      var rest := plugin[1..];
      FirstAnnouncedIsBest(rest, announced);
      assert forall k :: 0 <= k < |rest| ==> rest[k] == plugin[k + 1];
      if plugin[0] in announced {
        assert BestAt(plugin, announced, 0);
      } else {
        assert forall k :: 1 <= k < |plugin| ==> plugin[k] == rest[k - 1];
        if k :| BestAt(rest, announced, k) && FirstAnnounced(rest, announced) == Some(rest[k]) {
          assert BestAt(plugin, announced, k + 1);
        }
      }
    }
  }

  /** Announcing more never loses an encoding: an explicit request keeps its answer, and an
      automatic choice moves, if at all, to a more preferred one. */
  lemma AnnouncingMoreIsSafe(requested: Option<string>, announced: seq<string>, more: seq<string>, plugin: seq<string>)
    requires forall e :: e in announced ==> e in more
    requires ExpectedEncoding(requested, announced, plugin).Success?
    ensures ExpectedEncoding(requested, more, plugin).Success?
    ensures requested.Some? && requested.value != "auto" ==>
              ExpectedEncoding(requested, more, plugin) == ExpectedEncoding(requested, announced, plugin)
    ensures !(requested.Some? && requested.value != "auto") ==>
              exists k, l :: BestAt(plugin, announced, k) && BestAt(plugin, more, l) && l <= k
                && ExpectedEncoding(requested, announced, plugin) == Success(plugin[k])
                && ExpectedEncoding(requested, more, plugin) == Success(plugin[l])
  {
    assert announced[0] in announced;
    if !(requested.Some? && requested.value != "auto") {
      FirstAnnouncedIsBest(plugin, announced);
      FirstAnnouncedIsBest(plugin, more);
      var k :| BestAt(plugin, announced, k) && FirstAnnounced(plugin, announced) == Some(plugin[k]);
      assert plugin[k] in more;
      var l :| BestAt(plugin, more, l) && FirstAnnounced(plugin, more) == Some(plugin[l]);
      assert l <= k;
    }
  }

  // ---------------------------------------------------------------- the one primitive

  datatype RunnerContract = RunnerContract(protocol: string, encoding: string, policy: string)

  function NegotiateRunnerContract(policy: string, minimum: string, runner: Option<string>, compatibleWith: seq<string>,
                                   requested: Option<string>, announced: seq<string>, plugin: seq<string>): Result<RunnerContract, NegotiationError>
  {
    if policy != "minimum_compatible" then Failure(UnsupportedPolicy)
    else
      var protocol :- ExpectedProtocol(minimum, runner, compatibleWith);
      var encoding :- ExpectedEncoding(requested, announced, plugin);
      Success(RunnerContract(protocol, encoding, policy))
  }

  /** A runner that declares more compatibility and announces more encodings keeps its
      contract: the protocol is the same and the negotiation still succeeds. */
  lemma DeclaringMoreKeepsTheContract(policy: string, minimum: string, runner: Option<string>,
                                      compatibleWith: seq<string>, moreCompatible: seq<string>, requested: Option<string>,
                                      announced: seq<string>, moreAnnounced: seq<string>, plugin: seq<string>)
    requires forall e :: e in announced ==> e in moreAnnounced
    requires forall e :: e in compatibleWith ==> e in moreCompatible
    requires NegotiateRunnerContract(policy, minimum, runner, compatibleWith, requested, announced, plugin).Success?
    ensures var before := NegotiateRunnerContract(policy, minimum, runner, compatibleWith, requested, announced, plugin);
            var after := NegotiateRunnerContract(policy, minimum, runner, moreCompatible, requested, moreAnnounced, plugin);
            after.Success? && after.value.protocol == before.value.protocol && after.value.policy == before.value.policy
  {
    AnnouncingMoreIsSafe(requested, announced, moreAnnounced, plugin);
    var min := ParseProtocol(Some(minimum));
    if i :| 0 <= i < |compatibleWith| && ParseProtocol(Some(compatibleWith[i])) == min {
      assert compatibleWith[i] in moreCompatible;
    }
  }

  // ---------------------------------------------------------------- the rules in one piece

  predicate Blank(s: string) {
    forall i :: 0 <= i < |s| ==> IsSpace(s[i])
  }

  lemma {:induction false} StripLeftSplits(s: string) returns (left: string)
    ensures Blank(left) && s == left + StripLeft(s)
    ensures StripLeft(s) == "" || !IsSpace(StripLeft(s)[0])
  {
    if s != "" && IsSpace(s[0]) {
      var rest := StripLeftSplits(s[1..]);
      left := [s[0]] + rest;
      assert s == [s[0]] + s[1..];
    } else {
      left := "";
    }
  }

  lemma {:induction false} StripRightSplits(s: string) returns (right: string)
    ensures Blank(right) && s == StripRight(s) + right
    ensures StripRight(s) == "" || !IsSpace(StripRight(s)[|StripRight(s)| - 1])
  {
    if s != "" && IsSpace(s[|s| - 1]) {
      var rest := StripRightSplits(s[..|s| - 1]);
      right := rest + [s[|s| - 1]];
      assert s == s[..|s| - 1] + [s[|s| - 1]];
    } else {
      right := "";
    }
  }

  lemma {:induction false} StripLeftOf(left: string, s: string)
    requires Blank(left) && s != "" && !IsSpace(s[0])
    ensures StripLeft(left + s) == s
  {
    if left == "" {
      assert left + s == s;
    } else {
      StripLeftOf(left[1..], s);
      assert (left + s)[1..] == left[1..] + s;
    }
  }

  lemma {:induction false} StripRightOf(s: string, right: string)
    requires Blank(right) && s != "" && !IsSpace(s[|s| - 1])
    ensures StripRight(s + right) == s
  {
    if right == "" {
      assert s + right == s;
    } else {
      var k := |right| - 1;
      StripRightOf(s, right[..k]);
      assert (s + right)[..|s + right| - 1] == s + right[..k];
    }
  }

  /** A text with solid ends is what stripping leaves exactly when only blanks surround it. */
  lemma StripMeaning(s: string, t: string)
    requires t != "" && !IsSpace(t[0]) && !IsSpace(t[|t| - 1])
    ensures Strip(s) == t <==> exists left, right :: Blank(left) && Blank(right) && s == left + t + right
  {
    if Strip(s) == t {
      var left := StripLeftSplits(s);
      var right := StripRightSplits(StripLeft(s));
      assert s == left + t + right;
    }
    if left, right :| Blank(left) && Blank(right) && s == left + t + right {
      assert left + t + right == left + (t + right);
      StripLeftOf(left, t + right);
      StripRightOf(t, right);
    }
  }

  /** `text` is the protocol `p` as `numeral` writes its major, between blanks. */
  ghost predicate Writes(text: string, p: Protocol, left: string, numeral: string, right: string) {
    && Blank(left) && Blank(right) && IsFamily(p.family) && IsNumeral(numeral) && NumeralValue(numeral) == p.major
    && text == left + (p.family + ".v" + numeral) + right
  }

  ghost predicate Names(text: string, p: Protocol) {
    exists left, numeral, right :: Writes(text, p, left, numeral, right)
  }

  /** A text parses exactly to the protocol it names. */
  lemma ParsesIffNames(text: string, p: Protocol)
    ensures ParseProtocol(Some(text)) == Some(p) <==> Names(text, p)
  {
    ParseMeaning(text, p);
    forall numeral | IsFamily(p.family) && IsNumeral(numeral)
      ensures Strip(text) == p.family + ".v" + numeral <==>
              exists left, right :: Blank(left) && Blank(right) && text == left + (p.family + ".v" + numeral) + right
    {
      var t := p.family + ".v" + numeral;
      assert t[0] == p.family[0] && IsFamilyChar(p.family[0]) && IsDigit(numeral[|numeral| - 1]);
      StripMeaning(text, t);
    }
    if ParseProtocol(Some(text)) == Some(p) {
      var numeral :| IsFamily(p.family) && IsNumeral(numeral) && NumeralValue(numeral) == p.major
                     && Strip(text) == p.family + ".v" + numeral;
      var left, right :| Blank(left) && Blank(right) && text == left + (p.family + ".v" + numeral) + right;
      assert Writes(text, p, left, numeral, right);
    }
    if left, numeral, right :| Writes(text, p, left, numeral, right) {
      assert Strip(text) == p.family + ".v" + numeral;
    }
  }

  /** Leading zeros do not count. */
  lemma {:induction false} LeadingZero(s: string)
    requires IsNumeral(s)
    ensures IsNumeral("0" + s) && NumeralValue("0" + s) == NumeralValue(s)
  {
    var k := |s| - 1;
    assert ("0" + s)[..|s|] == "0" + s[..k];
    if k == 0 {
      assert "0" + s[..k] == "0" && NumeralValue("0"[..0]) == 0;
    } else {
      LeadingZero(s[..k]);
    }
  }

  /** The runner's protocol is of the minimum's family, and either as old or newer and declared
      compatible with the minimum. */
  ghost predicate Serves(minimum: Protocol, announced: Protocol, compatibleWith: seq<string>) {
    && announced.family == minimum.family
    && (|| announced.major == minimum.major
        || (announced.major > minimum.major && exists i :: 0 <= i < |compatibleWith| && Names(compatibleWith[i], minimum)))
  }

  lemma ProtocolOnParsed(minimum: string, runner: Option<string>, compatibleWith: seq<string>, name: string)
    ensures ExpectedProtocol(minimum, runner, compatibleWith) == Success(name) <==>
            && runner == Some(name)
            && ParseProtocol(Some(minimum)).Some? && ParseProtocol(Some(name)).Some?
            && Serves(ParseProtocol(Some(minimum)).value, ParseProtocol(Some(name)).value, compatibleWith)
  {
    var min := ParseProtocol(Some(minimum));
    if min.Some? {
      forall i | 0 <= i < |compatibleWith|
        ensures ParseProtocol(Some(compatibleWith[i])) == min <==> Names(compatibleWith[i], min.value)
      {
        ParsesIffNames(compatibleWith[i], min.value);
      }
    }
  }

  /** The protocol rule on arbitrary texts, well formed or not. */
  lemma ProtocolMeaning(minimum: string, runner: Option<string>, compatibleWith: seq<string>, name: string)
    ensures ExpectedProtocol(minimum, runner, compatibleWith) == Success(name) <==>
            && runner == Some(name)
            && exists m, a :: Names(minimum, m) && Names(name, a) && Serves(m, a, compatibleWith)
  {
    var min, announced := ParseProtocol(Some(minimum)), ParseProtocol(Some(name));
    ProtocolOnParsed(minimum, runner, compatibleWith, name);
    forall p
      ensures Names(minimum, p) <==> min == Some(p)
      ensures Names(name, p) <==> announced == Some(p)
    {
      ParsesIffNames(minimum, p);
      ParsesIffNames(name, p);
    }
    if min.Some? && announced.Some? {
      assert Names(minimum, min.value) && Names(name, announced.value);
    }
  }

  /** Why one well-formed protocol does not serve another. */
  lemma ProtocolRefusals(minimum: string, name: string, compatibleWith: seq<string>, m: Protocol, a: Protocol)
    requires Names(minimum, m) && Names(name, a)
    ensures var r := ExpectedProtocol(minimum, Some(name), compatibleWith);
            && (r == Failure(FamilyDiffers) <==> a.family != m.family)
            && (r == Failure(BelowMinimum) <==> a.family == m.family && a.major < m.major)
            && (r == Failure(UndeclaredCompatibility) <==>
                  a.family == m.family && a.major > m.major && !Serves(m, a, compatibleWith))
  {
    ParsesIffNames(minimum, m);
    ParsesIffNames(name, a);
    ProtocolOnParsed(minimum, Some(name), compatibleWith, name);
  }

  lemma NamesSomething(text: string)
    ensures ParseProtocol(Some(text)).Some? <==> exists p :: Names(text, p)
  {
    forall p
      ensures ParseProtocol(Some(text)) == Some(p) <==> Names(text, p)
    {
      ParsesIffNames(text, p);
    }
    if ParseProtocol(Some(text)).Some? {
      assert Names(text, ParseProtocol(Some(text)).value);
    }
  }

  /** A malformed name is refused as such, the minimum's first. */
  lemma MalformedNames(minimum: string, runner: Option<string>, compatibleWith: seq<string>)
    ensures ExpectedProtocol(minimum, runner, compatibleWith) == Failure(InvalidMinimum) <==> forall m :: !Names(minimum, m)
    ensures ExpectedProtocol(minimum, runner, compatibleWith) == Failure(MalformedRunner) <==>
            (exists m :: Names(minimum, m)) && (runner.Some? ==> forall a :: !Names(runner.value, a))
  {
    NamesSomething(minimum);
    if runner.Some? {
      NamesSomething(runner.value);
    }
  }

  /** The encoding rule: an explicit request is met to the letter or not at all, and an automatic
      one by the most preferred of the announced encodings. */
  lemma EncodingMeaning(requested: Option<string>, announced: seq<string>, plugin: seq<string>, encoding: string)
    ensures ExpectedEncoding(requested, announced, plugin) == Success(encoding) <==>
            if requested.None? || requested.value == "auto" then
              exists k :: BestAt(plugin, announced, k) && plugin[k] == encoding
            else encoding == requested.value && encoding in plugin && encoding in announced
  {
    FirstAnnouncedIsBest(plugin, announced);
    forall k, l | BestAt(plugin, announced, k) && BestAt(plugin, announced, l)
      ensures k == l
    {
    }
    if k :| BestAt(plugin, announced, k) && plugin[k] == encoding {
      assert plugin[k] in announced;
    }
  }

  /** Why there is no encoding. */
  lemma NoEncodingMeaning(requested: Option<string>, announced: seq<string>, plugin: seq<string>)
    ensures var r := ExpectedEncoding(requested, announced, plugin);
            var automatic := requested.None? || requested.value == "auto";
            && (r == Failure(NothingAnnounced) <==> announced == [])
            && (r == Failure(NotPluginSupported) <==> announced != [] && !automatic && requested.value !in plugin)
            && (r == Failure(NotAnnounced) <==>
                  announced != [] && !automatic && requested.value in plugin && requested.value !in announced)
            && (r == Failure(NoCommonEncoding) <==>
                  announced != [] && automatic && forall k :: 0 <= k < |plugin| ==> plugin[k] !in announced)
  {
    FirstAnnouncedIsBest(plugin, announced);
  }

  /** The contract exists exactly under the one supported policy with both parts negotiated, and
      carries them. */
  lemma ContractMeaning(policy: string, minimum: string, runner: Option<string>, compatibleWith: seq<string>,
                        requested: Option<string>, announced: seq<string>, plugin: seq<string>, c: RunnerContract)
    ensures NegotiateRunnerContract(policy, minimum, runner, compatibleWith, requested, announced, plugin) == Success(c) <==>
            && policy == "minimum_compatible" && c.policy == policy
            && runner == Some(c.protocol)
            && (exists m, a :: Names(minimum, m) && Names(c.protocol, a) && Serves(m, a, compatibleWith))
            && if requested.None? || requested.value == "auto" then
                 exists k :: BestAt(plugin, announced, k) && plugin[k] == c.encoding
               else c.encoding == requested.value && c.encoding in plugin && c.encoding in announced
  {
    ProtocolMeaning(minimum, runner, compatibleWith, c.protocol);
    EncodingMeaning(requested, announced, plugin, c.encoding);
  }
}
