/** The event-stream check of a staged recording: one pass over the events with a dictionary per
    kind of state, against a specification over pairs of events. */
module EpisodeEvents {
  import opened Outcomes

  /** A textual field: absent, null, or a string. */
  datatype Text = Absent | Null | Str(text: string) {
    function Get(): Option<string> {
      if Str? then Some(text) else None
    }
  }

  /** A numeric field: absent, an integer, or something else. */
  datatype Count = NoCount | Int(value: int) | NotInt

  datatype Event = Event(
    sessionId: Text, time: Count, sequence: Count, source: Text, hasSchemaVersion: bool, feature: Text)

  /** The declared features, each with its integer maximum age if it has one. */
  datatype Manifest = Manifest(sessionId: Option<string>, features: map<string, Option<int>>)

  datatype Complaint =
    | EmptyStream
    | MissingField(index: nat)
    | IdentityBreak(index: nat)
    | TimeWentBack(index: nat)
    | SequenceNotIncreasing(index: nat)
    | Stale(index: nat)
    | NeverRecorded(feature: string)

  predicate Complete(e: Event) {
    !e.sessionId.Absent? && !e.time.NoCount? && !e.sequence.NoCount? && !e.source.Absent? && e.hasSchemaVersion
  }

  // ---------------------------------------------------------------- the pairwise specification

  /** The two events are of one source, or neither names one. */
  predicate SameSource(a: Event, b: Event) {
    a.source == b.source || (!a.source.Str? && !b.source.Str?)
  }

  predicate TimeOrdered(a: Event, b: Event) {
    SameSource(a, b) && a.time.Int? && b.time.Int? ==> a.time.value <= b.time.value
  }

  predicate SequenceOrdered(a: Event, b: Event) {
    SameSource(a, b) && a.sequence.Int? && b.sequence.Int? ==> a.sequence.value < b.sequence.value
  }

  /** Integer times of one source never decrease between any two of its events. */
  ghost predicate TimesNeverDecrease(events: seq<Event>) {
    forall i, j :: 0 <= i < j < |events| ==> TimeOrdered(events[i], events[j])
  }

  /** Integer sequence numbers of one source strictly increase between any two of its events. */
  ghost predicate SequencesIncrease(events: seq<Event>) {
    forall i, j :: 0 <= i < j < |events| ==> SequenceOrdered(events[i], events[j])
  }

  predicate IsSample(e: Event, feature: string) {
    e.feature == Str(feature) && e.time.Int?
  }

  /** The integer times at which a feature was sampled, in stream order. */
  function Samples(events: seq<Event>, feature: string): seq<int> {
    if events == [] then []
    else
      var last := events[|events| - 1];
      Samples(events[..|events| - 1], feature) + if IsSample(last, feature) then [last.time.value] else []
  }

  ghost predicate StepsWithin(times: seq<int>, age: int) {
    forall k :: 0 <= k < |times| - 1 ==> times[k + 1] - times[k] <= age
  }

  function MaxAge(m: Manifest, feature: string): Option<int> {
    if feature in m.features then m.features[feature] else None
  }

  ghost predicate SamplesFresh(m: Manifest, events: seq<Event>) {
    forall f :: f in m.features && m.features[f].Some? ==> StepsWithin(Samples(events, f), m.features[f].value)
  }

  ghost predicate Covered(m: Manifest, events: seq<Event>) {
    forall f :: f in m.features ==> exists i :: 0 <= i < |events| && events[i].feature == Str(f)
  }

  ghost predicate Identified(m: Manifest, events: seq<Event>) {
    forall i :: 0 <= i < |events| ==>
      && events[i].sessionId == (if m.sessionId.Some? then Str(m.sessionId.value) else Null)
      && events[i].source != Absent && events[i].time != NoCount && events[i].sequence != NoCount
      && events[i].hasSchemaVersion
  }

  /** What an accepted stream is. */
  ghost predicate Acceptable(m: Manifest, events: seq<Event>) {
    && events != [] && Identified(m, events)
    && TimesNeverDecrease(events) && SequencesIncrease(events)
    && SamplesFresh(m, events) && Covered(m, events)
  }

  // ---------------------------------------------------------------- what the dictionaries hold

  function LastTime(events: seq<Event>, source: Option<string>): Option<int> {
    if events == [] then None
    else
      var last := events[|events| - 1];
      if last.source.Get() == source && last.time.Int? then Some(last.time.value)
      else LastTime(events[..|events| - 1], source)
  }

  function LastSequence(events: seq<Event>, source: Option<string>): Option<int> {
    if events == [] then None
    else
      var last := events[|events| - 1];
      if last.source.Get() == source && last.sequence.Int? then Some(last.sequence.value)
      else LastSequence(events[..|events| - 1], source)
  }

  /** In a stream whose times never decrease, the last time of a source bounds all of them. */
  lemma {:induction false} LastTimeIsGreatest(events: seq<Event>, source: Option<string>)
    requires TimesNeverDecrease(events)
    ensures forall i :: 0 <= i < |events| && events[i].source.Get() == source && events[i].time.Int? ==>
              LastTime(events, source).Some? && events[i].time.value <= LastTime(events, source).value
    ensures LastTime(events, source).Some? ==>
              exists i :: 0 <= i < |events| && events[i].source.Get() == source && events[i].time == Int(LastTime(events, source).value)
  {
    if events == [] {
    } else {
      var init := events[..|events| - 1];
      assert forall i :: 0 <= i < |init| ==> init[i] == events[i];
      LastTimeIsGreatest(init, source);
    }
  }

  lemma {:induction false} LastSequenceIsGreatest(events: seq<Event>, source: Option<string>)
    requires SequencesIncrease(events)
    ensures forall i :: 0 <= i < |events| && events[i].source.Get() == source && events[i].sequence.Int? ==>
              LastSequence(events, source).Some? && events[i].sequence.value <= LastSequence(events, source).value
    ensures LastSequence(events, source).Some? ==>
              exists i :: 0 <= i < |events| && events[i].source.Get() == source && events[i].sequence == Int(LastSequence(events, source).value)
  {
    if events == [] {
    } else {
      var init := events[..|events| - 1];
      assert forall i :: 0 <= i < |init| ==> init[i] == events[i];
      LastSequenceIsGreatest(init, source);
    }
  }

  predicate TimeOk(events: seq<Event>, e: Event) {
    var last := LastTime(events, e.source.Get());
    e.time.Int? && last.Some? ==> e.time.value >= last.value
  }

  predicate SequenceOk(events: seq<Event>, e: Event) {
    var last := LastSequence(events, e.source.Get());
    e.sequence.Int? && last.Some? ==> e.sequence.value > last.value
  }

  lemma TimesExtend(events: seq<Event>, e: Event)
    ensures TimesNeverDecrease(events + [e]) <==> TimesNeverDecrease(events) && TimeOk(events, e)
  {
    var all := events + [e];
    if TimesNeverDecrease(events) {
      LastTimeIsGreatest(events, e.source.Get());
    }
    if TimesNeverDecrease(all) {
      assert forall i :: 0 <= i < |events| ==> all[i] == events[i];
      assert TimesNeverDecrease(events);
      assert forall i :: 0 <= i < |events| ==> TimeOrdered(all[i], all[|events|]);
    }
  }

  lemma SequencesExtend(events: seq<Event>, e: Event)
    ensures SequencesIncrease(events + [e]) <==> SequencesIncrease(events) && SequenceOk(events, e)
  {
    var all := events + [e];
    if SequencesIncrease(events) {
      LastSequenceIsGreatest(events, e.source.Get());
    }
    if SequencesIncrease(all) {
      assert forall i :: 0 <= i < |events| ==> all[i] == events[i];
      assert SequencesIncrease(events);
      assert forall i :: 0 <= i < |events| ==> SequenceOrdered(all[i], all[|events|]);
    }
  }

  function LastSample(events: seq<Event>, feature: string): Option<int> {
    var s := Samples(events, feature);
    if s == [] then None else Some(s[|s| - 1])
  }

  predicate FreshOk(m: Manifest, events: seq<Event>, e: Event) {
    e.feature.Str? && e.time.Int? && MaxAge(m, e.feature.text).Some? && LastSample(events, e.feature.text).Some? ==>
      e.time.value - LastSample(events, e.feature.text).value <= MaxAge(m, e.feature.text).value
  }

  lemma StepsExtend(times: seq<int>, t: int, age: int)
    ensures StepsWithin(times + [t], age) <==> StepsWithin(times, age) && (times != [] ==> t - times[|times| - 1] <= age)
  {
    var all := times + [t];
    if StepsWithin(all, age) {
      forall k | 0 <= k < |times| - 1
        ensures times[k + 1] - times[k] <= age
      {
        assert all[k + 1] - all[k] <= age;
      }
      if times != [] {
        assert all[(|times| - 1) + 1] - all[|times| - 1] <= age;
      }
    }
  }

  lemma SamplesExtend(events: seq<Event>, e: Event, f: string)
    ensures Samples(events + [e], f) == Samples(events, f) + if IsSample(e, f) then [e.time.value] else []
  {
    assert (events + [e])[..|events|] == events;
    assert Samples(events, f) + [] == Samples(events, f);
  }

  lemma FreshExtend(m: Manifest, events: seq<Event>, e: Event)
    ensures SamplesFresh(m, events + [e]) <==> SamplesFresh(m, events) && FreshOk(m, events, e)
  {
    forall f | f in m.features && m.features[f].Some?
      ensures StepsWithin(Samples(events + [e], f), m.features[f].value) <==>
              && StepsWithin(Samples(events, f), m.features[f].value)
              && (IsSample(e, f) ==> FreshOk(m, events, e))
    {
      SamplesExtend(events, e, f);
      if IsSample(e, f) {
        StepsExtend(Samples(events, f), e.time.value, m.features[f].value);
        assert e.feature.text == f && MaxAge(m, f) == m.features[f];
      } else {
        assert Samples(events + [e], f) == Samples(events, f);
      }
    }
  }

  /** Freshness over a whole recording: `n + 1` samples of a feature span at most `n` ages. */
  lemma {:induction false} FreshSamplesSpan(times: seq<int>, age: int)
    requires times != [] && StepsWithin(times, age)
    ensures times[|times| - 1] - times[0] <= (|times| - 1) * age
  {
    if |times| <= 1 {
    } else {
      var init := times[..|times| - 1];
      forall k | 0 <= k < |init| - 1
        ensures init[k + 1] - init[k] <= age
      {
        assert times[k + 1] - times[k] <= age;
      }
      FreshSamplesSpan(init, age);
      assert times[(|times| - 2) + 1] - times[|times| - 2] <= age;
      assert (|times| - 1) * age == (|init| - 1) * age + age;
    }
  }

  lemma AcceptedSamplesSpan(m: Manifest, events: seq<Event>, feature: string)
    requires Acceptable(m, events) && MaxAge(m, feature).Some? && Samples(events, feature) != []
    ensures var s := Samples(events, feature); s[|s| - 1] - s[0] <= (|s| - 1) * MaxAge(m, feature).value
  {
    FreshSamplesSpan(Samples(events, feature), MaxAge(m, feature).value);
  }

  // ---------------------------------------------------------------- the single pass

  ghost predicate PrefixFine(m: Manifest, events: seq<Event>) {
    Identified(m, events) && TimesNeverDecrease(events) && SequencesIncrease(events) && SamplesFresh(m, events)
  }

  lemma IdentifiedExtend(m: Manifest, events: seq<Event>, e: Event)
    ensures Identified(m, events + [e]) <==> Identified(m, events) && Complete(e) && e.sessionId.Get() == m.sessionId
  {
    var all := events + [e];
    assert forall i :: 0 <= i < |events| ==> all[i] == events[i];
    assert all[|events|] == e;
  }

  /** What the next event must meet, given the events before it. */
  ghost predicate Fits(m: Manifest, events: seq<Event>, e: Event) {
    && Complete(e) && e.sessionId.Get() == m.sessionId
    && TimeOk(events, e) && SequenceOk(events, e) && FreshOk(m, events, e)
  }

  lemma PrefixExtend(m: Manifest, events: seq<Event>, e: Event)
    ensures PrefixFine(m, events + [e]) <==> PrefixFine(m, events) && Fits(m, events, e)
  {
    IdentifiedExtend(m, events, e);
    TimesExtend(events, e);
    SequencesExtend(events, e);
    FreshExtend(m, events, e);
  }

  function Lookup<K(==), V>(m: map<K, V>, k: K): Option<V> {
    if k in m then Some(m[k]) else None
  }

  ghost predicate TracksTimes(d: map<Option<string>, int>, events: seq<Event>) {
    forall s :: Lookup(d, s) == LastTime(events, s)
  }

  ghost predicate TracksSequences(d: map<Option<string>, int>, events: seq<Event>) {
    forall s :: Lookup(d, s) == LastSequence(events, s)
  }

  ghost predicate TracksSamples(d: map<string, int>, events: seq<Event>) {
    forall f :: Lookup(d, f) == LastSample(events, f)
  }

  ghost predicate TracksFeatures(seen: set<string>, events: seq<Event>) {
    forall f :: f in seen <==> exists j :: 0 <= j < |events| && events[j].feature == Str(f)
  }

  lemma TimesTracked(d: map<Option<string>, int>, events: seq<Event>, e: Event)
    requires TracksTimes(d, events)
    ensures TracksTimes(if e.time.Int? then d[e.source.Get() := e.time.value] else d, events + [e])
  {
    var d' := if e.time.Int? then d[e.source.Get() := e.time.value] else d;
    assert (events + [e])[..|events|] == events;
    forall s
      ensures Lookup(d', s) == LastTime(events + [e], s)
    {
      assert Lookup(d, s) == LastTime(events, s);
    }
  }

  lemma SequencesTracked(d: map<Option<string>, int>, events: seq<Event>, e: Event)
    requires TracksSequences(d, events)
    ensures TracksSequences(if e.sequence.Int? then d[e.source.Get() := e.sequence.value] else d, events + [e])
  {
    var d' := if e.sequence.Int? then d[e.source.Get() := e.sequence.value] else d;
    assert (events + [e])[..|events|] == events;
    forall s
      ensures Lookup(d', s) == LastSequence(events + [e], s)
    {
      assert Lookup(d, s) == LastSequence(events, s);
    }
  }

  lemma SamplesTracked(d: map<string, int>, events: seq<Event>, e: Event)
    requires TracksSamples(d, events)
    ensures TracksSamples(if e.feature.Str? && e.time.Int? then d[e.feature.text := e.time.value] else d, events + [e])
  {
    var d' := if e.feature.Str? && e.time.Int? then d[e.feature.text := e.time.value] else d;
    forall f
      ensures Lookup(d', f) == LastSample(events + [e], f)
    {
      SamplesExtend(events, e, f);
      assert Lookup(d, f) == LastSample(events, f);
    }
  }

  lemma FeaturesTracked(seen: set<string>, events: seq<Event>, e: Event)
    requires TracksFeatures(seen, events)
    ensures TracksFeatures(if e.feature.Str? then seen + {e.feature.text} else seen, events + [e])
  {
    var all := events + [e];
    var seen' := if e.feature.Str? then seen + {e.feature.text} else seen;
    forall f
      ensures f in seen' <==> exists j :: 0 <= j < |all| && all[j].feature == Str(f)
    {
      assert forall j :: 0 <= j < |events| ==> all[j] == events[j];
      assert all[|events|] == e;
      assert f in seen <==> exists j :: 0 <= j < |events| && events[j].feature == Str(f);
      if f in seen {
        var j :| 0 <= j < |events| && events[j].feature == Str(f);
        assert all[j].feature == Str(f);
      }
    }
  }

  /** Nothing to complain about in an event, given what the dictionaries hold. */
  ghost predicate Clean(m: Manifest, e: Event, lastTime: map<Option<string>, int>,
                        lastSequence: map<Option<string>, int>, lastSample: map<string, int>) {
    && Complete(e) && e.sessionId.Get() == m.sessionId
    && (e.time.Int? && e.source.Get() in lastTime ==> e.time.value >= lastTime[e.source.Get()])
    && (e.sequence.Int? && e.source.Get() in lastSequence ==> e.sequence.value > lastSequence[e.source.Get()])
    && (e.feature.Str? && e.time.Int? && MaxAge(m, e.feature.text).Some? && e.feature.text in lastSample ==>
          e.time.value - lastSample[e.feature.text] <= MaxAge(m, e.feature.text).value)
  }

  /** What a complaint about event `i` says, in terms of the dictionaries. */
  predicate Noted(m: Manifest, e: Event, i: nat, lastTime: map<Option<string>, int>,
                  lastSequence: map<Option<string>, int>, lastSample: map<string, int>, c: Complaint) {
    match c
    case MissingField(j) => j == i && !Complete(e)
    case IdentityBreak(j) => j == i && e.sessionId.Get() != m.sessionId
    case TimeWentBack(j) => j == i && e.time.Int? && e.source.Get() in lastTime && e.time.value < lastTime[e.source.Get()]
    case SequenceNotIncreasing(j) =>
      j == i && e.sequence.Int? && e.source.Get() in lastSequence && e.sequence.value <= lastSequence[e.source.Get()]
    case Stale(j) =>
      && j == i && e.feature.Str? && e.time.Int? && e.feature.text in lastSample && MaxAge(m, e.feature.text).Some?
      && e.time.value - lastSample[e.feature.text] > MaxAge(m, e.feature.text).value
    case _ => false
  }

  /** What a complaint about an event says, in terms of the events before it. */
  predicate Complained(m: Manifest, events: seq<Event>, c: Complaint) {
    match c
    case MissingField(j) => j < |events| && !Complete(events[j])
    case IdentityBreak(j) => j < |events| && events[j].sessionId.Get() != m.sessionId
    case TimeWentBack(j) => j < |events| && !TimeOk(events[..j], events[j])
    case SequenceNotIncreasing(j) => j < |events| && !SequenceOk(events[..j], events[j])
    case Stale(j) => j < |events| && !FreshOk(m, events[..j], events[j])
    case _ => false
  }

  /** What every complaint about a stream says. */
  ghost predicate IsFlaw(m: Manifest, events: seq<Event>, c: Complaint) {
    match c
    case EmptyStream => events == []
    case NeverRecorded(f) => events != [] && f in m.features && forall i :: 0 <= i < |events| ==> events[i].feature != Str(f)
    case _ => Complained(m, events, c)
  }

  /** The complaints about one event, given what the dictionaries hold. */
  method CheckEvent(m: Manifest, e: Event, i: nat, lastTime: map<Option<string>, int>,
                    lastSequence: map<Option<string>, int>, lastSample: map<string, int>)
    returns (found: seq<Complaint>)
    ensures found == [] <==> Clean(m, e, lastTime, lastSequence, lastSample)
    ensures forall c :: c in found <==> Noted(m, e, i, lastTime, lastSequence, lastSample, c)
  {
    found := [];
    if !Complete(e) {
      found := found + [MissingField(i)];
    }
    if e.sessionId.Get() != m.sessionId {
      found := found + [IdentityBreak(i)];
    }
    var src := e.source.Get();
    if e.time.Int? && src in lastTime && e.time.value < lastTime[src] {
      found := found + [TimeWentBack(i)];
    }
    if e.sequence.Int? && src in lastSequence && e.sequence.value <= lastSequence[src] {
      found := found + [SequenceNotIncreasing(i)];
    }
    if e.feature.Str? {
      var age := MaxAge(m, e.feature.text);
      if age.Some? && e.feature.text in lastSample && e.time.Int? && e.time.value - lastSample[e.feature.text] > age.value {
        found := found + [Stale(i)];
      }
    }
  }

  /** Dictionaries that track the prefix decide whether the next event fits. */
  lemma DictionariesDecide(m: Manifest, events: seq<Event>, e: Event, lastTime: map<Option<string>, int>,
                           lastSequence: map<Option<string>, int>, lastSample: map<string, int>)
    requires TracksTimes(lastTime, events) && TracksSequences(lastSequence, events) && TracksSamples(lastSample, events)
    ensures Fits(m, events, e) <==> Clean(m, e, lastTime, lastSequence, lastSample)
  {
    var src := e.source.Get();
    assert Lookup(lastTime, src) == LastTime(events, src);
    assert Lookup(lastSequence, src) == LastSequence(events, src);
    if e.feature.Str? {
      assert Lookup(lastSample, e.feature.text) == LastSample(events, e.feature.text);
    }
  }

  /** One more event adds exactly the complaints noted about it. */
  lemma ComplainedExtend(m: Manifest, events: seq<Event>, e: Event, lastTime: map<Option<string>, int>,
                         lastSequence: map<Option<string>, int>, lastSample: map<string, int>, c: Complaint)
    requires TracksTimes(lastTime, events) && TracksSequences(lastSequence, events) && TracksSamples(lastSample, events)
    ensures Complained(m, events + [e], c) <==>
            Complained(m, events, c) || Noted(m, e, |events|, lastTime, lastSequence, lastSample, c)
  {
    var all := events + [e];
    assert all[..|events|] == events;
    assert forall j :: 0 <= j < |events| ==> all[j] == events[j] && all[..j] == events[..j];
    var src := e.source.Get();
    assert Lookup(lastTime, src) == LastTime(events, src);
    assert Lookup(lastSequence, src) == LastSequence(events, src);
    if e.feature.Str? {
      assert Lookup(lastSample, e.feature.text) == LastSample(events, e.feature.text);
    }
  }

  /** `validate_episode_events`: the single pass accepts exactly the streams of the pairwise
      specification. `declared` lists the manifest's features. */
  method ValidateEvents(m: Manifest, declared: seq<string>, events: seq<Event>) returns (ok: bool, errors: seq<Complaint>)
    requires forall f :: f in declared <==> f in m.features
    ensures ok <==> errors == []
    ensures ok <==> Acceptable(m, events)
    ensures forall c :: c in errors <==> IsFlaw(m, events, c)
  {
    if events == [] {
      return false, [EmptyStream];
    }
    errors := [];
    var lastTime: map<Option<string>, int> := map[];
    var lastSequence: map<Option<string>, int> := map[];
    var lastSample: map<string, int> := map[];
    var seen: set<string> := {};
    for i := 0 to |events|
      invariant errors == [] <==> PrefixFine(m, events[..i])
      invariant forall c :: c in errors <==> Complained(m, events[..i], c)
      invariant TracksTimes(lastTime, events[..i]) && TracksSequences(lastSequence, events[..i])
      invariant TracksSamples(lastSample, events[..i]) && TracksFeatures(seen, events[..i])
    {
      var e := events[i];
      ghost var before := events[..i];
      assert events[..i + 1] == before + [e];
      PrefixExtend(m, before, e);
      DictionariesDecide(m, before, e, lastTime, lastSequence, lastSample);
      var found := CheckEvent(m, e, i, lastTime, lastSequence, lastSample);
      forall c
        ensures c in errors + found <==> Complained(m, before + [e], c)
      {
        ComplainedExtend(m, before, e, lastTime, lastSequence, lastSample, c);
      }
      errors := errors + found;
      TimesTracked(lastTime, before, e);
      SequencesTracked(lastSequence, before, e);
      SamplesTracked(lastSample, before, e);
      FeaturesTracked(seen, before, e);
      if e.time.Int? {
        lastTime := lastTime[e.source.Get() := e.time.value];
      }
      if e.sequence.Int? {
        lastSequence := lastSequence[e.source.Get() := e.sequence.value];
      }
      if e.feature.Str? {
        seen := seen + {e.feature.text};
        if e.time.Int? {
          lastSample := lastSample[e.feature.text := e.time.value];
        }
      }
    }
    assert events[..|events|] == events;
    var missing := Unseen(declared, seen);
    CoveredMeansSeen(m, declared, events, seen);
    errors := errors + missing;
    ok := errors == [];
  }

  lemma CoveredMeansSeen(m: Manifest, declared: seq<string>, events: seq<Event>, seen: set<string>)
    requires TracksFeatures(seen, events)
    requires forall f :: f in declared <==> f in m.features
    ensures Covered(m, events) <==> forall f :: f in declared ==> f in seen
  {
  }

  method Unseen(declared: seq<string>, seen: set<string>) returns (missing: seq<Complaint>)
    ensures missing == [] <==> forall f :: f in declared ==> f in seen
    ensures forall c :: c in missing <==> c.NeverRecorded? && c.feature in declared && c.feature !in seen
  {
    missing := [];
    for i := 0 to |declared|
      invariant missing == [] <==> forall j :: 0 <= j < i ==> declared[j] in seen
      invariant forall c :: c in missing <==> c.NeverRecorded? && c.feature in declared[..i] && c.feature !in seen
    {
      assert declared[..i + 1] == declared[..i] + [declared[i]];
      if declared[i] !in seen {
        missing := missing + [NeverRecorded(declared[i])];
      }
    }
  }
}
