/** The guarded egress gate: e-stop, deadman, rate limiter, adapter and supervisor, in that
    order, between an action and the robot. Clock readings, the adapter's replies and the
    supervisor's verdict are inputs of each call. */
module RealEgress {
  import opened Outcomes
  import opened RealArithmetic

  type Action = seq<real>

  datatype Config = Config(fps: real, deadmanTimeout: real, deadmanEnabled: bool, allowDisabledDeadman: bool)

  datatype Readiness = Ready | NotReady | ReadinessRaises

  datatype Verdict = Verdict(allowed: bool, action: Action)

  /** One use of the guard. A send carries what the outside world answers, should it be asked;
      the deadman and the limiter may read the clock separately. */
  datatype Command =
    | Heartbeat(now: real)
    | TriggerEstop
    | Send(running: bool, deadmanNow: real, limiterNow: real, readiness: Readiness, verdict: Verdict, adapterRaises: bool)

  datatype BlockReason =
    | SessionNotRunning | EstopActive | DeadmanDisabled | DeadmanUnhealthy | RateLimited
    | ReadinessError | AdapterNotReady | SupervisorBlocked | AdapterError

  /** What a command leads to. `time` is the limiter's reading; an action is handed to the
      adapter in `Sent` and in `Failed`, where the adapter raised on it. */
  datatype Event =
    | Beat(now: real)
    | EstopSet
    | Blocked(reason: BlockReason)
    | Failed(time: real, action: Action)
    | Sent(time: real, action: Action)
  {
    predicate Handed() {
      Sent? || Failed?
    }
  }

  datatype GuardState = GuardState(
    lastHeartbeat: Option<real>, lastSlot: Option<real>, estop: bool, deadmanLost: bool, adapterFailed: bool)

  const INITIAL := GuardState(None, None, false, false, false)

  predicate Healthy(config: Config, s: GuardState, now: real) {
    !config.deadmanEnabled || (s.lastHeartbeat.Some? && now - s.lastHeartbeat.value <= config.deadmanTimeout)
  }

  predicate SlotFree(config: Config, s: GuardState, now: real) {
    config.fps > 0.0 && (s.lastSlot.Some? ==> now - s.lastSlot.value >= Over(1.0, config.fps))
  }

  /** The gate as one transition. */
  function Step(config: Config, s: GuardState, c: Command): (GuardState, Event) {
    match c
    case Heartbeat(now) => (s.(lastHeartbeat := Some(now)), Beat(now))
    case TriggerEstop => (s.(estop := true), EstopSet)
    case Send(running, deadmanNow, limiterNow, readiness, verdict, adapterRaises) =>
      if !running then (s, Blocked(SessionNotRunning))
      else if s.estop then (s, Blocked(EstopActive))
      else if !config.deadmanEnabled && !config.allowDisabledDeadman then (s, Blocked(DeadmanDisabled))
      else if !Healthy(config, s, deadmanNow) then (s.(deadmanLost := true), Blocked(DeadmanUnhealthy))
      else if !SlotFree(config, s, limiterNow) then (s, Blocked(RateLimited))
      else
        var s' := s.(lastSlot := Some(limiterNow));
        if readiness == ReadinessRaises then (s', Blocked(ReadinessError))
        else if readiness == NotReady then (s', Blocked(AdapterNotReady))
        else if !verdict.allowed then (s', Blocked(SupervisorBlocked))
        else if adapterRaises then (s'.(adapterFailed := true), Failed(limiterNow, verdict.action))
        else (s', Sent(limiterNow, verdict.action))
  }

  function Run(config: Config, s: GuardState, cs: seq<Command>): (r: (GuardState, seq<Event>))
    ensures |r.1| == |cs|
    decreases |cs|
  {
    if cs == [] then (s, [])
    else
      var (s1, e) := Step(config, s, cs[0]);
      var (s2, es) := Run(config, s1, cs[1..]);
      (s2, [e] + es)
  }

  // ---------------------------------------------------------------- the objects

  class DeadmanSwitch {
    const timeout: real
    const enabled: bool
    var lastHeartbeat: Option<real>

    constructor (timeout: real, enabled: bool)
      ensures this.timeout == timeout && this.enabled == enabled && lastHeartbeat == None
    {
      this.timeout, this.enabled, lastHeartbeat := timeout, enabled, None;
    }

    method Beat(now: real)
      modifies this
      ensures lastHeartbeat == Some(now)
    {
      lastHeartbeat := Some(now);
    }

    /** Unhealthy is only an enabled switch whose last heartbeat is missing or too old. */
    predicate IsHealthy(now: real): (healthy: bool)
      reads this
      ensures !healthy <==> enabled && (lastHeartbeat.Some? ==> now - lastHeartbeat.value > timeout)
    {
      if !enabled then true
      else if lastHeartbeat.None? then false
      else now - lastHeartbeat.value <= timeout
    }
  }

  class RateLimiter {
    const fps: real
    var lastSendTime: Option<real>

    constructor (fps: real)
      ensures this.fps == fps && lastSendTime == None
    {
      this.fps, lastSendTime := fps, None;
    }

    /** Grants a slot at most every `1 / fps`, and remembers when. */
    method Allow(now: real) returns (granted: bool)
      modifies this
      ensures granted <==> fps > 0.0 && (old(lastSendTime).Some? ==> now - old(lastSendTime).value >= Over(1.0, fps))
      ensures lastSendTime == if granted then Some(now) else old(lastSendTime)
    {
      if fps <= 0.0 {
        return false;
      }
      if lastSendTime.None? {
        lastSendTime := Some(now);
        return true;
      }
      if now - lastSendTime.value >= Over(1.0, fps) {
        lastSendTime := Some(now);
        return true;
      }
      return false;
    }
  }

  class RealEgressGuard {
    const config: Config
    const deadman: DeadmanSwitch
    const limiter: RateLimiter
    var estopTriggered: bool
    var deadmanLost: bool
    var adapterFailed: bool
    ghost var commands: seq<Command>
    ghost var events: seq<Event>

    ghost function State(): GuardState
      reads this, deadman, limiter
    {
      GuardState(deadman.lastHeartbeat, limiter.lastSendTime, estopTriggered, deadmanLost, adapterFailed)
    }

    /** The guard is where a run of its commands leads, and its history is that run's. */
    ghost predicate Valid()
      reads this, deadman, limiter
    {
      && deadman.timeout == config.deadmanTimeout && deadman.enabled == config.deadmanEnabled
      && limiter.fps == config.fps
      && Run(config, INITIAL, commands) == (State(), events)
    }

    constructor (config: Config)
      ensures Valid() && fresh(deadman) && fresh(limiter)
      ensures this.config == config && commands == [] && events == []
    {
      this.config := config;
      deadman := new DeadmanSwitch(config.deadmanTimeout, config.deadmanEnabled);
      limiter := new RateLimiter(config.fps);
      estopTriggered, deadmanLost, adapterFailed := false, false, false;
      commands, events := [], [];
    }

    method Beat(now: real)
      requires Valid()
      modifies this, deadman
      ensures Valid() && commands == old(commands) + [Heartbeat(now)] && events == old(events) + [Event.Beat(now)]
    {
      deadman.Beat(now);
      Record(Heartbeat(now));
    }

    method Estop()
      requires Valid()
      modifies this
      ensures Valid() && commands == old(commands) + [TriggerEstop] && events == old(events) + [EstopSet]
      ensures estopTriggered
    {
      estopTriggered := true;
      Record(TriggerEstop);
    }

    /** Extends the history after the real fields have made the step. */
    ghost method Record(c: Command)
      requires deadman.timeout == config.deadmanTimeout && deadman.enabled == config.deadmanEnabled && limiter.fps == config.fps
      requires Run(config, INITIAL, commands).1 == events
      requires Step(config, Run(config, INITIAL, commands).0, c).0 == State()
      modifies this`commands, this`events
      ensures Valid() && commands == old(commands) + [c]
      ensures events == old(events) + [Step(config, old(Run(config, INITIAL, commands)).0, c).1]
    {
      RunAppend(config, INITIAL, commands, c);
      events := events + [Step(config, Run(config, INITIAL, commands).0, c).1];
      commands := commands + [c];
    }

    /** The only path from an action to the adapter. `handed` is what the adapter receives. */
    method SendAction(c: Command) returns (sent: bool, blocked: Option<BlockReason>, handed: Option<Action>)
      requires Valid() && c.Send?
      modifies this, limiter
      ensures Valid() && commands == old(commands) + [c]
      ensures events == old(events) + [Step(config, old(State()), c).1]
      ensures State() == Step(config, old(State()), c).0
      ensures match Step(config, old(State()), c).1
              case Sent(_, a) => sent && blocked.None? && handed == Some(a)
              case Failed(_, a) => !sent && blocked == Some(AdapterError) && handed == Some(a)
              case Blocked(reason) => !sent && blocked == Some(reason) && handed.None?
              case _ => false
    {
      sent, blocked, handed := false, None, None;
      if !c.running {
        blocked := Some(SessionNotRunning);
      } else if estopTriggered {
        blocked := Some(EstopActive);
      } else if !deadman.enabled && !config.allowDisabledDeadman {
        blocked := Some(DeadmanDisabled);
      } else if deadman.enabled && !deadman.IsHealthy(c.deadmanNow) {
        deadmanLost := true;
        blocked := Some(DeadmanUnhealthy);
      } else {
        var granted := limiter.Allow(c.limiterNow);
        if !granted {
          blocked := Some(RateLimited);
        } else if c.readiness == ReadinessRaises {
          blocked := Some(ReadinessError);
        } else if c.readiness == NotReady {
          blocked := Some(AdapterNotReady);
        } else if !c.verdict.allowed {
          blocked := Some(SupervisorBlocked);
        } else {
          handed := Some(c.verdict.action);
          if c.adapterRaises {
            adapterFailed := true;
            blocked := Some(AdapterError);
          } else {
            sent := true;
          }
        }
      }
      Record(c);
    }
  }

  // ---------------------------------------------------------------- runs

  lemma {:induction false} RunAppend(config: Config, s: GuardState, cs: seq<Command>, c: Command)
    ensures var (s1, es) := Run(config, s, cs);
            Run(config, s, cs + [c]) == (Step(config, s1, c).0, es + [Step(config, s1, c).1])
    decreases |cs|
  {
    if cs == [] {
      assert cs + [c] == [c] && [c][1..] == [];
      var (s1, e) := Step(config, s, c);
      assert Run(config, s1, []) == (s1, []);
      assert [e] + [] == [] + [e];
    } else {
      var (s1, e) := Step(config, s, cs[0]);
      RunAppend(config, s1, cs[1..], c);
      assert (cs + [c])[1..] == cs[1..] + [c];
      var (s2, es) := Run(config, s1, cs[1..]);
      assert [e] + (es + [Step(config, s2, c).1]) == ([e] + es) + [Step(config, s2, c).1];
    }
  }

  /** A run by its last command: the state and the events before it. */
  lemma RunLast(config: Config, cs: seq<Command>) returns (s: GuardState, es: seq<Event>)
    requires cs != []
    ensures |es| == |cs| - 1 && Run(config, INITIAL, cs[..|cs| - 1]) == (s, es)
    ensures Run(config, INITIAL, cs) ==
            (Step(config, s, cs[|cs| - 1]).0, es + [Step(config, s, cs[|cs| - 1]).1])
  {
    var init := cs[..|cs| - 1];
    RunAppend(config, INITIAL, init, cs[|cs| - 1]);
    assert init + [cs[|cs| - 1]] == cs;
    s, es := Run(config, INITIAL, init).0, Run(config, INITIAL, init).1;
  }

  /** The state before command `k`, and the event of command `k`. */
  lemma {:induction false} EventAt(config: Config, s: GuardState, cs: seq<Command>, k: nat)
    requires k < |cs|
    ensures Run(config, s, cs).1[k] == Step(config, Run(config, s, cs[..k]).0, cs[k]).1
    decreases |cs|
  {
    if k == 0 {
    } else {
      var (s1, e) := Step(config, s, cs[0]);
      EventAt(config, s1, cs[1..], k - 1);
      assert cs[..k][1..] == cs[1..][..k - 1];
    }
  }

  /** The times at which actions were handed to the adapter, in order. */
  function HandedTimes(es: seq<Event>): seq<real> {
    if es == [] then []
    else (if es[0].Handed() then [es[0].time] else []) + HandedTimes(es[1..])
  }

  ghost predicate Spaced(times: seq<real>, gap: real) {
    forall i :: 0 <= i < |times| - 1 ==> times[i + 1] - times[i] >= gap
  }

  lemma SpacedPrepend(t: real, times: seq<real>, gap: real)
    requires Spaced(times, gap) && (times != [] ==> times[0] - t >= gap)
    ensures Spaced([t] + times, gap)
  {
    var all := [t] + times;
    forall i | 0 <= i < |all| - 1
      ensures all[i + 1] - all[i] >= gap
    {
      if i > 0 {
        assert times[(i - 1) + 1] - times[i - 1] >= gap;
      }
    }
  }

  /** In every run, successive hand-overs are at least `1 / fps` apart, and after the slot the
      run starts from, whatever the clocks do and whatever is blocked after taking a slot. */
  lemma {:induction false} HandOversAreSpaced(config: Config, s: GuardState, cs: seq<Command>)
    requires config.fps > 0.0
    ensures Spaced(HandedTimes(Run(config, s, cs).1), Over(1.0, config.fps))
    ensures s.lastSlot.Some? && HandedTimes(Run(config, s, cs).1) != [] ==>
              HandedTimes(Run(config, s, cs).1)[0] - s.lastSlot.value >= Over(1.0, config.fps)
    decreases |cs|
  {
    if cs == [] {
    } else {
      var gap := Over(1.0, config.fps);
      var (s1, e) := Step(config, s, cs[0]);
      HandOversAreSpaced(config, s1, cs[1..]);
      var rest := HandedTimes(Run(config, s1, cs[1..]).1);
      assert Run(config, s, cs).1[1..] == Run(config, s1, cs[1..]).1;
      assert Run(config, s, cs).1[0] == e;
      OverTimes(1.0, config.fps);
      GapPositive(config.fps);
      if e.Handed() {
        SpacedPrepend(e.time, rest, gap);
      }
    }
  }

  lemma GapPositive(fps: real)
    requires fps > 0.0
    ensures Over(1.0, fps) > 0.0
  {
    OverTimes(1.0, fps);
    if Over(1.0, fps) <= 0.0 {
      TimesNonnegative(-Over(1.0, fps), fps);
      NegatedTimes(Over(1.0, fps), fps);
    }
  }

  lemma NegatedTimes(a: real, b: real)
    ensures Times(-a, b) == -Times(a, b)
  {
  }

  /** No limiter setting of zero or less hands anything over. */
  lemma {:induction false} NonPositiveFpsBlocksAll(config: Config, s: GuardState, cs: seq<Command>)
    requires config.fps <= 0.0
    ensures forall k :: 0 <= k < |cs| ==> !Run(config, s, cs).1[k].Handed()
    decreases |cs|
  {
    if cs == [] {
    } else {
      NonPositiveFpsBlocksAll(config, Step(config, s, cs[0]).0, cs[1..]);
    }
  }

  // ---------------------------------------------------------------- windows

  function InWindow(times: seq<real>, start: real, length: real): seq<real> {
    if times == [] then []
    else (if start <= times[0] <= start + length then [times[0]] else []) + InWindow(times[1..], start, length)
  }

  /** The window keeps every time in it, and as often as it occurs. */
  lemma {:induction false} WindowMeaning(times: seq<real>, start: real, length: real)
    ensures forall t :: multiset(InWindow(times, start, length))[t] ==
                        if start <= t <= start + length then multiset(times)[t] else 0
  {
    if times == [] {
    } else {
      WindowMeaning(times[1..], start, length);
      assert times == [times[0]] + times[1..];
    }
  }

  lemma SpacedTail(times: seq<real>, gap: real)
    requires times != [] && Spaced(times, gap)
    ensures Spaced(times[1..], gap)
    ensures |times| > 1 ==> times[1] - times[0] >= gap
  {
    forall i | 0 <= i < |times[1..]| - 1
      ensures times[1..][i + 1] - times[1..][i] >= gap
    {
      assert times[(i + 1) + 1] - times[i + 1] >= gap;
    }
    if |times| > 1 {
      assert times[0 + 1] - times[0] >= gap;
    }
  }

  lemma {:induction false} WindowMembers(times: seq<real>, start: real, length: real)
    ensures forall t :: t in InWindow(times, start, length) ==> start <= t <= start + length
  {
    if times == [] {
    } else {
      WindowMembers(times[1..], start, length);
    }
  }

  /** Times inside a window of a spaced sequence are spaced, and none precedes the first time. */
  lemma {:induction false} WindowKeepsSpacing(times: seq<real>, start: real, length: real, gap: real)
    requires gap > 0.0 && Spaced(times, gap)
    ensures Spaced(InWindow(times, start, length), gap)
    ensures InWindow(times, start, length) != [] ==> times != [] && InWindow(times, start, length)[0] >= times[0]
  {
    if times == [] {
    } else {
      var rest := times[1..];
      SpacedTail(times, gap);
      WindowKeepsSpacing(rest, start, length, gap);
      var tail := InWindow(rest, start, length);
      if start <= times[0] <= start + length {
        SpacedPrepend(times[0], tail, gap);
      } else {
        assert InWindow(times, start, length) == tail;
      }
    }
  }

  lemma {:induction false} SpanOfSpaced(times: seq<real>, fps: real)
    requires fps > 0.0 && times != [] && Spaced(times, Over(1.0, fps))
    ensures Times(times[|times| - 1] - times[0], fps) >= (|times| - 1) as real
  {
    if |times| == 1 {
      assert Times(0.0, fps) == 0.0;
    } else {
      var init := times[..|times| - 1];
      forall i | 0 <= i < |init| - 1
        ensures init[i + 1] - init[i] >= Over(1.0, fps)
      {
        assert times[i + 1] - times[i] >= Over(1.0, fps);
      }
      SpanOfSpaced(init, fps);
      var last, mid := times[|times| - 1], times[|times| - 2];
      assert times[(|times| - 2) + 1] - times[|times| - 2] >= Over(1.0, fps);
      OverTimes(1.0, fps);
      TimesMonotone(Over(1.0, fps), last - mid, fps);
      TimesSum(mid - times[0], last - mid, fps);
      assert (mid - times[0]) + (last - mid) == last - times[0];
    }
  }

  /** The rate limit over whole runs: any window of length `T` sees at most
      `floor(T * fps) + 1` hand-overs. */
  lemma HandOversPerWindow(config: Config, cs: seq<Command>, start: real, length: real)
    requires config.fps > 0.0 && length >= 0.0
    ensures |InWindow(HandedTimes(Run(config, INITIAL, cs).1), start, length)| <= Times(length, config.fps).Floor + 1
  {
    var times := HandedTimes(Run(config, INITIAL, cs).1);
    var seen := InWindow(times, start, length);
    HandOversAreSpaced(config, INITIAL, cs);
    GapPositive(config.fps);
    WindowKeepsSpacing(times, start, length, Over(1.0, config.fps));
    WindowMembers(times, start, length);
    TimesNonnegative(length, config.fps);
    if seen != [] {
      SpanOfSpaced(seen, config.fps);
      assert seen[0] in seen && seen[|seen| - 1] in seen;
      TimesMonotone(seen[|seen| - 1] - seen[0], length, config.fps);
    }
  }

  lemma {:induction false} LaterHandOver(config: Config, s: GuardState, cs: seq<Command>, j: nat)
    requires config.fps > 0.0 && s.lastSlot.Some? && j < |cs| && Run(config, s, cs).1[j].Handed()
    ensures Run(config, s, cs).1[j].time - s.lastSlot.value >= Over(1.0, config.fps)
    decreases |cs|
  {
    GapPositive(config.fps);
    var (s1, e) := Step(config, s, cs[0]);
    if j == 0 {
    } else {
      LaterHandOver(config, s1, cs[1..], j - 1);
    }
  }

  /** Any two hand-overs of a run, not only successive ones, are an interval apart. */
  lemma {:induction false} HandOversAreApart(config: Config, s: GuardState, cs: seq<Command>, i: nat, j: nat)
    requires config.fps > 0.0 && i < j < |cs|
    requires Run(config, s, cs).1[i].Handed() && Run(config, s, cs).1[j].Handed()
    ensures Run(config, s, cs).1[j].time - Run(config, s, cs).1[i].time >= Over(1.0, config.fps)
    decreases |cs|
  {
    var (s1, e) := Step(config, s, cs[0]);
    if i == 0 {
      LaterHandOver(config, s1, cs[1..], j - 1);
    } else {
      HandOversAreApart(config, s1, cs[1..], i - 1, j - 1);
    }
  }

  /** The events at which something is handed over inside a window. */
  function HandedInWindow(es: seq<Event>, start: real, length: real): set<nat> {
    set i: nat | i < |es| && es[i].Handed() && start <= es[i].time <= start + length
  }

  lemma {:induction false} HandedAppend(es: seq<Event>, e: Event)
    ensures HandedTimes(es + [e]) == HandedTimes(es) + if e.Handed() then [e.time] else []
  {
    if es == [] {
      assert es + [e] == [e] && HandedTimes([e][1..]) == [];
    } else {
      HandedAppend(es[1..], e);
      assert (es + [e])[1..] == es[1..] + [e];
    }
  }

  lemma {:induction false} WindowAppend(times: seq<real>, t: real, start: real, length: real)
    ensures |InWindow(times + [t], start, length)| == |InWindow(times, start, length)| + if start <= t <= start + length then 1 else 0
  {
    if times == [] {
      assert times + [t] == [t] && InWindow([t][1..], start, length) == [];
    } else {
      WindowAppend(times[1..], t, start, length);
      assert (times + [t])[1..] == times[1..] + [t];
    }
  }

  lemma OneMoreHanded(es: seq<Event>, e: Event, start: real, length: real)
    ensures |HandedInWindow(es + [e], start, length)| ==
            |HandedInWindow(es, start, length)| + if e.Handed() && start <= e.time <= start + length then 1 else 0
  {
    var k: nat, all := |es|, es + [e];
    assert forall i :: 0 <= i < k ==> all[i] == es[i];
    assert HandedInWindow(all, start, length) ==
           HandedInWindow(es, start, length) + if e.Handed() && start <= e.time <= start + length then {k} else {};
  }

  lemma {:induction false} WindowCounts(es: seq<Event>, start: real, length: real)
    ensures |InWindow(HandedTimes(es), start, length)| == |HandedInWindow(es, start, length)|
    decreases |es|
  {
    if es == [] {
      assert HandedInWindow(es, start, length) == {};
    } else {
      var k := |es| - 1;
      var init, e := es[..k], es[k];
      assert es == init + [e];
      WindowCounts(init, start, length);
      HandedAppend(init, e);
      OneMoreHanded(init, e, start, length);
      if e.Handed() {
        WindowAppend(HandedTimes(init), e.time, start, length);
      } else {
        assert HandedTimes(init) + [] == HandedTimes(init);
      }
    }
  }

  /** The same bound on the events themselves. */
  lemma HandOverEventsPerWindow(config: Config, cs: seq<Command>, start: real, length: real)
    requires config.fps > 0.0 && length >= 0.0
    ensures |HandedInWindow(Run(config, INITIAL, cs).1, start, length)| <= Times(length, config.fps).Floor + 1
  {
    HandOversPerWindow(config, cs, start, length);
    WindowCounts(Run(config, INITIAL, cs).1, start, length);
  }

  // ---------------------------------------------------------------- safety over runs

  /** The e-stop is set exactly when it has been triggered. */
  lemma {:induction false} EstopMeansTriggered(config: Config, cs: seq<Command>)
    ensures Run(config, INITIAL, cs).0.estop <==> TriggerEstop in cs
  {
    if cs == [] {
    } else {
      var init, last := cs[..|cs| - 1], cs[|cs| - 1];
      EstopMeansTriggered(config, init);
      RunAppend(config, INITIAL, init, last);
      assert init + [last] == cs;
    }
  }

  /** Nothing is handed over after the e-stop. */
  lemma NothingAfterEstop(config: Config, cs: seq<Command>, i: nat, j: nat)
    requires i < j < |cs| && cs[i] == TriggerEstop
    ensures !Run(config, INITIAL, cs).1[j].Handed()
  {
    EventAt(config, INITIAL, cs, j);
    assert cs[..j][i] == TriggerEstop;
    EstopMeansTriggered(config, cs[..j]);
  }

  /** The last heartbeat before command `k`, if there was one. */
  function LastBeat(cs: seq<Command>): Option<real> {
    if cs == [] then None
    else if cs[|cs| - 1].Heartbeat? then Some(cs[|cs| - 1].now)
    else LastBeat(cs[..|cs| - 1])
  }

  lemma {:induction false} HeartbeatIsTheLast(config: Config, cs: seq<Command>)
    ensures Run(config, INITIAL, cs).0.lastHeartbeat == LastBeat(cs)
  {
    if cs == [] {
    } else {
      var init := cs[..|cs| - 1];
      HeartbeatIsTheLast(config, init);
      RunAppend(config, INITIAL, init, cs[|cs| - 1]);
      assert init + [cs[|cs| - 1]] == cs;
    }
  }

  /** The events after which the limiter's slot is taken: it was granted, whatever came next. */
  predicate TookSlot(e: Event) {
    e.Handed() || (e.Blocked? && (e.reason == ReadinessError || e.reason == AdapterNotReady || e.reason == SupervisorBlocked))
  }

  /** When the last slot was taken, if any was. */
  function LastTaken(cs: seq<Command>, es: seq<Event>): Option<real>
    requires |cs| == |es|
  {
    if cs == [] then None
    else
      var k := |cs| - 1;
      if cs[k].Send? && TookSlot(es[k]) then Some(cs[k].limiterNow) else LastTaken(cs[..k], es[..k])
  }

  lemma {:induction false} SlotIsTheLastTaken(config: Config, cs: seq<Command>)
    ensures Run(config, INITIAL, cs).0.lastSlot == LastTaken(cs, Run(config, INITIAL, cs).1)
  {
    if cs == [] {
    } else {
      var init, last := cs[..|cs| - 1], cs[|cs| - 1];
      SlotIsTheLastTaken(config, init);
      var s, es := RunLast(config, cs);
      var all := es + [Step(config, s, last).1];
      assert all[..|cs| - 1] == es && all[|cs| - 1] == Step(config, s, last).1;
    }
  }

  /** Every condition on the way to the adapter, in terms of the run so far. */
  predicate MayHandOver(config: Config, before: seq<Command>, es: seq<Event>, c: Command)
    requires |before| == |es|
  {
    && c.Send? && c.running && TriggerEstop !in before
    && (if config.deadmanEnabled
        then LastBeat(before).Some? && c.deadmanNow - LastBeat(before).value <= config.deadmanTimeout
        else config.allowDisabledDeadman)
    && config.fps > 0.0
    && (LastTaken(before, es).Some? ==> c.limiterNow - LastTaken(before, es).value >= Over(1.0, config.fps))
    && c.readiness == Ready && c.verdict.allowed
  }

  /** A command hands an action to the adapter exactly when the session runs, no e-stop came
      before, the deadman is kept alive by a recent heartbeat or its absence allowed, the last
      slot taken is an interval ago, the adapter is ready and the verdict allows; what the
      adapter receives is then the supervised action. */
  lemma HandOverIff(config: Config, cs: seq<Command>, k: nat)
    requires k < |cs|
    ensures var es := Run(config, INITIAL, cs).1;
            && (es[k].Handed() <==> MayHandOver(config, cs[..k], es[..k], cs[k]))
            && (es[k].Handed() ==> es[k].action == cs[k].verdict.action && es[k].time == cs[k].limiterNow)
            && (es[k].Sent? <==> es[k].Handed() && !cs[k].adapterRaises)
  {
    EventAt(config, INITIAL, cs, k);
    RunPrefix(config, INITIAL, cs, k);
    HeartbeatIsTheLast(config, cs[..k]);
    EstopMeansTriggered(config, cs[..k]);
    SlotIsTheLastTaken(config, cs[..k]);
  }

  lemma {:induction false} RunPrefix(config: Config, s: GuardState, cs: seq<Command>, k: nat)
    requires k <= |cs|
    ensures Run(config, s, cs).1[..k] == Run(config, s, cs[..k]).1
    decreases |cs|
  {
    if k == 0 {
    } else {
      RunPrefix(config, Step(config, s, cs[0]).0, cs[1..], k - 1);
      assert cs[..k][1..] == cs[1..][..k - 1];
      var (s1, e) := Step(config, s, cs[0]);
      assert Run(config, s, cs).1 == [e] + Run(config, s1, cs[1..]).1;
      assert Run(config, s, cs[..k]).1 == [e] + Run(config, s1, cs[..k][1..]).1;
    }
  }

  function CountSent(es: seq<Event>): nat {
    if es == [] then 0 else (if es[0].Sent? then 1 else 0) + CountSent(es[1..])
  }

  /** A decision that does not report an action as sent, the adapter's own failure included. */
  function CountBlocked(es: seq<Event>): nat {
    if es == [] then 0 else (if es[0].Blocked? || es[0].Failed? then 1 else 0) + CountBlocked(es[1..])
  }

  function CountCalls(cs: seq<Command>): nat {
    if cs == [] then 0 else (if cs[0].Send? then 1 else 0) + CountCalls(cs[1..])
  }

  /** Conservation: every call is either sent or blocked. */
  lemma {:induction false} CallsAreSentOrBlocked(config: Config, s: GuardState, cs: seq<Command>)
    ensures CountCalls(cs) == CountSent(Run(config, s, cs).1) + CountBlocked(Run(config, s, cs).1)
    decreases |cs|
  {
    if cs == [] {
    } else {
      var (s1, e) := Step(config, s, cs[0]);
      CallsAreSentOrBlocked(config, s1, cs[1..]);
      assert Run(config, s, cs).1[1..] == Run(config, s1, cs[1..]).1;
    }
  }

  /** The two latches record what has happened: an unhealthy deadman blocked some call, the adapter
      raised on some action. */
  lemma {:induction false} LatchesMeaning(config: Config, cs: seq<Command>)
    ensures var (s, es) := Run(config, INITIAL, cs);
            && (s.deadmanLost <==> exists k :: 0 <= k < |es| && es[k] == Blocked(DeadmanUnhealthy))
            && (s.adapterFailed <==> exists k :: 0 <= k < |es| && es[k].Failed?)
  {
    if cs == [] {
    } else {
      var init, last := cs[..|cs| - 1], cs[|cs| - 1];
      LatchesMeaning(config, init);
      var s, es := RunLast(config, cs);
      var e := Step(config, s, last).1;
      var all := es + [e];
      assert all[|es|] == e && forall k :: 0 <= k < |es| ==> all[k] == es[k];
    }
  }

  /** The conditions in the order in which they are looked at, each with the reason it blocks for,
      in terms of the run so far. */
  predicate Hindered(config: Config, before: seq<Command>, es: seq<Event>, c: Command, reason: BlockReason)
    requires |before| == |es| && c.Send?
  {
    match reason
    case SessionNotRunning => !c.running
    case EstopActive => TriggerEstop in before
    case DeadmanDisabled => !config.deadmanEnabled && !config.allowDisabledDeadman
    case DeadmanUnhealthy =>
      config.deadmanEnabled && (LastBeat(before).Some? ==> c.deadmanNow - LastBeat(before).value > config.deadmanTimeout)
    case RateLimited =>
      || config.fps <= 0.0
      || (LastTaken(before, es).Some? && c.limiterNow - LastTaken(before, es).value < Over(1.0, config.fps))
    case ReadinessError => c.readiness == ReadinessRaises
    case AdapterNotReady => c.readiness == NotReady
    case SupervisorBlocked => !c.verdict.allowed
    case AdapterError => c.adapterRaises
  }

  const ORDER: seq<BlockReason> := [
    SessionNotRunning, EstopActive, DeadmanDisabled, DeadmanUnhealthy, RateLimited,
    ReadinessError, AdapterNotReady, SupervisorBlocked, AdapterError]

  /** `ORDER[r]` is the first thing in the way of a call. */
  ghost predicate FirstHindrance(config: Config, before: seq<Command>, es: seq<Event>, c: Command, r: int)
    requires |before| == |es| && c.Send?
  {
    && 0 <= r < |ORDER| && Hindered(config, before, es, c, ORDER[r])
    && forall j :: 0 <= j < r ==> !Hindered(config, before, es, c, ORDER[j])
  }

  /** A call reports a reason exactly when it names the first thing in its way; the adapter's own
      failure is the last of them, and comes after the hand-over. */
  lemma BlockedIff(config: Config, cs: seq<Command>, k: nat, r: nat)
    requires k < |cs| && cs[k].Send? && r < |ORDER|
    ensures var es := Run(config, INITIAL, cs).1;
            FirstHindrance(config, cs[..k], es[..k], cs[k], r) <==>
            if ORDER[r].AdapterError? then es[k] == Failed(cs[k].limiterNow, cs[k].verdict.action)
            else es[k] == Blocked(ORDER[r])
  {
    EventAt(config, INITIAL, cs, k);
    RunPrefix(config, INITIAL, cs, k);
    HeartbeatIsTheLast(config, cs[..k]);
    EstopMeansTriggered(config, cs[..k]);
    SlotIsTheLastTaken(config, cs[..k]);
    var es := Run(config, INITIAL, cs).1;
    assert Run(config, INITIAL, cs[..k]).1 == es[..k];
    FirstIsReported(config, Run(config, INITIAL, cs[..k]).0, cs[..k], es[..k], cs[k], r);
  }

  /** The hindrances by their place in the order, on a state of the gate. */
  predicate Stops(config: Config, s: GuardState, c: Command, j: nat)
    requires c.Send?
  {
    if j == 0 then !c.running
    else if j == 1 then s.estop
    else if j == 2 then !config.deadmanEnabled && !config.allowDisabledDeadman
    else if j == 3 then !Healthy(config, s, c.deadmanNow)
    else if j == 4 then !SlotFree(config, s, c.limiterNow)
    else if j == 5 then c.readiness == ReadinessRaises
    else if j == 6 then c.readiness == NotReady
    else if j == 7 then !c.verdict.allowed
    else c.adapterRaises
  }

  lemma HindranceStops(config: Config, s: GuardState, before: seq<Command>, es: seq<Event>, c: Command, j: nat)
    requires |before| == |es| && c.Send? && j < |ORDER|
    requires s.lastHeartbeat == LastBeat(before) && s.lastSlot == LastTaken(before, es)
    requires s.estop <==> TriggerEstop in before
    ensures Hindered(config, before, es, c, ORDER[j]) <==> Stops(config, s, c, j)
  {
  }

  lemma StepStops(config: Config, s: GuardState, c: Command, r: nat)
    requires c.Send? && r < |ORDER|
    ensures (Stops(config, s, c, r) && forall j: nat :: j < r ==> !Stops(config, s, c, j)) <==>
            if ORDER[r].AdapterError? then Step(config, s, c).1 == Failed(c.limiterNow, c.verdict.action)
            else Step(config, s, c).1 == Blocked(ORDER[r])
  {
    assert Stops(config, s, c, 0) <==> !c.running;
    assert Stops(config, s, c, 1) <==> s.estop;
    assert Stops(config, s, c, 2) <==> !config.deadmanEnabled && !config.allowDisabledDeadman;
    assert Stops(config, s, c, 3) <==> !Healthy(config, s, c.deadmanNow);
    assert Stops(config, s, c, 4) <==> !SlotFree(config, s, c.limiterNow);
    assert Stops(config, s, c, 5) <==> c.readiness == ReadinessRaises;
    assert Stops(config, s, c, 6) <==> c.readiness == NotReady;
    assert Stops(config, s, c, 7) <==> !c.verdict.allowed;
  }

  lemma FirstIsReported(config: Config, s: GuardState, before: seq<Command>, es: seq<Event>, c: Command, r: nat)
    requires |before| == |es| && c.Send? && r < |ORDER|
    requires s.lastHeartbeat == LastBeat(before) && s.lastSlot == LastTaken(before, es)
    requires s.estop <==> TriggerEstop in before
    ensures FirstHindrance(config, before, es, c, r) <==>
            if ORDER[r].AdapterError? then Step(config, s, c).1 == Failed(c.limiterNow, c.verdict.action)
            else Step(config, s, c).1 == Blocked(ORDER[r])
  {
    forall j: nat | j < |ORDER|
      ensures Hindered(config, before, es, c, ORDER[j]) <==> Stops(config, s, c, j)
    {
      HindranceStops(config, s, before, es, c, j);
    }
    StepStops(config, s, c, r);
  }
}
