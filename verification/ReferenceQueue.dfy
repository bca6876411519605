/** The conformance reference for the app's action queue: a chunk handed out one action at a
    time until its context, its deadline or an explicit clear invalidates it. */
module ReferenceQueue {
  import opened Outcomes

  datatype Context = Context(sessionId: string, artifactRoot: string, contractSha: string)

  const REASONS: set<string> := {
    "session_change", "gateway_reset", "observation_contract_change", "policy_artifact_change", "deadline_expired",
    "stop", "fault"}

  datatype State<A> = State(
    actions: seq<A>, position: nat, context: Option<Context>, deadline: Option<int>, invalidated: Option<string>)

  datatype Command<A> =
    | Replace(chunk: seq<A>, context: Context, deadline: int)
    | Clear(reason: string)
    | Observe(context: Context)
    | Next(now: int)

  datatype Outcome<A> = Done | UnknownReason | Returned(action: A) | Invalidated(reason: string) | Empty

  function Initial<A>(): State<A> {
    State([], 0, None, None, None)
  }

  function Cleared<A>(s: State<A>, reason: string): State<A> {
    s.(actions := [], position := 0, invalidated := Some(reason))
  }

  /** What a context that differs from the chunk's invalidates it for. */
  function ChangeReason(held: Context, seen: Context): Option<string> {
    if seen.sessionId != held.sessionId then Some("session_change")
    else if seen.artifactRoot != held.artifactRoot then Some("policy_artifact_change")
    else if seen.contractSha != held.contractSha then Some("observation_contract_change")
    else None
  }

  function Step<A>(s: State<A>, c: Command<A>): (State<A>, Outcome<A>) {
    match c
    case Replace(chunk, context, deadline) => (State(chunk, 0, Some(context), Some(deadline), None), Done)
    case Clear(reason) => if reason in REASONS then (Cleared(s, reason), Done) else (s, UnknownReason)
    case Observe(context) =>
      if s.context.None? then (s, Done)
      else
        var change := ChangeReason(s.context.value, context);
        (if change.Some? then Cleared(s, change.value) else s, Done)
    case Next(now) =>
      if s.invalidated.Some? then (s, Invalidated(s.invalidated.value))
      else if s.deadline.Some? && now > s.deadline.value then (Cleared(s, "deadline_expired"), Invalidated("deadline_expired"))
      else if s.position >= |s.actions| then (s, Empty)
      else (s.(position := s.position + 1), Returned(s.actions[s.position]))
  }

  function Run<A>(s: State<A>, cs: seq<Command<A>>): State<A> {
    if cs == [] then s else Step(Run(s, cs[..|cs| - 1]), cs[|cs| - 1]).0
  }

  /** The outcome of command `k` of a run. */
  function OutcomeAt<A>(s: State<A>, cs: seq<Command<A>>, k: nat): Outcome<A>
    requires k < |cs|
  {
    Step(Run(s, cs[..k]), cs[k]).1
  }

  // ---------------------------------------------------------------- the object

  class ReferenceActionQueue<A> {
    var actions: seq<A>
    var i: nat
    var ctx: Option<Context>
    var deadline: Option<int>
    var invalidated: Option<string>

    function Abstract(): State<A>
      reads this
    {
      State(actions, i, ctx, deadline, invalidated)
    }

    constructor ()
      ensures Abstract() == Initial()
    {
      actions, i, ctx, deadline, invalidated := [], 0, None, None, None;
    }

    method Replace(chunk: seq<A>, context: Context, deadlineNs: int)
      modifies this
      ensures Abstract() == Step(old(Abstract()), Command.Replace(chunk, context, deadlineNs)).0
    {
      actions, i := chunk, 0;
      ctx, deadline := Some(context), Some(deadlineNs);
      invalidated := None;
    }

    method Clear(reason: string) returns (r: Outcome<A>)
      modifies this
      ensures (Abstract(), r) == Step(old(Abstract()), Command.Clear(reason))
    {
      if reason !in REASONS {
        return UnknownReason;
      }
      actions, i := [], 0;
      invalidated := Some(reason);
      r := Done;
    }

    method Observe(context: Context)
      modifies this
      ensures Abstract() == Step(old(Abstract()), Command.Observe(context)).0
    {
      if ctx.None? {
        return;
      }
      if context.sessionId != ctx.value.sessionId {
        var _ := Clear("session_change");
      } else if context.artifactRoot != ctx.value.artifactRoot {
        var _ := Clear("policy_artifact_change");
      } else if context.contractSha != ctx.value.contractSha {
        var _ := Clear("observation_contract_change");
      }
    }

    method Next(now: int) returns (r: Outcome<A>)
      modifies this
      ensures (Abstract(), r) == Step(old(Abstract()), Command.Next(now))
    {
      if invalidated.Some? {
        return Invalidated(invalidated.value);
      }
      if deadline.Some? && now > deadline.value {
        var _ := Clear("deadline_expired");
        return Invalidated("deadline_expired");
      }
      if i >= |actions| {
        return Empty;
      }
      r := Returned(actions[i]);
      i := i + 1;
    }
  }

  // ---------------------------------------------------------------- whole runs

  /** A command that invalidates a chunk held under `context` with `deadline`. */
  predicate Invalidates<A>(c: Command<A>, context: Context, deadline: int) {
    match c
    case Replace(_, _, _) => false
    case Clear(reason) => reason in REASONS
    case Observe(seen) => seen != context
    case Next(now) => now > deadline
  }

  predicate AnyInvalidates<A>(cs: seq<Command<A>>, context: Context, deadline: int) {
    exists k :: 0 <= k < |cs| && Invalidates(cs[k], context, deadline)
  }

  lemma AnyInvalidatesLast<A>(cs: seq<Command<A>>, context: Context, deadline: int)
    requires cs != []
    ensures AnyInvalidates(cs, context, deadline) <==>
            AnyInvalidates(cs[..|cs| - 1], context, deadline) || Invalidates(cs[|cs| - 1], context, deadline)
  {
    var init := cs[..|cs| - 1];
    assert forall k :: 0 <= k < |init| ==> init[k] == cs[k];
    if k :| 0 <= k < |cs| && Invalidates(cs[k], context, deadline) {
      assert k < |init| ==> Invalidates(init[k], context, deadline);
    }
  }

  function CountNext<A>(cs: seq<Command<A>>): nat {
    if cs == [] then 0 else CountNext(cs[..|cs| - 1]) + if cs[|cs| - 1].Next? then 1 else 0
  }

  predicate NoReplace<A>(cs: seq<Command<A>>) {
    forall k :: 0 <= k < |cs| ==> !cs[k].Replace?
  }

  function Min(a: nat, b: nat): nat {
    if a < b then a else b
  }

  /** The state reached since a replace, in closed form. */
  lemma {:induction false} StateSinceReplace<A>(s: State<A>, chunk: seq<A>, context: Context, deadline: int, cs: seq<Command<A>>)
    requires s == State(chunk, 0, Some(context), Some(deadline), None) && NoReplace(cs)
    ensures Run(s, cs).context == Some(context) && Run(s, cs).deadline == Some(deadline)
    ensures Run(s, cs).invalidated.Some? <==> AnyInvalidates(cs, context, deadline)
    ensures !AnyInvalidates(cs, context, deadline) ==>
              Run(s, cs) == State(chunk, Min(CountNext(cs), |chunk|), Some(context), Some(deadline), None)
  {
    if cs == [] {
    } else {
      var init, c := cs[..|cs| - 1], cs[|cs| - 1];
      StateSinceReplace(s, chunk, context, deadline, init);
      AnyInvalidatesLast(cs, context, deadline);
      assert !c.Replace?;
    }
  }

  /** Over every interleaving since a replace, a `next` answers exactly as the chunk, its
      context and its deadline dictate: refused once anything has invalidated the chunk or
      the deadline has passed, even if the clock has since gone back; otherwise the action
      after those already handed out, or none when the chunk is used up. */
  lemma NextInClosedForm<A>(chunk: seq<A>, context: Context, deadline: int, before: State<A>, cs: seq<Command<A>>, k: nat)
    requires NoReplace(cs) && k < |cs| && cs[k].Next?
    ensures var s := Step(before, Command.Replace(chunk, context, deadline)).0;
            var given := CountNext(cs[..k]);
            if AnyInvalidates(cs[..k], context, deadline) || cs[k].now > deadline then OutcomeAt(s, cs, k).Invalidated?
            else if given < |chunk| then OutcomeAt(s, cs, k) == Returned(chunk[given])
            else OutcomeAt(s, cs, k) == Empty
  {
    var s := Step(before, Command.Replace(chunk, context, deadline)).0;
    assert NoReplace(cs[..k]);
    StateSinceReplace(s, chunk, context, deadline, cs[..k]);
  }

  /** The actions returned in a run, in order. */
  function ReturnedActions<A>(s: State<A>, cs: seq<Command<A>>): seq<A> {
    if cs == [] then []
    else
      var init := cs[..|cs| - 1];
      var outcome := Step(Run(s, init), cs[|cs| - 1]).1;
      ReturnedActions(s, init) + if outcome.Returned? then [outcome.action] else []
  }

  /** The actions returned since a replace are an in-order prefix of its chunk. */
  lemma {:induction false} ReturnedIsPrefix<A>(chunk: seq<A>, context: Context, deadline: int, s: State<A>, cs: seq<Command<A>>)
    requires s == State(chunk, 0, Some(context), Some(deadline), None) && NoReplace(cs)
    ensures ReturnedActions(s, cs) <= chunk
    ensures !AnyInvalidates(cs, context, deadline) ==> ReturnedActions(s, cs) == chunk[..Min(CountNext(cs), |chunk|)]
  {
    if cs == [] {
    } else {
      var init, c := cs[..|cs| - 1], cs[|cs| - 1];
      assert NoReplace(init);
      ReturnedIsPrefix(chunk, context, deadline, s, init);
      StateSinceReplace(s, chunk, context, deadline, init);
      AnyInvalidatesLast(cs, context, deadline);
    }
  }

  // ---------------------------------------------------------------- why a chunk is refused

  /** Command `k` invalidates the chunk for this reason: a clear for the reason it gives, a context
      for the first of session, artifact and contract that differs, a late `next` for the deadline
      unless something invalidated the chunk before. */
  ghost predicate InvalidatesFor<A>(cs: seq<Command<A>>, k: int, context: Context, deadline: int, reason: string)
    requires 0 <= k < |cs|
  {
    match cs[k]
    case Replace(_, _, _) => false
    case Clear(given) => given in REASONS && reason == given
    case Observe(seen) =>
      || (seen.sessionId != context.sessionId && reason == "session_change")
      || (seen.sessionId == context.sessionId && seen.artifactRoot != context.artifactRoot && reason == "policy_artifact_change")
      || (seen.sessionId == context.sessionId && seen.artifactRoot == context.artifactRoot
          && seen.contractSha != context.contractSha && reason == "observation_contract_change")
    case Next(now) => now > deadline && !AnyInvalidates(cs[..k], context, deadline) && reason == "deadline_expired"
  }

  /** Command `k` is the last one that gave a reason, and this is it. */
  ghost predicate LastReason<A>(cs: seq<Command<A>>, k: int, context: Context, deadline: int, reason: string) {
    && 0 <= k < |cs| && InvalidatesFor(cs, k, context, deadline, reason)
    && forall j, r :: k < j < |cs| ==> !InvalidatesFor(cs, j, context, deadline, r)
  }

  ghost predicate GivenReason<A>(cs: seq<Command<A>>, context: Context, deadline: int, reason: string) {
    exists k :: LastReason(cs, k, context, deadline, reason)
  }

  lemma LastReasonExtends<A>(cs: seq<Command<A>>, context: Context, deadline: int, reason: string)
    requires cs != []
    ensures var init, k := cs[..|cs| - 1], |cs| - 1;
            GivenReason(cs, context, deadline, reason) <==>
            || InvalidatesFor(cs, k, context, deadline, reason)
            || ((forall r :: !InvalidatesFor(cs, k, context, deadline, r))
                && GivenReason(init, context, deadline, reason))
  {
    var init, k := cs[..|cs| - 1], |cs| - 1;
    forall j, r | 0 <= j < k
      ensures InvalidatesFor(cs, j, context, deadline, r) <==> InvalidatesFor(init, j, context, deadline, r)
    {
      assert cs[..j] == init[..j];
    }
    if InvalidatesFor(cs, k, context, deadline, reason) {
      assert LastReason(cs, k, context, deadline, reason);
    }
    if j :| LastReason(cs, j, context, deadline, reason) {
      if j < k {
        assert LastReason(init, j, context, deadline, reason);
      }
    }
    if j :| (forall r :: !InvalidatesFor(cs, k, context, deadline, r)) && LastReason(init, j, context, deadline, reason) {
      assert LastReason(cs, j, context, deadline, reason);
    }
  }

  /** Since a replace, the reason held is the last one given. */
  lemma {:induction false} ReasonSinceReplace<A>(s: State<A>, chunk: seq<A>, context: Context, deadline: int,
                                                 cs: seq<Command<A>>, reason: string)
    requires s == State(chunk, 0, Some(context), Some(deadline), None) && NoReplace(cs)
    ensures Run(s, cs).invalidated == Some(reason) <==> GivenReason(cs, context, deadline, reason)
  {
    if cs == [] {
    } else {
      var init, k := cs[..|cs| - 1], |cs| - 1;
      assert NoReplace(init) && !cs[k].Replace?;
      ReasonSinceReplace(s, chunk, context, deadline, init, reason);
      StateSinceReplace(s, chunk, context, deadline, init);
      LastReasonExtends(cs, context, deadline, reason);
      OneMoreCommand(Run(s, init), cs, context, deadline, reason);
    }
  }

  lemma OneMoreCommand<A>(before: State<A>, cs: seq<Command<A>>, context: Context, deadline: int, reason: string)
    requires cs != [] && !cs[|cs| - 1].Replace?
    requires before.context == Some(context) && before.deadline == Some(deadline)
    requires before.invalidated.Some? <==> AnyInvalidates(cs[..|cs| - 1], context, deadline)
    ensures var k := |cs| - 1;
            var after := Step(before, cs[k]).0;
            after.invalidated == Some(reason) <==>
            || InvalidatesFor(cs, k, context, deadline, reason)
            || (before.invalidated == Some(reason) && forall r :: !InvalidatesFor(cs, k, context, deadline, r))
  {
    var k := |cs| - 1;
    var after := Step(before, cs[k]).0;
    if after.invalidated != before.invalidated {
      assert InvalidatesFor(cs, k, context, deadline, after.invalidated.value);
    }
    forall r | InvalidatesFor(cs, k, context, deadline, r)
      ensures after.invalidated == Some(r)
    {
    }
  }

  /** A refused `next` reports the last reason given, its own lateness included. */
  lemma RefusalNamesTheLastReason<A>(chunk: seq<A>, context: Context, deadline: int, before: State<A>, cs: seq<Command<A>>,
                                     k: nat, reason: string)
    requires NoReplace(cs) && k < |cs| && cs[k].Next?
    ensures var s := Step(before, Command.Replace(chunk, context, deadline)).0;
            OutcomeAt(s, cs, k) == Invalidated(reason) <==> GivenReason(cs[..k + 1], context, deadline, reason)
  {
    var s := Step(before, Command.Replace(chunk, context, deadline)).0;
    assert cs[..k + 1][..k] == cs[..k] && NoReplace(cs[..k + 1]) && NoReplace(cs[..k]);
    ReasonSinceReplace(s, chunk, context, deadline, cs[..k + 1], reason);
    StateSinceReplace(s, chunk, context, deadline, cs[..k]);
  }
}
