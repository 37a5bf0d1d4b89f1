/** Bounded reconnection and the stability timer of an eSIM handover
    (zte-agent/src/esim_network.rs). What the callbacks answer is an input; every call is logged with
    its answer. */
module EsimNetwork {
  import opened Wrappers

  // ---------------------------------------------------------------- reconnecting

  /** The fields of a bearer status that are read, as integers where they are integers. */
  datatype Bearer = Bearer(enable: Option<int>, mode: Option<int>, roaming: Option<int>, disconnected: bool)

  /** Commands for bearer 1 in automatic mode. */
  datatype Command = Disable(roaming: int) | Enable(roaming: int)

  datatype Call =
    | Allowed(ok: bool)
    | RestoreAllowed(ok: bool)
    | Read(status: Option<Bearer>)
    | Write(command: Command, done: bool)
    | Pause

  datatype Recovery = Restored | Cancelled | Failed

  /** The callbacks: any answers, which may differ from call to call. */
  class Callbacks {
    const allowed: nat -> bool
    const restoreAllowed: nat -> bool
    const status: nat -> Option<Bearer>
    const written: nat -> bool
    var calls: seq<Call>

    constructor (allowed: nat -> bool, restoreAllowed: nat -> bool, status: nat -> Option<Bearer>, written: nat -> bool)
      ensures calls == []
    {
      this.allowed, this.restoreAllowed, this.status, this.written := allowed, restoreAllowed, status, written;
      calls := [];
    }

    method IsAllowed() returns (ok: bool)
      modifies this
      ensures calls == old(calls) + [Allowed(ok)]
    {
      ok := allowed(|calls|);
      calls := calls + [Allowed(ok)];
    }

    method IsRestoreAllowed() returns (ok: bool)
      modifies this
      ensures calls == old(calls) + [RestoreAllowed(ok)]
    {
      ok := restoreAllowed(|calls|);
      calls := calls + [RestoreAllowed(ok)];
    }

    method ReadStatus() returns (r: Option<Bearer>)
      modifies this
      ensures calls == old(calls) + [Read(r)]
    {
      r := status(|calls|);
      calls := calls + [Read(r)];
    }

    method WriteCommand(command: Command) returns (done: bool)
      modifies this
      ensures calls == old(calls) + [Write(command, done)]
    {
      done := written(|calls|);
      calls := calls + [Write(command, done)];
    }

    method Wait()
      modifies this
      ensures calls == old(calls) + [Pause]
    {
      calls := calls + [Pause];
    }
  }

  /** The commands written, in order. */
  function Commands(calls: seq<Call>): seq<Command> {
    if calls == [] then []
    else
      var last := calls[|calls| - 1];
      Commands(calls[..|calls| - 1]) + (if last.Write? then [last.command] else [])
  }

  function LastRead(calls: seq<Call>): Option<Bearer> {
    if calls == [] then None
    else if calls[|calls| - 1].Read? then calls[|calls| - 1].status
    else LastRead(calls[..|calls| - 1])
  }

  /** No answer said that restoring is not allowed. */
  predicate NeverForbidden(calls: seq<Call>) {
    forall k | 0 <= k < |calls| :: calls[k] != RestoreAllowed(false)
  }

  /** Every enabling write comes right after restoring was said to be allowed. */
  predicate EnabledWhenAllowed(calls: seq<Call>) {
    forall k | 0 <= k < |calls| && calls[k].Write? && calls[k].command.Enable? ::
      k > 0 && calls[k - 1] == RestoreAllowed(true)
  }

  predicate Reconnectable(b: Bearer) {
    b.enable == Some(1) && b.mode == Some(1) && (b.roaming == Some(0) || b.roaming == Some(1))
  }

  /** The first three answers that let the bearer be taken down. */
  predicate MayDisable(calls: seq<Call>) {
    && |calls| >= 3 && calls[0] == Allowed(true)
    && calls[1].Read? && calls[1].status.Some? && Reconnectable(calls[1].status.value)
    && calls[2] == Allowed(true)
  }

  /** What the status read last allows: it failed, or mode and roaming are as they were. */
  predicate Unchanged(latest: Option<Bearer>, roaming: int) {
    latest.None? || (latest.value.mode == Some(1) && latest.value.roaming == Some(roaming))
  }

  /** What is promised of the calls of one reconnection. */
  predicate Promised(calls: seq<Call>, r: Recovery) {
    && EnabledWhenAllowed(calls)
    && (MayDisable(calls) ==>
          var roaming := calls[1].status.value.roaming.value;
          && |calls| >= 4 && calls[3].Write? && calls[3].command == Disable(roaming)
          && (if NeverForbidden(calls) && Unchanged(LastRead(calls), roaming)
              then && Commands(calls) == [Disable(roaming), Enable(roaming)]
                   && calls[|calls| - 1] == Write(Enable(roaming), r == Restored) && r != Cancelled
              else Commands(calls) == [Disable(roaming)] && r == Cancelled))
    && (!MayDisable(calls) ==>
          && Commands(calls) == []
          && r == if |calls| == 2 && calls[1] == Read(None) then Failed else Cancelled)
  }

  predicate EnablesRightly(calls: seq<Call>, call: Call) {
    call.Write? && call.command.Enable? ==> calls != [] && calls[|calls| - 1] == RestoreAllowed(true)
  }

  lemma Appended(calls: seq<Call>, call: Call)
    ensures Commands(calls + [call]) == Commands(calls) + (if call.Write? then [call.command] else [])
    ensures LastRead(calls + [call]) == if call.Read? then call.status else LastRead(calls)
    ensures NeverForbidden(calls + [call]) <==> NeverForbidden(calls) && call != RestoreAllowed(false)
    ensures EnabledWhenAllowed(calls) && EnablesRightly(calls, call)
            ==> EnabledWhenAllowed(calls + [call])
  {
    hide NeverForbidden, EnabledWhenAllowed;
    assert (calls + [call])[..|calls|] == calls;
    AppendedForbidden(calls, call);
    if EnabledWhenAllowed(calls) && EnablesRightly(calls, call) {
      AppendedEnabled(calls, call);
    }
  }

  lemma AppendedForbidden(calls: seq<Call>, call: Call)
    ensures NeverForbidden(calls + [call]) <==> NeverForbidden(calls) && call != RestoreAllowed(false)
  {
    var all := calls + [call];
    assert all[|calls|] == call;
    assert forall k | 0 <= k < |calls| :: all[k] == calls[k];
    if !NeverForbidden(calls) {
      var k :| 0 <= k < |calls| && calls[k] == RestoreAllowed(false);
      assert all[k] == RestoreAllowed(false);
    }
  }

  lemma AppendedEnabled(calls: seq<Call>, call: Call)
    requires EnabledWhenAllowed(calls)
             && EnablesRightly(calls, call)
    ensures EnabledWhenAllowed(calls + [call])
  {
    var all := calls + [call];
    forall k | 0 <= k < |all| && all[k].Write? && all[k].command.Enable?
      ensures k > 0 && all[k - 1] == RestoreAllowed(true)
    {
      if k < |calls| {
        assert all[k] == calls[k];
      }
    }
  }

  lemma NoCalls()
    ensures Commands([]) == [] && EnabledWhenAllowed([]) && NeverForbidden([])
  {}

  /** Where the polling loop may be: the bearer was taken down and nothing was written since. */
  ghost predicate Down(calls: seq<Call>, roaming: int) {
    && MayDisable(calls) && calls[1].status.value.roaming == Some(roaming)
    && |calls| >= 4 && calls[3].Write? && calls[3].command == Disable(roaming)
    && Commands(calls) == [Disable(roaming)] && EnabledWhenAllowed(calls)
  }

  /** A call that writes nothing, on the way. */
  lemma StaysDown(calls: seq<Call>, roaming: int, call: Call)
    requires Down(calls, roaming) && !call.Write?
    ensures Down(calls + [call], roaming)
    ensures LastRead(calls + [call]) == if call.Read? then call.status else LastRead(calls)
    ensures NeverForbidden(calls + [call]) <==> NeverForbidden(calls) && call != RestoreAllowed(false)
  {
    hide Commands, EnabledWhenAllowed, Reconnectable, NeverForbidden, LastRead;
    Appended(calls, call);
    assert forall k | 0 <= k < 4 :: (calls + [call])[k] == calls[k];
  }

  /** Taking the bearer down and up again: at most two writes, both with the roaming setting read
      first; the second comes exactly if restoring stays allowed and nobody changed the settings. The
      log is that of this call. */
  method Reconnect(env: Callbacks) returns (r: Recovery)
    requires env.calls == []
    modifies env
    ensures Promised(env.calls, r)
    ensures MayDisable(env.calls) ==> exists m | 4 <= m <= |env.calls| :: Polled(env.calls[4..m])
  {
    hide Commands, LastRead, NeverForbidden, EnabledWhenAllowed, Down, Polled;
    var ok := env.IsAllowed();
    if !ok {
      NotDisabled(env.calls);
      return Cancelled;
    }
    var before := env.ReadStatus();
    if before.None? {
      NotDisabled(env.calls);
      return Failed;
    }
    if before.value.enable != Some(1) || before.value.mode != Some(1) {
      NotDisabled(env.calls);
      return Cancelled;
    }
    if before.value.roaming != Some(0) && before.value.roaming != Some(1) {
      NotDisabled(env.calls);
      return Cancelled;
    }
    var roaming := before.value.roaming.value;
    ok := env.IsAllowed();
    NotDisabled(env.calls);
    if !ok {
      return Cancelled;
    }
    ghost var was := env.calls;
    var done := env.WriteCommand(Disable(roaming));
    NowDown(was, roaming, done);
    var forbidden := AwaitDown(env, roaming);
    ghost var polled := env.calls;
    if forbidden {
      ForbiddenIsPromised(env.calls, roaming);
      assert env.calls[4..|polled|] == polled[4..];
      return Cancelled;
    }
    r := Restore(env, roaming);
    assert env.calls[4..|polled|] == polled[4..];
  }

  /** Re-reads the settings so that a change of roaming or mode is not overwritten, and restores. */
  method Restore(env: Callbacks, roaming: int) returns (r: Recovery)
    requires Down(env.calls, roaming) && NeverForbidden(env.calls)
    modifies env
    ensures Promised(env.calls, r) && old(env.calls) <= env.calls
  {
    hide Commands, LastRead, NeverForbidden, EnabledWhenAllowed, Down, Promised;
    ghost var was := env.calls;
    var ok := env.IsRestoreAllowed();
    StaysDown(was, roaming, RestoreAllowed(ok));
    if !ok {
      ForbiddenIsPromised(env.calls, roaming);
      return Cancelled;
    }
    was := env.calls;
    var latest := env.ReadStatus();
    StaysDown(was, roaming, Read(latest));
    if latest.Some? && (latest.value.mode != Some(1) || latest.value.roaming != Some(roaming)) {
      ChangedIsPromised(env.calls, roaming);
      return Cancelled;
    }
    was := env.calls;
    ok := env.IsRestoreAllowed();
    StaysDown(was, roaming, RestoreAllowed(ok));
    if !ok {
      ForbiddenIsPromised(env.calls, roaming);
      return Cancelled;
    }
    was := env.calls;
    var done := env.WriteCommand(Enable(roaming));
    EnableIsPromised(was, roaming, done);
    return if done then Restored else Failed;
  }

  const POLLS := 5

  predicate Disconnected(status: Option<Bearer>) {
    status.Some? && status.value.disconnected
  }

  /** Four calls in which restoring and going on were allowed, the bearer was not seen down, and the
      program paused. */
  predicate WaitedOnce(calls: seq<Call>) {
    && |calls| == 4 && calls[0] == RestoreAllowed(true) && calls[1] == Allowed(true)
    && calls[2].Read? && !Disconnected(calls[2].status) && calls[3] == Pause
  }

  predicate Waited(calls: seq<Call>, rounds: nat) {
    |calls| == 4 * rounds && forall k | 0 <= k < rounds :: WaitedOnce(calls[4 * k..4 * k + 4])
  }

  /** What ends the polling before its five rounds: restoring is forbidden, somebody wants the modem, or
      the bearer is down. */
  predicate EndsPolling(calls: seq<Call>) {
    || calls == [RestoreAllowed(false)]
    || calls == [RestoreAllowed(true), Allowed(false)]
    || (|calls| == 3 && calls[..2] == [RestoreAllowed(true), Allowed(true)]
        && calls[2].Read? && Disconnected(calls[2].status))
  }

  /** Polling goes on for five rounds, or until something ends it. */
  ghost predicate Polled(calls: seq<Call>) {
    exists rounds: nat | rounds <= POLLS && 4 * rounds <= |calls| ::
      && Waited(calls[..4 * rounds], rounds)
      && (if rounds == POLLS then calls[4 * rounds..] == [] else EndsPolling(calls[4 * rounds..]))
  }

  lemma OneMoreRound(calls: seq<Call>, rounds: nat, round: seq<Call>)
    requires Waited(calls, rounds) && WaitedOnce(round)
    ensures Waited(calls + round, rounds + 1)
  {
    var all := calls + round;
    forall k | 0 <= k < rounds + 1
      ensures WaitedOnce(all[4 * k..4 * k + 4])
    {
      assert all[4 * k..4 * k + 4] == if k < rounds then calls[4 * k..4 * k + 4] else round;
    }
  }

  lemma PolledSo(calls: seq<Call>, rounds: nat, last: seq<Call>)
    requires Waited(calls, rounds) && rounds <= POLLS
    requires if rounds == POLLS then last == [] else EndsPolling(last)
    ensures Polled(calls + last)
  {
    assert (calls + last)[..4 * rounds] == calls && (calls + last)[4 * rounds..] == last;
  }

  /** Polls up to five times until the bearer is down or a command is waiting; tells whether
      restoring was forbidden meanwhile. */
  method AwaitDown(env: Callbacks, roaming: int) returns (forbidden: bool)
    requires Down(env.calls, roaming) && NeverForbidden(env.calls)
    modifies env
    ensures Down(env.calls, roaming) && (forbidden <==> !NeverForbidden(env.calls))
    ensures old(env.calls) <= env.calls && Polled(env.calls[|old(env.calls)|..])
  {
    hide Commands, LastRead, NeverForbidden, EnabledWhenAllowed, Down, Waited, Polled;
    forbidden := false;
    ghost var start := env.calls;
    ghost var gone: seq<Call> := [];
    NotWaited();
    for i := 0 to POLLS
      invariant Down(env.calls, roaming) && NeverForbidden(env.calls)
      invariant env.calls == start + gone && Waited(gone, i)
    {
      ghost var was := env.calls;
      var ok := env.IsRestoreAllowed();
      StaysDown(was, roaming, RestoreAllowed(ok));
      if !ok {
        Ended(env.calls, start, gone, i, [RestoreAllowed(false)]);
        return true;
      }
      was := env.calls;
      // Somebody is waiting for the modem: restore right away.
      ok := env.IsAllowed();
      StaysDown(was, roaming, Allowed(ok));
      if !ok {
        Ended(env.calls, start, gone, i, [RestoreAllowed(true), Allowed(false)]);
        return;
      }
      was := env.calls;
      var status := env.ReadStatus();
      StaysDown(was, roaming, Read(status));
      if status.Some? && status.value.disconnected {
        Ended(env.calls, start, gone, i, [RestoreAllowed(true), Allowed(true), Read(status)]);
        return;
      }
      was := env.calls;
      env.Wait();
      StaysDown(was, roaming, Pause);
      ghost var round := [RestoreAllowed(true), Allowed(true), Read(status), Pause];
      OneMoreRound(gone, i, round);
      gone := gone + round;
    }
    PolledSo(gone, POLLS, []);
    assert gone + [] == gone && (start + gone)[|start|..] == gone;
  }

  lemma NotWaited()
    ensures Waited([], 0)
  {}

  lemma Ended(calls: seq<Call>, start: seq<Call>, gone: seq<Call>, rounds: nat, last: seq<Call>)
    requires calls == start + gone + last && Waited(gone, rounds) && rounds < POLLS && EndsPolling(last)
    ensures start <= calls && Polled(calls[|start|..])
  {
    PolledSo(gone, rounds, last);
    assert calls[|start|..] == gone + last;
  }

  lemma NowDown(calls: seq<Call>, roaming: int, done: bool)
    requires |calls| == 3 && MayDisable(calls) && calls[1].status.value.roaming == Some(roaming)
    ensures Down(calls + [Write(Disable(roaming), done)], roaming)
    ensures NeverForbidden(calls + [Write(Disable(roaming), done)])
  {
    hide Commands, NeverForbidden, EnabledWhenAllowed;
    NotDisabled(calls);
    Appended(calls, Write(Disable(roaming), done));
  }

  /** Up to the first write. */
  lemma NotDisabled(calls: seq<Call>)
    requires |calls| <= 3 && forall k | 0 <= k < |calls| :: calls[k].Allowed? || calls[k].Read?
    ensures Commands(calls) == [] && EnabledWhenAllowed(calls) && NeverForbidden(calls)
    decreases |calls|
  {
    hide Commands, NeverForbidden, EnabledWhenAllowed;
    if calls == [] {
      NoCalls();
    } else {
      var front := calls[..|calls| - 1];
      NotDisabled(front);
      Appended(front, calls[|calls| - 1]);
      assert front + [calls[|calls| - 1]] == calls;
    }
  }

  lemma ForbiddenIsPromised(calls: seq<Call>, roaming: int)
    requires Down(calls, roaming) && !NeverForbidden(calls)
    ensures Promised(calls, Cancelled)
  {
    hide NeverForbidden, EnabledWhenAllowed, LastRead, Commands, Reconnectable;
  }

  lemma ChangedIsPromised(calls: seq<Call>, roaming: int)
    requires Down(calls, roaming) && !Unchanged(LastRead(calls), roaming)
    ensures Promised(calls, Cancelled)
  {
    hide NeverForbidden, EnabledWhenAllowed, LastRead, Commands, Reconnectable;
  }

  lemma EnableIsPromised(calls: seq<Call>, roaming: int, done: bool)
    requires Down(calls, roaming) && calls[|calls| - 1] == RestoreAllowed(true)
    requires NeverForbidden(calls) && Unchanged(LastRead(calls), roaming)
    ensures Promised(calls + [Write(Enable(roaming), done)], if done then Restored else Failed)
  {
    hide NeverForbidden, EnabledWhenAllowed, LastRead, Commands, Reconnectable;
    var all := calls + [Write(Enable(roaming), done)];
    Appended(calls, Write(Enable(roaming), done));
    assert forall k | 0 <= k < 4 :: all[k] == calls[k];
    assert all[|all| - 1] == Write(Enable(roaming), done);
  }

  // ---------------------------------------------------------------- the stability timer

  const STABLE := 12
  const RECOVER_AFTER := 12

  datatype Reachability = Ready | Down | Unsupported

  datatype Decision = KeepWaiting | IsReady | Recover

  datatype Timer = Timer(healthySince: Option<int>, downSince: Option<int>, recovered: bool)

  /** What happens to a handover: a probe of the path, a recovery begun, or a reset. */
  datatype Input = Observe(health: Reachability, allowed: bool, now: int) | Started | Reset

  function Elapsed(since: int, now: int): int {
    if now > since then now - since else 0
  }

  class Handover {
    var healthySince: Option<int>
    var downSince: Option<int>
    var recovered: bool

    ghost function Value(): Timer
      reads this
    {
      Timer(healthySince, downSince, recovered)
    }

    constructor ()
      ensures Value() == After([])
    {
      healthySince, downSince, recovered := None, None, false;
    }

    method ResetTimers()
      modifies this
      ensures Value() == Stepped(old(Value()), Input.Reset)
    {
      healthySince := None;
      downSince := None;
    }

    method RecoveryStarted()
      modifies this
      ensures Value() == Stepped(old(Value()), Started)
    {
      recovered := true;
      ResetTimers();
    }

    method Judge(health: Reachability, allowed: bool, now: int) returns (d: Decision)
      modifies this
      ensures Value() == Stepped(old(Value()), Observe(health, allowed, now))
      ensures d == Decided(Value(), Observe(health, allowed, now))
    {
      if health != Reachability.Down {
        downSince := None;
        if healthySince.None? {
          healthySince := Some(now);
        }
        if Elapsed(healthySince.value, now) >= STABLE {
          return IsReady;
        }
        return KeepWaiting;
      }
      healthySince := None;
      if downSince.None? {
        downSince := Some(now);
      }
      if allowed && !recovered && Elapsed(downSince.value, now) >= RECOVER_AFTER {
        return Recover;
      }
      return KeepWaiting;
    }
  }

  function OrNow(since: Option<int>, now: int): Option<int> {
    if since.Some? then since else Some(now)
  }

  function Stepped(t: Timer, i: Input): Timer {
    match i
    case Observe(health, _, now) =>
      if health == Reachability.Down then Timer(None, OrNow(t.downSince, now), t.recovered)
      else Timer(OrNow(t.healthySince, now), None, t.recovered)
    case Started => Timer(None, None, true)
    case Reset => Timer(None, None, t.recovered)
  }

  function Decided(t: Timer, i: Input): Decision {
    if !i.Observe? then KeepWaiting
    else if t.healthySince.Some? && Elapsed(t.healthySince.value, i.now) >= STABLE then IsReady
    else if t.downSince.Some? && i.allowed && !t.recovered && Elapsed(t.downSince.value, i.now) >= RECOVER_AFTER then
      Recover
    else KeepWaiting
  }

  function After(inputs: seq<Input>): Timer {
    if inputs == [] then Timer(None, None, false)
    else Stepped(After(inputs[..|inputs| - 1]), inputs[|inputs| - 1])
  }

  /** From input `i` to the end nothing but probes, all finding the path down, or none of them. */
  predicate Steady(inputs: seq<Input>, i: nat, down: bool) {
    && i < |inputs|
    && forall j | i <= j < |inputs| :: inputs[j].Observe? && (inputs[j].health == Reachability.Down <==> down)
  }

  /** The clock does not go back. */
  predicate Monotone(inputs: seq<Input>) {
    forall i, j | 0 <= i < j < |inputs| && inputs[i].Observe? && inputs[j].Observe? :: inputs[i].now <= inputs[j].now
  }

  function SinceOf(t: Timer, down: bool): Option<int> {
    if down then t.downSince else t.healthySince
  }

  /** The timer that runs started at the earliest probe of the steady run that ends now. */
  lemma {:induction false} TimerStart(inputs: seq<Input>, down: bool) returns (first: nat)
    requires Monotone(inputs)
    ensures SinceOf(After(inputs), down).None? ==> forall i: nat :: !Steady(inputs, i, down)
    ensures SinceOf(After(inputs), down).Some? ==>
              && Steady(inputs, first, down) && inputs[first].now == SinceOf(After(inputs), down).value
              && forall i: nat | Steady(inputs, i, down) :: first <= i
  {
    first := 0;
    if inputs != [] {
      var front, last := inputs[..|inputs| - 1], inputs[|inputs| - 1];
      assert forall i, j | 0 <= i < j < |front| :: front[i] == inputs[i] && front[j] == inputs[j];
      first := TimerStart(front, down);
      forall i: nat | Steady(inputs, i, down) && i < |front|
        ensures Steady(front, i, down)
      {}
      if SinceOf(After(front), down).None? {
        first := |front|;
      }
    }
  }

  lemma {:induction false} RecoveredOnce(inputs: seq<Input>)
    ensures After(inputs).recovered <==> Started in inputs
  {
    if inputs != [] {
      RecoveredOnce(inputs[..|inputs| - 1]);
      assert inputs == inputs[..|inputs| - 1] + [inputs[|inputs| - 1]];
    }
  }

  /** Ready means exactly: the last twelve seconds and more were probed with no failure, reset or
      recovery between, and the path is not down now. */
  lemma ReadyExactly(inputs: seq<Input>)
    requires inputs != [] && Monotone(inputs)
    ensures var now := inputs[|inputs| - 1];
            Decided(After(inputs), now) == IsReady <==>
            exists i: nat :: Steady(inputs, i, false) && now.now - inputs[i].now >= STABLE
  {
    var first := TimerStart(inputs, false);
    var last := inputs[|inputs| - 1];
    if i: nat :| Steady(inputs, i, false) && last.now - inputs[i].now >= STABLE {
      assert inputs[first].now <= inputs[i].now;
    }
  }

  /** Recovery is asked for exactly when it is allowed, none was begun before, and the path was found
      down for twelve seconds and more with no other input between. */
  lemma RecoverExactly(inputs: seq<Input>)
    requires inputs != [] && Monotone(inputs)
    ensures var now := inputs[|inputs| - 1];
            Decided(After(inputs), now) == Recover <==>
            && now.Observe? && now.allowed && Started !in inputs
            && exists i: nat :: Steady(inputs, i, true) && now.now - inputs[i].now >= RECOVER_AFTER
  {
    RecoveredOnce(inputs);
    var first := TimerStart(inputs, true);
    var healthy := TimerStart(inputs, false);
    var last := inputs[|inputs| - 1];
    if i: nat :| Steady(inputs, i, true) && last.now - inputs[i].now >= RECOVER_AFTER {
      assert inputs[first].now <= inputs[i].now;
    }
  }
}
