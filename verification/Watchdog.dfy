/** The connectivity watchdog's recovery ladder (zte-agent/src/conn_watchdog.rs): what each event
    does to the machine, as functions on its state, and the machine itself, proved against them.
    Instants are whole seconds on one clock; log lines carry no text. */
module Watchdog {
  import opened Wrappers

  const MINUTE := 60
  const DAY := 24 * 3600
  const TRIGGER_FAILURES := 3
  const TRIGGER_MIN_AGE := 10 * MINUTE
  const RECOVERY_WINDOW := 5 * MINUTE
  const SETTLE := 60
  const USER_ACTIVITY_GUARD := 120
  const GUARD_RETRY := 60

  datatype Rung = PdnReconnect | LpmOnline | ModemReset | Reboot {
    function Cooldown(): int {
      match this
      case PdnReconnect => 10 * MINUTE
      case LpmOnline => 20 * MINUTE
      case ModemReset => 3600
      case Reboot => DAY
    }

    function DailyCap(): Option<nat> {
      match this
      case PdnReconnect | LpmOnline => None
      case ModemReset => Some(3)
      case Reboot => Some(1)
    }

    function Next(allowReboot: bool): Option<Rung> {
      match this
      case PdnReconnect => Some(LpmOnline)
      case LpmOnline => Some(ModemReset)
      case ModemReset => if allowReboot then Some(Reboot) else None
      case Reboot => None
    }
  }

  datatype Config = Config(enabled: bool, allowReboot: bool)

  datatype Event = Wan(connected: bool) | Probe(ok: bool) | Timer | Reconfigure(config: Config)

  datatype Action = Act(rung: Rung) | Log

  datatype State =
    | Idle
    | Waiting(rung: Rung, actedAt: int, fails: nat)
    | Cooling(rung: Rung, until: int)

  /** A rung taken at an instant. */
  datatype Taken = Taken(rung: Rung, at: int)

  /** The machine's fields. */
  datatype Fields = Fields(
    config: Config,
    state: State,
    deadline: Option<int>,
    wan: Option<bool>,
    failures: nat,
    firstFailure: Option<int>,
    history: seq<Taken>,
    activity: Option<int>)

  /** The fields after an event, and the actions it asks for. */
  datatype Outcome = Outcome(m: Fields, actions: seq<Action>)

  function Start(config: Config, seeded: seq<Taken>): Fields {
    Fields(config, Idle, None, None, 0, None, seeded, None)
  }

  // ---------------------------------------------------------------- what blocks a rung

  /** Instants at which `rung` was taken, in history order. */
  function Times(history: seq<Taken>, rung: Rung): seq<int> {
    if history == [] then []
    else
      var before := Times(history[..|history| - 1], rung);
      var last := history[|history| - 1];
      if last.rung == rung then before + [last.at] else before
  }

  function Max(ts: seq<int>): int
    requires ts != []
  {
    if |ts| == 1 then ts[0]
    else
      var rest := Max(ts[..|ts| - 1]);
      if ts[|ts| - 1] >= rest then ts[|ts| - 1] else rest
  }

  /** The instants less than a day old at `now` (one in the future counts as new). */
  function Today(ts: seq<int>, now: int): seq<int> {
    if ts == [] then []
    else
      var before := Today(ts[..|ts| - 1], now);
      var last := ts[|ts| - 1];
      if now - last < DAY then before + [last] else before
  }

  function Insert(t: int, ts: seq<int>): (r: seq<int>)
    ensures |r| == |ts| + 1
  {
    if ts == [] || t <= ts[0] then [t] + ts else [ts[0]] + Insert(t, ts[1..])
  }

  function Sorted(ts: seq<int>): (r: seq<int>)
    ensures |r| == |ts|
  {
    if ts == [] then [] else Insert(ts[|ts| - 1], Sorted(ts[..|ts| - 1]))
  }

  /** The `n`th newest instant. */
  function NthNewest(ts: seq<int>, n: nat): int
    requires 0 < n <= |ts|
  {
    Sorted(ts)[|ts| - n]
  }

  lemma {:induction false} TimesHas(history: seq<Taken>, rung: Rung)
    ensures forall t :: t in Times(history, rung) <==> Taken(rung, t) in history
  {
    if history != [] {
      var before, last := history[..|history| - 1], history[|history| - 1];
      TimesHas(before, rung);
      assert history == before + [last];
    }
  }

  lemma {:induction false} MaxIs(ts: seq<int>)
    requires ts != []
    ensures Max(ts) in ts && forall t | t in ts :: t <= Max(ts)
  {
    if |ts| > 1 {
      MaxIs(ts[..|ts| - 1]);
      assert ts == ts[..|ts| - 1] + [ts[|ts| - 1]];
    }
  }

  lemma {:induction false} TodayHas(ts: seq<int>, now: int)
    ensures forall t :: t in Today(ts, now) <==> t in ts && now - t < DAY
  {
    if ts != [] {
      TodayHas(ts[..|ts| - 1], now);
      assert ts == ts[..|ts| - 1] + [ts[|ts| - 1]];
    }
  }

  lemma {:induction false} InsertHas(t: int, ts: seq<int>)
    ensures forall u :: u in Insert(t, ts) <==> u == t || u in ts
  {
    if ts != [] && t > ts[0] {
      InsertHas(t, ts[1..]);
      assert ts == [ts[0]] + ts[1..];
    }
  }

  lemma {:induction false} SortedHas(ts: seq<int>)
    ensures forall t :: t in Sorted(ts) <==> t in ts
  {
    if ts != [] {
      SortedHas(ts[..|ts| - 1]);
      InsertHas(ts[|ts| - 1], Sorted(ts[..|ts| - 1]));
      assert ts == ts[..|ts| - 1] + [ts[|ts| - 1]];
    }
  }

  /** The `n`th newest of today's instants is less than a day old. */
  lemma NthNewestToday(ts: seq<int>, n: nat, now: int)
    requires 0 < n <= |Today(ts, now)|
    ensures NthNewest(Today(ts, now), n) + DAY > now
  {
    TodayHas(ts, now);
    SortedHas(Today(ts, now));
    assert NthNewest(Today(ts, now), n) in Sorted(Today(ts, now));
  }

  /** The later of the block so far and `at`, if `at` lies ahead. */
  function Consider(block: Option<int>, at: int, now: int): Option<int> {
    if at > now && (block.None? || at > block.value) then Some(at) else block
  }

  function GuardBlock(busy: bool, activity: Option<int>, now: int): Option<int> {
    var b := if busy then Consider(None, now + GUARD_RETRY, now) else None;
    if activity.Some? then Consider(b, activity.value + USER_ACTIVITY_GUARD, now) else b
  }

  function CooldownBlock(block: Option<int>, rung: Rung, same: seq<int>, now: int): Option<int> {
    if same == [] then block else Consider(block, Max(same) + rung.Cooldown(), now)
  }

  function CapBlock(block: Option<int>, rung: Rung, same: seq<int>, now: int): Option<int> {
    var cap := rung.DailyCap();
    if cap.None? then block
    else
      var today := Today(same, now);
      if |today| < cap.value then block
      else Consider(block, NthNewest(today, cap.value) + DAY, now)
  }

  function BlockedBy(guard: Option<int>, rung: Rung, same: seq<int>, now: int): Option<int> {
    CapBlock(CooldownBlock(guard, rung, same, now), rung, same, now)
  }

  /** When `rung` may run, if something holds it back now. */
  function BlockedUntil(history: seq<Taken>, busy: bool, activity: Option<int>, rung: Rung, now: int): Option<int> {
    BlockedBy(GuardBlock(busy, activity, now), rung, Times(history, rung), now)
  }

  /** What holds each rung back now. */
  type Hold = Rung -> Option<int>

  function HoldOf(m: Fields, busy: bool, now: int): Hold {
    (rung: Rung) => BlockedUntil(m.history, busy, m.activity, rung, now)
  }

  // ---------------------------------------------------------------- what each event does

  function TryAct(m: Fields, rung: Rung, hold: Hold, now: int): Outcome {
    var block := hold(rung);
    if block.Some? then
      Outcome(m.(state := Cooling(rung, block.value), deadline := block), [Log])
    else
      Outcome(m.(history := m.history + [Taken(rung, now)],
                 state := Waiting(rung, now, 0),
                 deadline := Some(now + RECOVERY_WINDOW)),
              [Act(rung)])
  }

  function Reset(m: Fields): Fields {
    m.(state := Idle, deadline := None, failures := 0, firstFailure := None)
  }

  function Escalate(m: Fields, rung: Rung, hold: Hold, now: int): Outcome {
    match rung.Next(m.config.allowReboot)
    case Some(next) =>
      var o := TryAct(m, next, hold, now);
      Outcome(o.m, [Log] + o.actions)
    case None => Outcome(Reset(m), [Log, Log])
  }

  function OnWan(m: Fields, connected: bool, now: int): Outcome {
    var prev := m.wan;
    var m := m.(wan := Some(connected));
    if connected then
      if m.state.Waiting? && prev != Some(true) && now >= m.state.actedAt + RECOVERY_WINDOW
      then Outcome(Reset(m), [Log])
      else Outcome(m, [])
    else if prev == Some(false) then Outcome(m, [])
    else
      var m := m.(failures := 0, firstFailure := None);
      if m.state.Cooling? then Outcome(Reset(m), [Log]) else Outcome(m, [])
  }

  function OnProbe(m: Fields, ok: bool, hold: Hold, now: int): Outcome {
    if ok then
      var m := m.(failures := 0, firstFailure := None);
      if m.state.Idle? then Outcome(m, []) else Outcome(m.(state := Idle, deadline := None), [Log])
    else if !m.config.enabled || m.wan != Some(true) then Outcome(m, [])
    else
      match m.state
      case Idle =>
        var first := if m.firstFailure.Some? then m.firstFailure.value else now;
        var m := m.(failures := m.failures + 1, firstFailure := Some(first));
        if m.failures >= TRIGGER_FAILURES && now - first >= TRIGGER_MIN_AGE then
          var o := TryAct(m, PdnReconnect, hold, now);
          Outcome(o.m, [Log] + o.actions)
        else Outcome(m, [])
      case Waiting(rung, actedAt, fails) =>
        if now < actedAt + SETTLE then Outcome(m, [])
        else
          var m := m.(state := Waiting(rung, actedAt, fails + 1));
          if now >= actedAt + RECOVERY_WINDOW then Escalate(m, rung, hold, now) else Outcome(m, [])
      case Cooling(_, _) => Outcome(m, [])
  }

  function OnTimer(m: Fields, hold: Hold, now: int): Outcome {
    if m.deadline.None? || now < m.deadline.value then Outcome(m, [])
    else
      var m := m.(deadline := None);
      match m.state
      case Idle => Outcome(m, [])
      case Waiting(rung, _, fails) =>
        if m.wan != Some(true) then Outcome(Reset(m), [Log])
        else if fails > 0 then Escalate(m, rung, hold, now)
        else Outcome(m, [Log])
      case Cooling(rung, _) => TryAct(m, rung, hold, now)
  }

  function OnConfig(m: Fields, config: Config): Outcome {
    var was := m.config;
    var m := m.(config := config);
    if config.enabled then Outcome(m, if was.enabled then [] else [Log])
    else Outcome(Reset(m), if was.enabled then [Log] else [])
  }

  function Step(m: Fields, event: Event, hold: Hold, now: int): Outcome {
    match event
    case Wan(connected) => OnWan(m, connected, now)
    case Probe(ok) => OnProbe(m, ok, hold, now)
    case Timer => OnTimer(m, hold, now)
    case Reconfigure(config) => OnConfig(m, config)
  }

  // ---------------------------------------------------------------- the machine

  class Machine {
    var config: Config
    var state: State
    var deadline: Option<int>
    var wanConnected: Option<bool>
    var failures: nat
    var firstFailure: Option<int>
    var history: seq<Taken>
    var userActivity: Option<int>

    ghost function Value(): Fields
      reads this
    {
      Fields(config, state, deadline, wanConnected, failures, firstFailure, history, userActivity)
    }

    constructor (config: Config)
      ensures Value() == Start(config, [])
    {
      this.config := config;
      state := Idle;
      deadline := None;
      wanConnected := None;
      failures := 0;
      firstFailure := None;
      history := [];
      userActivity := None;
    }

    method SetUserActivity(at: Option<int>)
      modifies this
      ensures Value() == old(Value()).(activity := at)
    {
      userActivity := at;
    }

    method RecordAction(rung: Rung, at: int)
      modifies this
      ensures Value() == old(Value()).(history := old(history) + [Taken(rung, at)])
    {
      history := history + [Taken(rung, at)];
    }

    /** `busy` is the answer the busy check would give at `now`. */
    method HandleEvent(event: Event, busy: bool, now: int) returns (actions: seq<Action>)
      modifies this
      ensures Outcome(Value(), actions) == Step(old(Value()), event, HoldOf(old(Value()), busy, now), now)
    {
      match event
      case Wan(connected) => actions := HandleWan(connected, now);
      case Probe(ok) => actions := HandleProbe(ok, busy, now);
      case Timer => actions := HandleTimer(busy, now);
      case Reconfigure(config) => actions := HandleConfig(config);
    }

    method HandleWan(connected: bool, now: int) returns (actions: seq<Action>)
      modifies this
      ensures Outcome(Value(), actions) == OnWan(old(Value()), connected, now)
    {
      var prev := wanConnected;
      wanConnected := Some(connected);
      if connected {
        if state.Waiting? {
          if prev != Some(true) && now >= state.actedAt + RECOVERY_WINDOW {
            actions := ResetLadder();
            return;
          }
        }
        return [];
      }
      if prev == Some(false) {
        return [];
      }
      failures := 0;
      firstFailure := None;
      match state
      case Idle | Waiting(_, _, _) => actions := [];
      case Cooling(_, _) => actions := ResetLadder();
    }

    method ResetLadder() returns (actions: seq<Action>)
      modifies this
      ensures Outcome(Value(), actions) == Outcome(Reset(old(Value())), [Log])
    {
      state := Idle;
      deadline := None;
      failures := 0;
      firstFailure := None;
      actions := [Log];
    }

    method HandleProbe(ok: bool, busy: bool, now: int) returns (actions: seq<Action>)
      modifies this
      ensures Outcome(Value(), actions) == OnProbe(old(Value()), ok, HoldOf(old(Value()), busy, now), now)
    {
      if ok {
        failures := 0;
        firstFailure := None;
        if state.Idle? {
          return [];
        }
        state := Idle;
        deadline := None;
        return [Log];
      }
      if !config.enabled || wanConnected != Some(true) {
        return [];
      }
      match state
      case Idle =>
        failures := failures + 1;
        if firstFailure.None? {
          firstFailure := Some(now);
        }
        if failures >= TRIGGER_FAILURES && now - firstFailure.value >= TRIGGER_MIN_AGE {
          var more := RunOrWait(PdnReconnect, busy, now);
          return [Log] + more;
        }
        actions := [];
      case Waiting(rung, actedAt, fails) =>
        if now < actedAt + SETTLE {
          return [];
        }
        state := Waiting(rung, actedAt, fails + 1);
        if now >= actedAt + RECOVERY_WINDOW {
          actions := MoveUp(rung, busy, now);
          return;
        }
        actions := [];
      case Cooling(_, _) => actions := [];
    }

    method HandleTimer(busy: bool, now: int) returns (actions: seq<Action>)
      modifies this
      ensures Outcome(Value(), actions) == OnTimer(old(Value()), HoldOf(old(Value()), busy, now), now)
    {
      if deadline.None? || now < deadline.value {
        return [];
      }
      deadline := None;
      match state
      case Idle => actions := [];
      case Waiting(rung, _, fails) =>
        if wanConnected != Some(true) {
          actions := ResetLadder();
        } else if fails > 0 {
          actions := MoveUp(rung, busy, now);
        } else {
          actions := [Log];
        }
      case Cooling(rung, _) => actions := RunOrWait(rung, busy, now);
    }

    method HandleConfig(config: Config) returns (actions: seq<Action>)
      modifies this
      ensures Outcome(Value(), actions) == OnConfig(old(Value()), config)
    {
      var was := this.config;
      this.config := config;
      if config.enabled {
        return if was.enabled then [] else [Log];
      }
      failures := 0;
      firstFailure := None;
      state := Idle;
      deadline := None;
      actions := if was.enabled then [Log] else [];
    }

    method MoveUp(rung: Rung, busy: bool, now: int) returns (actions: seq<Action>)
      modifies this
      ensures Outcome(Value(), actions) == Escalate(old(Value()), rung, HoldOf(old(Value()), busy, now), now)
    {
      actions := [Log];
      match rung.Next(config.allowReboot)
      case Some(next) =>
        var more := RunOrWait(next, busy, now);
        actions := actions + more;
      case None =>
        state := Idle;
        deadline := None;
        failures := 0;
        firstFailure := None;
        actions := actions + [Log];
    }

    method RunOrWait(rung: Rung, busy: bool, now: int) returns (actions: seq<Action>)
      modifies this
      ensures Outcome(Value(), actions) == TryAct(old(Value()), rung, HoldOf(old(Value()), busy, now), now)
    {
      var block := BlockedUntil(history, busy, userActivity, rung, now);
      if block.Some? {
        state := Cooling(rung, block.value);
        deadline := block;
        return [Log];
      }
      history := history + [Taken(rung, now)];
      state := Waiting(rung, now, 0);
      deadline := Some(now + RECOVERY_WINDOW);
      actions := [Act(rung)];
    }
  }
}
