/** Which events move the recovery ladder where, exactly (zte-agent/src/conn_watchdog.rs): when a rung
    is called for, when the ladder is given up, and that a new outage starts a new one. */
module WatchdogLadder {
  import opened Wrappers
  import opened Watchdog
  import opened WatchdogRuns

  /** A probe failed while the watchdog is enabled and the WAN known connected. */
  predicate Fails(m: Fields, event: Event) {
    event == Probe(false) && m.config.enabled && m.wan == Some(true)
  }

  predicate TimerDue(m: Fields, event: Event, now: int) {
    event.Timer? && m.deadline.Some? && now >= m.deadline.value
  }

  /** Three failures in a row over ten minutes, with this one. */
  predicate Triggers(m: Fields, event: Event, now: int) {
    && m.state.Idle? && Fails(m, event)
    && m.failures + 1 >= TRIGGER_FAILURES && now - m.firstFailure.GetOr(now) >= TRIGGER_MIN_AGE
  }

  /** The rung the ladder calls for at an event: the first at the trigger, the next one when a rung's
      window ends unrecovered, the cooling one when its time has come. */
  function Called(m: Fields, event: Event, now: int): Option<Rung> {
    match m.state
    case Idle => if Triggers(m, event, now) then Some(PdnReconnect) else None
    case Waiting(rung, _, _) => if WindowEnds(m, event, now) then rung.Next(m.config.allowReboot) else None
    case Cooling(rung, until) => if event.Timer? && now >= until then Some(rung) else None
  }

  /** The ladder is given up: a good probe, disabling, a WAN drop while a rung cools, a reconnect after
      the window of the rung that waits, its end with the WAN down, or with no rung left. */
  predicate GivenUp(m: Fields, event: Event, now: int) {
    && !m.state.Idle?
    && (|| Ends(event)
        || (m.state.Cooling? && event == Wan(false))
        || (m.state.Waiting?
            && (|| (event == Wan(true) && m.wan != Some(true) && now >= m.state.actedAt + RECOVERY_WINDOW)
                || (TimerDue(m, event, now) && m.wan != Some(true))
                || (WindowEnds(m, event, now) && m.state.rung.Next(m.config.allowReboot).None?))))
  }

  /** A failed probe that counts towards giving the waiting rung up. */
  predicate CountsAgainst(m: Fields, event: Event, now: int) {
    m.state.Waiting? && Fails(m, event) && now >= m.state.actedAt + SETTLE
  }

  /** Where one event leaves the ladder. */
  ghost predicate Moved(m: Fields, event: Event, hold: Hold, now: int, o: Outcome) {
    var called := Called(m, event, now);
    && (ActOf(o.actions).Some? <==> called.Some? && hold(called.value).None?)
    && (ActOf(o.actions).Some? ==>
          && ActOf(o.actions) == called && o.m.state == Waiting(called.value, now, 0)
          && o.m.deadline == Some(now + RECOVERY_WINDOW))
    && (called.Some? && hold(called.value).Some? ==>
          && o.m.state == Cooling(called.value, hold(called.value).value)
          && o.m.deadline == hold(called.value))
    && (GivenUp(m, event, now) ==> o.m.state.Idle? && o.m.deadline.None?)
    && (GivenUp(m, event, now) ==> o.m.failures == 0 && o.m.firstFailure.None?)
    && (called.None? && !GivenUp(m, event, now) ==>
          && o.m.state == (if CountsAgainst(m, event, now) then m.state.(fails := m.state.fails + 1) else m.state)
          && o.m.deadline == (if TimerDue(m, event, now) then None else m.deadline))
  }

  lemma WanMoves(m: Fields, connected: bool, hold: Hold, now: int)
    requires LadderInvariant(m)
    ensures Moved(m, Wan(connected), hold, now, OnWan(m, connected, now))
  {}

  lemma ProbeMoves(m: Fields, ok: bool, hold: Hold, now: int)
    requires LadderInvariant(m)
    ensures Moved(m, Probe(ok), hold, now, OnProbe(m, ok, hold, now))
  {}

  lemma TimerMoves(m: Fields, hold: Hold, now: int)
    requires LadderInvariant(m)
    ensures Moved(m, Timer, hold, now, OnTimer(m, hold, now))
  {}

  lemma ConfigMoves(m: Fields, config: Config, hold: Hold, now: int)
    requires LadderInvariant(m)
    ensures Moved(m, Reconfigure(config), hold, now, OnConfig(m, config))
  {}

  lemma Moves(m: Fields, event: Event, hold: Hold, now: int)
    requires LadderInvariant(m)
    ensures Moved(m, event, hold, now, Step(m, event, hold, now))
  {
    hide Moved, LadderInvariant, OnWan, OnProbe, OnTimer, OnConfig;
    match event
    case Wan(connected) => WanMoves(m, connected, hold, now);
    case Probe(ok) => ProbeMoves(m, ok, hold, now);
    case Timer => TimerMoves(m, hold, now);
    case Reconfigure(config) => ConfigMoves(m, config, hold, now);
  }

  /** A rung is run exactly when the ladder calls for it and nothing holds it back. */
  lemma RungExactly(m: Fields, event: Event, hold: Hold, now: int, rung: Rung)
    requires LadderInvariant(m)
    ensures ActOf(Step(m, event, hold, now).actions) == Some(rung)
       <==> Called(m, event, now) == Some(rung) && hold(rung).None?
  {
    hide Called, Step, LadderInvariant, GivenUp;
    Moves(m, event, hold, now);
  }

  /** The machine goes back to idle exactly when the ladder is given up, with no deadline and no
      failure counted. */
  lemma IdleExactly(m: Fields, event: Event, hold: Hold, now: int)
    requires LadderInvariant(m) && !m.state.Idle?
    ensures var after := Step(m, event, hold, now).m;
            && (after.state.Idle? <==> GivenUp(m, event, now))
            && (after.state.Idle? ==> after.deadline.None? && after.failures == 0 && after.firstFailure.None?)
  {
    hide Step;
    Moves(m, event, hold, now);
  }

  /** How failures are counted while idle. */
  lemma CountExactly(m: Fields, event: Event, hold: Hold, now: int)
    requires LadderInvariant(m) && m.state.Idle?
    ensures var after := Step(m, event, hold, now).m;
            && (Fails(m, event) ==>
                  && after.failures == m.failures + 1 && after.firstFailure == Some(m.firstFailure.GetOr(now)))
            && (!Fails(m, event) && !Breaks(event) ==>
                  after.failures == m.failures && after.firstFailure == m.firstFailure)
            && (Ends(event) ==> after.failures == 0)
            && (event == Wan(false) ==> after.failures == 0)
  {}

  // ---------------------------------------------------------------- a new ladder

  /** The first rung was run, or waits for its guard. */
  predicate StartedLadder(e: Entry) {
    && e.before.state.Idle?
    && (e.act == Some(PdnReconnect) || (e.after.state.Cooling? && e.after.state.rung == PdnReconnect))
  }

  lemma EntryMoves(e: Entry)
    requires Follows(e) && LadderInvariant(e.before) && e.before.state.Idle?
    ensures StartedLadder(e) <==> Triggers(e.before, e.event, e.now)
    ensures e.after.state.Idle? <==> !StartedLadder(e)
  {
    hide Step;
    var m := e.before.(activity := e.activity);
    Moves(m, e.event, HoldOf(m, e.busy, e.now), e.now);
  }

  /** From an idle machine: still idle, or a new ladder was started on the way. */
  lemma {:induction false} IdleUntilStarted(tr: seq<Entry>, config: Config, seeded: seq<Taken>, i: nat, c: nat)
    requires RunFrom(tr, config, seeded) && i <= c < |tr| && tr[i].after.state.Idle?
    ensures (exists j :: i < j <= c && StartedLadder(tr[j])) || forall j | i <= j <= c :: tr[j].after.state.Idle?
    decreases c
  {
    hide Follows, LadderInvariant;
    if i < c {
      IdleUntilStarted(tr, config, seeded, i, c - 1);
      LadderHolds(tr, config, seeded, c);
      assert Follows(tr[c]);
      if tr[c - 1].after.state.Idle? {
        EntryMoves(tr[c]);
      }
    }
  }

  /** Enabled and known connected, which only what breaks a count of failures changes. */
  predicate Watching(m: Fields) {
    m.config.enabled && m.wan == Some(true)
  }

  lemma StaysWatching(m: Fields, event: Event, hold: Hold, now: int)
    requires Watching(m) && !Breaks(event)
    ensures Watching(Step(m, event, hold, now).m)
  {}

  lemma EntryCounts(e: Entry)
    requires Follows(e) && LadderInvariant(e.before) && e.before.state.Idle? && Watching(e.before) && !Breaks(e.event)
    ensures Watching(e.after)
    ensures e.event == Probe(false) ==>
              && e.after.failures == e.before.failures + 1
              && e.after.firstFailure == Some(e.before.firstFailure.GetOr(e.now))
    ensures e.event != Probe(false) ==>
              e.after.failures == e.before.failures && e.after.firstFailure == e.before.firstFailure
  {
    hide Step;
    var m := e.before.(activity := e.activity);
    CountExactly(m, e.event, HoldOf(m, e.busy, e.now), e.now);
    StaysWatching(m, e.event, HoldOf(m, e.busy, e.now), e.now);
  }

  /** While idle, failures are counted from the first one at `k`, or from before it. */
  lemma {:induction false} Counted(tr: seq<Entry>, config: Config, seeded: seq<Taken>, k: nat, j: nat)
    requires RunFrom(tr, config, seeded) && k <= j < |tr| && Watching(tr[k].before)
    requires tr[k].event == Probe(false) && Unbroken(tr, k, j)
    requires forall l | k <= l <= j :: tr[l].before.state.Idle?
    ensures Watching(tr[j].after) && tr[j].after.failures >= FailedProbes(tr, k, j)
    ensures tr[j].after.firstFailure.Some? && tr[j].after.firstFailure.value <= tr[k].now
    decreases j
  {
    hide Follows;
    LadderHolds(tr, config, seeded, j);
    assert Follows(tr[j]);
    if k < j {
      Counted(tr, config, seeded, k, j - 1);
    } else {
      LadderHolds(tr, config, seeded, k);
      FirstFailurePast(tr, config, seeded, k);
    }
    EntryCounts(tr[j]);
  }

  /** The first counted failure is in the past. */
  lemma FirstFailurePast(tr: seq<Entry>, config: Config, seeded: seq<Taken>, k: nat)
    requires RunFrom(tr, config, seeded) && k < |tr|
    ensures tr[k].before.firstFailure.Some? ==> tr[k].before.firstFailure.value <= tr[k].now
  {
    if k > 0 {
      LadderHolds(tr, config, seeded, k);
      ClimbHolds(tr, config, seeded, k - 1);
    }
  }

  /** A new outage starts a new ladder: once the machine is idle, however it got there, three failed
      probes spanning ten minutes, watched throughout, run the first rung or leave it waiting for its
      guard. */
  lemma NewLadder(tr: seq<Entry>, config: Config, seeded: seq<Taken>, i: nat, k: nat, c: nat)
    requires RunFrom(tr, config, seeded) && i < k <= c < |tr| && tr[i].after.state.Idle?
    requires Triggered(tr, k, c) && tr[c].event == Probe(false) && Watching(tr[k].before)
    ensures exists j :: i < j <= c && StartedLadder(tr[j])
  {
    hide Follows, LadderInvariant;
    IdleUntilStarted(tr, config, seeded, i, c);
    if forall j | i <= j <= c :: tr[j].after.state.Idle? {
      forall l | k <= l <= c - 1
        ensures tr[l].before.state.Idle?
      {
        assert tr[l].before == tr[l - 1].after;
      }
      Counted(tr, config, seeded, k, c - 1);
      LadderHolds(tr, config, seeded, c);
      assert Follows(tr[c]);
      EntryMoves(tr[c]);
    }
  }
}
