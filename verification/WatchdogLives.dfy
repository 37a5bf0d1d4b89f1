/** Events and starts together (zte-agent/src/conn_watchdog.rs): the watchdog started any number of
    times, each time rebuilt from the state file and then run by any events. */
module WatchdogLives {
  import opened Wrappers
  import opened Watchdog
  import opened WatchdogRuns
  import opened WatchdogRestart
  import opened WatchdogLifetimes

  /** The agent was away for some seconds, starts on a clock that reads `mono` and can date nothing
      before `least`, and handles the events of `tr`; at those in `failing`, turning fast boot off
      for a reboot fails. */
  datatype Life = Life(away: nat, mono: int, least: int, config: Config, tr: seq<Entry>, failing: set<nat>)

  function Elapsed(since: int, now: int): nat {
    if now >= since then now - since else 0
  }

  function ActOps(act: Option<Rung>, fails: bool): seq<Op> {
    match act
    case None => []
    case Some(rung) => if rung == Reboot && fails then [FailedReboot] else [Take(rung)]
  }

  /** What the events of a run do, on a clock that read `mono` before them. */
  function RunOps(tr: seq<Entry>, mono: int, failing: set<nat>): seq<Op> {
    if tr == [] then []
    else
      var n := |tr| - 1;
      RunOps(tr[..n], mono, failing)
      + [Pass(Elapsed(if n == 0 then mono else tr[n - 1].now, tr[n].now))]
      + ActOps(tr[n].act, n in failing)
  }

  function StartOps(life: Life): seq<Op> {
    [Pass(life.away), Restart(life.mono, life.least)]
  }

  function LivesOps(lives: seq<Life>): seq<Op> {
    if lives == [] then []
    else
      var life := lives[|lives| - 1];
      LivesOps(lives[..|lives| - 1]) + StartOps(life) + RunOps(life.tr, life.mono, life.failing)
  }

  /** The events are a run of a machine with the world's history, from its clock on. */
  ghost predicate RunsIn(w: World, tr: seq<Entry>, config: Config) {
    tr != [] ==> RunFrom(tr, config, w.machine) && Mono(w) <= tr[0].now
  }

  /** Each start's events are a run of the machine rebuilt from the file, on a clock that can date a
      day before the start. */
  ghost predicate Lived(w: World, lives: seq<Life>) {
    lives != [] ==>
      var before, life := lives[..|lives| - 1], lives[|lives| - 1];
      && Lived(w, before)
      && life.least <= life.mono - DAY
      && RunsIn(ApplyAll(w, LivesOps(before) + StartOps(life)), life.tr, life.config)
  }

  // ---------------------------------------------------------------- one operation after others

  lemma ApplyLast(w: World, ops: seq<Op>, op: Op)
    ensures ApplyAll(w, ops + [op]) == Apply(ApplyAll(w, ops), op)
    ensures Gated(w, ops + [op]) <==> Gated(w, ops) && Allowed(ApplyAll(w, ops), op)
  {
    assert (ops + [op])[..|ops|] == ops;
  }

  lemma {:induction false} Together(w: World, a: seq<Op>, b: seq<Op>)
    ensures ApplyAll(w, a + b) == ApplyAll(ApplyAll(w, a), b)
    ensures Gated(w, a + b) <==> Gated(w, a) && Gated(ApplyAll(w, a), b)
  {
    hide Apply, Allowed;
    if b == [] {
      assert a + b == a;
    } else {
      var before, last := b[..|b| - 1], b[|b| - 1];
      assert b == before + [last] && a + b == (a + before) + [last];
      Together(w, a, before);
      ApplyLast(w, a + before, last);
      ApplyLast(ApplyAll(w, a), before, last);
    }
  }

  // ---------------------------------------------------------------- a run of events

  lemma PassGated(w: World, seconds: nat)
    ensures Gated(w, [Pass(seconds)]) && ApplyAll(w, [Pass(seconds)]) == w.(now := w.now + seconds)
  {
    ApplyLast(w, [], Pass(seconds));
    assert [] + [Pass(seconds)] == [Pass(seconds)];
  }

  /** What an event takes was not held back, and is written down by both clocks. */
  lemma ActGated(w: World, act: Option<Rung>, fails: bool)
    requires act.Some? ==> Unheld(w, act.value)
    ensures var v := ApplyAll(w, ActOps(act, fails));
            && Gated(w, ActOps(act, fails)) && v.offset == w.offset && v.now == w.now
            && v.machine == w.machine + (if act.Some? then [Taken(act.value, Mono(w))] else [])
            && v.all == w.all + (if act.Some? then [Taken(act.value, w.now)] else [])
  {
    hide Unheld;
    if act.Some? {
      var op := if act.value == Reboot && fails then FailedReboot else Take(act.value);
      ApplyLast(w, [], op);
      assert [] + [op] == [op] == ActOps(act, fails);
    }
  }

  lemma EventUnheld(w: World, e: Entry)
    requires Follows(e) && e.before.history == w.machine && e.now == Mono(w)
    ensures e.act.Some? ==> Unheld(w, e.act.value)
    ensures e.after.history == w.machine + (if e.act.Some? then [Taken(e.act.value, e.now)] else [])
  {
    hide BlockedUntil, Step;
    var m := e.before.(activity := e.activity);
    StepShape(m, e.event, HoldOf(m, e.busy, e.now), e.now);
    if e.act.Some? {
      assert BlockedUntil(w.machine, e.busy, e.activity, e.act.value, Mono(w)).None?;
    }
  }

  lemma RunBefore(w: World, tr: seq<Entry>, config: Config)
    requires tr != [] && RunsIn(w, tr, config)
    ensures RunsIn(w, tr[..|tr| - 1], config) && Follows(tr[|tr| - 1])
  {
    hide Follows;
    var before := tr[..|tr| - 1];
    forall i {:trigger Follows(before[i])} | 0 <= i < |before|
      ensures Follows(before[i])
    {
      assert Follows(tr[i]);
    }
  }

  /** The events of a run take rungs only as the machine's limits allow; they leave the world with
      the machine's own history and clock, and what was taken is what they ran. */
  lemma {:induction false} RunIsGated(w: World, tr: seq<Entry>, config: Config, failing: set<nat>)
    requires RunsIn(w, tr, config)
    ensures var ops := RunOps(tr, Mono(w), failing); var v := ApplyAll(w, ops);
            && Gated(w, ops) && v.offset == w.offset
            && v.all == w.all + Shift(Acts(tr), -w.offset)
            && v.machine == (if tr == [] then w.machine else tr[|tr| - 1].after.history)
            && Mono(v) == (if tr == [] then Mono(w) else tr[|tr| - 1].now)
  {
    hide Follows, Unheld, Apply, Gated, ApplyAll, Allowed, Shift, ActOps;
    if tr == [] {
      NothingGated(w);
    } else {
      var n := |tr| - 1;
      var e := tr[n];
      var before := RunOps(tr[..n], Mono(w), failing);
      RunBefore(w, tr, config);
      RunIsGated(w, tr[..n], config, failing);
      var v := ApplyAll(w, before);
      var passed := Elapsed(if n == 0 then Mono(w) else tr[n - 1].now, e.now);
      PassGated(v, passed);
      var u := v.(now := v.now + passed);
      EventUnheld(u, e);
      ActGated(u, e.act, n in failing);
      Together(w, before, [Pass(passed)]);
      Together(w, before + [Pass(passed)], ActOps(e.act, n in failing));
      var acts := Acts(tr[..n]);
      if e.act.Some? {
        ShiftSnoc(acts, Taken(e.act.value, e.now), -w.offset);
        assert Acts(tr) == acts + [Taken(e.act.value, e.now)];
        assert w.all + (Shift(acts, -w.offset) + [Taken(e.act.value, u.now)]) == v.all + [Taken(e.act.value, u.now)];
      } else {
        assert Acts(tr) == acts + [] == acts;
      }
    }
  }

  lemma NothingGated(w: World)
    ensures Gated(w, []) && ApplyAll(w, []) == w && Shift([], -w.offset) == []
  {}

  // ---------------------------------------------------------------- any number of starts

  lemma RestartedClock(w: World, life: Life)
    ensures Gated(w, StartOps(life)) && Mono(ApplyAll(w, StartOps(life))) == life.mono
  {
    PassGated(w, life.away);
    ApplyLast(w, [Pass(life.away)], Restart(life.mono, life.least));
    assert [Pass(life.away)] + [Restart(life.mono, life.least)] == StartOps(life);
  }

  lemma {:induction false} RunOpsStayUp(tr: seq<Entry>, mono: int, failing: set<nat>)
    ensures forall op | op in RunOps(tr, mono, failing) :: !op.Restart?
    ensures failing == {} ==> FailedReboot !in RunOps(tr, mono, failing)
  {
    if tr != [] {
      RunOpsStayUp(tr[..|tr| - 1], mono, failing);
    }
  }

  lemma {:induction false} LivesDating(w: World, lives: seq<Life>)
    requires Lived(w, lives)
    ensures Dating(LivesOps(lives))
  {
    hide RunsIn, ApplyAll;
    if lives != [] {
      var before, life := lives[..|lives| - 1], lives[|lives| - 1];
      LivesDating(w, before);
      var run := RunOps(life.tr, life.mono, life.failing);
      RunOpsStayUp(life.tr, life.mono, life.failing);
      forall i | 0 <= i < |run|
        ensures !run[i].Restart?
      {
        assert run[i] in run;
      }
    }
  }

  lemma {:induction false} LivesGated(w: World, lives: seq<Life>)
    requires Lived(w, lives)
    ensures Gated(w, LivesOps(lives))
  {
    hide Gated, ApplyAll, RunsIn, RunOps, StartOps;
    if lives == [] {
      NothingGated(w);
    } else {
      var before, life := lives[..|lives| - 1], lives[|lives| - 1];
      var ops, run := LivesOps(before) + StartOps(life), RunOps(life.tr, life.mono, life.failing);
      LivesGated(w, before);
      RestartedClock(ApplyAll(w, LivesOps(before)), life);
      Together(w, LivesOps(before), StartOps(life));
      RunIsGated(ApplyAll(w, ops), life.tr, life.config, life.failing);
      Together(w, ops, run);
    }
  }

  lemma {:induction false} NoFailures(lives: seq<Life>)
    requires forall life | life in lives :: life.failing == {}
    ensures FailedReboot !in LivesOps(lives)
  {
    if lives != [] {
      var life := lives[|lives| - 1];
      NoFailures(lives[..|lives| - 1]);
      RunOpsStayUp(life.tr, life.mono, life.failing);
    }
  }

  /** Whatever the events and however often the agent starts: the rungs that were recorded keep
      every cooldown and daily cap; all rungs taken do exactly if each reboot found the newest one
      before it known, and so in any case if turning fast boot off never failed. */
  lemma LivesKeepLimits(start: int, mono: int, lives: seq<Life>)
    requires Lived(FirstStart(start, mono), lives)
    ensures var first := FirstStart(start, mono); var w := ApplyAll(first, LivesOps(lives));
            && WithinLimits(w.filed)
            && (WithinLimits(w.all) <==> RebootsKnown(first, LivesOps(lives)))
            && ((forall life | life in lives :: life.failing == {}) ==> WithinLimits(w.all))
  {
    hide Gated, ApplyAll, RunsIn, WithinLimits, RebootsKnown, LivesOps, Lived;
    LivesGated(FirstStart(start, mono), lives);
    LivesDating(FirstStart(start, mono), lives);
    LimitsSurvive(start, mono, LivesOps(lives));
    if forall life | life in lives :: life.failing == {} {
      NoFailures(lives);
    }
  }
}
