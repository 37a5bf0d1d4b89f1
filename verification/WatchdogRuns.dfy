/** What holds of the recovery ladder over whole runs: cooldowns and daily caps, the ladder
    invariant, and the order in which the ladder is climbed. */
module WatchdogRuns {
  import opened Wrappers
  import opened Watchdog

  /** One event handled at `now`. The runtime copies the last user activity into the machine
      first, and `busy` is what the busy check would answer. */
  datatype Entry = Entry(
    event: Event,
    busy: bool,
    activity: Option<int>,
    now: int,
    before: Fields,
    after: Fields,
    act: Option<Rung>)

  /** The rung an event's actions run, if any. */
  function ActOf(actions: seq<Action>): Option<Rung> {
    if actions != [] && actions[|actions| - 1].Act? then Some(actions[|actions| - 1].rung) else None
  }

  predicate Follows(e: Entry) {
    var m := e.before.(activity := e.activity);
    var o := Step(m, e.event, HoldOf(m, e.busy, e.now), e.now);
    e.after == o.m && e.act == ActOf(o.actions)
  }

  /** A run of the machine under a clock that never goes back. */
  ghost predicate Run(tr: seq<Entry>) {
    && (forall i {:trigger Follows(tr[i])} | 0 <= i < |tr| :: Follows(tr[i]))
    && (forall i | 0 < i < |tr| :: tr[i].before == tr[i - 1].after)
    && Clocked(tr)
  }

  ghost predicate Clocked(tr: seq<Entry>) {
    forall i, j | 0 <= i <= j < |tr| :: tr[i].now <= tr[j].now
  }

  ghost predicate RunFrom(tr: seq<Entry>, config: Config, seeded: seq<Taken>) {
    Run(tr) && tr != [] && tr[0].before == Start(config, seeded)
  }

  // ---------------------------------------------------------------- one event

  /** An event runs at most one rung, as its last action; it is recorded, nothing held it back,
      and nothing else touches the history. */
  lemma StepShape(m: Fields, event: Event, hold: Hold, now: int)
    ensures var o := Step(m, event, hold, now);
            var act := ActOf(o.actions);
            && (forall k | 0 <= k < |o.actions| - 1 :: o.actions[k].Log?)
            && (act.None? ==> o.m.history == m.history)
            && (act.Some? ==>
                  && o.m.history == m.history + [Taken(act.value, now)]
                  && o.m.state == Waiting(act.value, now, 0)
                  && hold(act.value).None?)
  {}

  // ---------------------------------------------------------------- cooldowns and daily caps

  /** How often `rung` was taken from `lo` up to but not at `hi`. */
  function Count(history: seq<Taken>, rung: Rung, lo: int, hi: int): nat {
    if history == [] then 0
    else
      var last := history[|history| - 1];
      Count(history[..|history| - 1], rung, lo, hi)
      + (if last.rung == rung && lo <= last.at < hi then 1 else 0)
  }

  /** Rungs are a cooldown apart and no 24-hour window holds more than the cap. */
  ghost predicate WithinLimits(history: seq<Taken>) {
    && (forall i, j | 0 <= i < j < |history| && history[i].rung == history[j].rung ::
          history[j].at - history[i].at >= history[j].rung.Cooldown())
    && (forall rung: Rung, lo: int :: WithinCap(history, rung, lo))
  }

  /** The 24 hours from `lo` hold no more than the cap. */
  predicate WithinCap(history: seq<Taken>, rung: Rung, lo: int) {
    rung.DailyCap().Some? ==> Count(history, rung, lo, lo + DAY) <= rung.DailyCap().value
  }

  ghost predicate Past(history: seq<Taken>, now: int) {
    forall i | 0 <= i < |history| :: history[i].at <= now
  }

  lemma CooldownOver(block: Option<int>, rung: Rung, same: seq<int>, now: int)
    ensures CooldownBlock(block, rung, same, now).None?
       <==> block.None? && forall t | t in same :: now - t >= rung.Cooldown()
  {
    if same != [] {
      MaxIs(same);
    }
  }

  lemma CapNotReached(block: Option<int>, rung: Rung, same: seq<int>, now: int)
    ensures CapBlock(block, rung, same, now).None?
       <==> block.None? && (rung.DailyCap().Some? ==> |Today(same, now)| < rung.DailyCap().value)
  {
    hide Today, NthNewest;
    if rung.DailyCap().Some? && |Today(same, now)| >= rung.DailyCap().value {
      NthNewestToday(same, rung.DailyCap().value, now);
    }
  }

  /** A rung may run exactly when nothing is busy, the last user activity is two minutes old, its
      cooldown is over and its daily cap is not reached. */
  lemma Unblocked(history: seq<Taken>, busy: bool, activity: Option<int>, rung: Rung, now: int)
    ensures BlockedUntil(history, busy, activity, rung, now).None?
       <==> && !busy
            && (activity.Some? ==> now - activity.value >= USER_ACTIVITY_GUARD)
            && (forall t | Taken(rung, t) in history :: now - t >= rung.Cooldown())
            && (rung.DailyCap().Some? ==> |Today(Times(history, rung), now)| < rung.DailyCap().value)
  {
    var b := GuardBlock(busy, activity, now);
    var same := Times(history, rung);
    CooldownOver(b, rung, same, now);
    CapNotReached(CooldownBlock(b, rung, same, now), rung, same, now);
    TimesHas(history, rung);
  }

  // ---------------------------------------------------------------- the deadline of a block is exact

  predicate Ascending(ts: seq<int>) {
    forall i, j | 0 <= i < j < |ts| :: ts[i] <= ts[j]
  }

  /** How many instants are at or after `t`. */
  function Since(ts: seq<int>, t: int): (n: nat)
    ensures n <= |ts|
  {
    if ts == [] then 0 else Since(ts[..|ts| - 1], t) + (if ts[|ts| - 1] >= t then 1 else 0)
  }

  lemma SinceAppend(a: seq<int>, b: seq<int>, t: int)
    ensures Since(a + b, t) == Since(a, t) + Since(b, t)
  {
    if b == [] {
      assert a + b == a;
    } else {
      assert (a + b)[..|a + b| - 1] == a + b[..|b| - 1];
      SinceAppend(a, b[..|b| - 1], t);
    }
  }

  lemma SinceOne(u: int, t: int)
    ensures Since([u], t) == if u >= t then 1 else 0
    ensures Since([], t) == 0
  {
    assert [u][..0] == [];
  }

  lemma {:induction false} InsertKeeps(u: int, ts: seq<int>, t: int)
    requires Ascending(ts)
    ensures Ascending(Insert(u, ts))
    ensures Since(Insert(u, ts), t) == Since(ts, t) + (if u >= t then 1 else 0)
  {
    hide Since;
    SinceOne(u, t);
    if ts == [] || u <= ts[0] {
      SinceAppend([u], ts, t);
      assert [u] + ts == Insert(u, ts);
    } else {
      var rest := Insert(u, ts[1..]);
      InsertHas(u, ts[1..]);
      InsertKeeps(u, ts[1..], t);
      forall i | 0 <= i < |rest| ensures ts[0] <= rest[i] {
        assert rest[i] in rest;
      }
      SinceAppend([ts[0]], rest, t);
      SinceAppend([ts[0]], ts[1..], t);
      assert ts == [ts[0]] + ts[1..];
    }
  }

  lemma {:induction false} SortKeeps(ts: seq<int>, t: int)
    ensures Ascending(Sorted(ts)) && Since(Sorted(ts), t) == Since(ts, t)
  {
    if ts != [] {
      SortKeeps(ts[..|ts| - 1], t);
      InsertKeeps(ts[|ts| - 1], Sorted(ts[..|ts| - 1]), t);
    }
  }

  lemma {:induction false} SinceAscending(ts: seq<int>, t: int)
    requires Ascending(ts)
    ensures forall i | 0 <= i < |ts| :: ts[i] >= t <==> |ts| - i <= Since(ts, t)
  {
    if ts != [] {
      var before := ts[..|ts| - 1];
      SinceAscending(before, t);
      assert before == [] || before[|before| - 1] <= ts[|ts| - 1];
    }
  }

  /** At least `n` instants are at or after `t` exactly when the `n`th newest is. */
  lemma NthNewestCounts(ts: seq<int>, n: nat, t: int)
    requires 0 < n <= |ts|
    ensures n <= Since(ts, t) <==> NthNewest(ts, n) >= t
  {
    SortKeeps(ts, t);
    SinceAscending(Sorted(ts), t);
  }

  lemma {:induction false} TodayCounts(ts: seq<int>, now: int, t: int)
    requires t > now - DAY
    ensures Since(Today(ts, now), t) == Since(ts, t)
    ensures |Today(ts, now)| == Since(ts, now - DAY + 1)
  {
    if ts != [] {
      var before := ts[..|ts| - 1];
      TodayCounts(before, now, t);
      if now - ts[|ts| - 1] < DAY {
        assert Today(ts, now)[..|Today(ts, now)| - 1] == Today(before, now);
      }
    }
  }

  lemma TodayLater(same: seq<int>, now: int, later: int)
    requires now <= later
    ensures |Today(same, later)| == Since(Today(same, now), later - DAY + 1)
  {
    TodayCounts(same, later, later - DAY + 1);
    TodayCounts(same, now, later - DAY + 1);
  }

  lemma CapExact(rung: Rung, same: seq<int>, now: int, later: int)
    requires rung.DailyCap().Some? && now <= later
    ensures var cap := rung.DailyCap().value; var today := Today(same, now);
            |Today(same, later)| >= cap
            <==> |today| >= cap && later < NthNewest(today, cap) + DAY
  {
    var cap := rung.DailyCap().value;
    var today := Today(same, now);
    TodayLater(same, now, later);
    if |today| >= cap {
      NthNewestCounts(today, cap, later - DAY + 1);
    }
  }

  /** A rung that is held back until some instant is held back at every moment before it and, if
      nothing is busy then, at no moment from it on. */
  lemma BlockIsExact(history: seq<Taken>, activity: Option<int>, rung: Rung, now: int, later: int)
    requires now <= later
    ensures var block := BlockedUntil(history, false, activity, rung, now);
            BlockedUntil(history, false, activity, rung, later).Some?
            <==> block.Some? && later < block.value
  {
    Unblocked(history, false, activity, rung, now);
    Unblocked(history, false, activity, rung, later);
    var same := Times(history, rung);
    TimesHas(history, rung);
    CooldownExact(GuardBlock(false, activity, now), rung, same, now, later);
    CapBlockExact(CooldownBlock(GuardBlock(false, activity, now), rung, same, now), rung, same, now, later);
  }

  function Later(a: Option<int>, b: Option<int>): Option<int> {
    if a.None? then b else if b.None? then a else if a.value > b.value then a else b
  }

  /** A busy modem holds every rung back for another minute, if nothing holds it back longer. */
  lemma BusyBlock(history: seq<Taken>, activity: Option<int>, rung: Rung, now: int)
    ensures BlockedUntil(history, true, activity, rung, now)
         == Later(Some(now + GUARD_RETRY), BlockedUntil(history, false, activity, rung, now))
  {
    hide Today, Times, NthNewest, Max;
  }

  lemma CooldownExact(block: Option<int>, rung: Rung, same: seq<int>, now: int, later: int)
    requires now <= later && (block.Some? ==> block.value > now)
    ensures var b := CooldownBlock(block, rung, same, now);
            && (b.Some? ==> b.value > now)
            && (b.Some? && later < b.value
                <==> (block.Some? && later < block.value) || exists t :: t in same && later - t < rung.Cooldown())
  {
    if same != [] {
      MaxIs(same);
    }
  }

  lemma CapBlockExact(block: Option<int>, rung: Rung, same: seq<int>, now: int, later: int)
    requires now <= later && (block.Some? ==> block.value > now)
    ensures var b := CapBlock(block, rung, same, now);
            b.Some? && later < b.value
            <==> (block.Some? && later < block.value)
                 || (rung.DailyCap().Some? && |Today(same, later)| >= rung.DailyCap().value)
  {
    hide Today, NthNewest;
    if rung.DailyCap().Some? {
      var today := Today(same, now);
      CapExact(rung, same, now, later);
      if |today| >= rung.DailyCap().value {
        var t := NthNewest(today, rung.DailyCap().value) + DAY;
        NthNewestToday(same, rung.DailyCap().value, now);
        assert CapBlock(block, rung, same, now) == Consider(block, t, now);
      }
    }
  }

  /** A window that reaches past a day before `now` holds no more than today's records. */
  lemma WindowWithinToday(history: seq<Taken>, rung: Rung, lo: int, now: int)
    requires lo > now - DAY
    ensures Count(history, rung, lo, lo + DAY) <= |Today(Times(history, rung), now)|
  {
    if history != [] {
      var before := history[..|history| - 1];
      WindowWithinToday(before, rung, lo, now);
      var last := history[|history| - 1];
      if last.rung == rung {
        assert Times(history, rung)[..|Times(history, rung)| - 1] == Times(before, rung);
      }
    }
  }

  /** The sliding-window step: taking an unblocked rung keeps the limits. */
  lemma TakeKeepsLimits(history: seq<Taken>, busy: bool, activity: Option<int>, rung: Rung, now: int)
    requires WithinLimits(history) && Past(history, now)
    requires BlockedUntil(history, busy, activity, rung, now).None?
    ensures WithinLimits(history + [Taken(rung, now)])
  {
    var longer := history + [Taken(rung, now)];
    assert longer[..|history|] == history;
    Unblocked(history, busy, activity, rung, now);
    forall i, j | 0 <= i < j < |longer| && longer[i].rung == longer[j].rung
      ensures longer[j].at - longer[i].at >= longer[j].rung.Cooldown()
    {
      assert j == |history| ==> Taken(rung, history[i].at) in history;
    }
    forall r: Rung, lo: int
      ensures WithinCap(longer, r, lo)
    {
      assert WithinCap(history, r, lo);
      if r == rung && rung.DailyCap().Some? && lo <= now < lo + DAY {
        WindowWithinToday(history, rung, lo, now);
      }
    }
  }

  /** The rungs a run takes, in order. */
  function Acts(tr: seq<Entry>): seq<Taken> {
    if tr == [] then []
    else
      var e := tr[|tr| - 1];
      Acts(tr[..|tr| - 1]) + (if e.act.Some? then [Taken(e.act.value, e.now)] else [])
  }

  lemma RunPrefix(tr: seq<Entry>, n: nat)
    requires Run(tr) && n <= |tr|
    ensures Run(tr[..n])
  {}

  /** Over every run from any history that respects the limits, the history together with every
      rung the run takes respects them, and the machine's own history is exactly that. */
  lemma {:induction false} LimitsKept(tr: seq<Entry>, config: Config, seeded: seq<Taken>)
    requires RunFrom(tr, config, seeded)
    requires WithinLimits(seeded) && Past(seeded, tr[0].now)
    ensures tr[|tr| - 1].after.history == seeded + Acts(tr)
    ensures WithinLimits(seeded + Acts(tr))
    ensures Past(seeded + Acts(tr), tr[|tr| - 1].now)
  {
    hide Step, WithinLimits, BlockedUntil;
    assert Follows(tr[|tr| - 1]);
    var n := |tr| - 1;
    var e := tr[n];
    var m := e.before.(activity := e.activity);
    StepShape(m, e.event, HoldOf(m, e.busy, e.now), e.now);
    var earlier := tr[..n];
    if n == 0 {
      assert Acts(earlier) == [];
      assert seeded + [] == seeded;
    } else {
      RunPrefix(tr, n);
      LimitsKept(earlier, config, seeded);
      assert earlier[n - 1] == tr[n - 1];
    }
    assert e.before.history == seeded + Acts(earlier);
    if e.act.Some? {
      TakeKeepsLimits(e.before.history, e.busy, e.activity, e.act.value, e.now);
      assert seeded + Acts(tr) == e.before.history + [Taken(e.act.value, e.now)];
    } else {
      assert seeded + Acts(tr) == seeded + Acts(earlier);
    }
  }

  // ---------------------------------------------------------------- the ladder invariant

  ghost predicate LadderInvariant(m: Fields) {
    && (m.state.Idle? ==> m.deadline.None?)
    && (m.state.Cooling? ==> m.deadline == Some(m.state.until) && m.wan == Some(true))
    && (m.state.Waiting? ==> m.deadline.None? || m.deadline == Some(m.state.actedAt + RECOVERY_WINDOW))
    && (!m.state.Idle? ==> m.config.enabled)
    && (m.failures > 0 ==> m.config.enabled && m.wan == Some(true))
    && (m.failures > 0 <==> m.firstFailure.Some?)
  }

  /** The invariant is kept by every event, and a rung is run only while the watchdog is enabled
      and the WAN is known connected. */
  lemma LadderStep(m: Fields, event: Event, hold: Hold, now: int)
    requires LadderInvariant(m)
    ensures LadderKept(m, Step(m, event, hold, now))
  {
    match event
    case Wan(connected) => LadderWan(m, connected, now);
    case Probe(ok) => LadderProbe(m, ok, hold, now);
    case Timer => LadderTimer(m, hold, now);
    case Reconfigure(config) => LadderConfig(m, config);
  }

  ghost predicate LadderKept(m: Fields, o: Outcome) {
    && LadderInvariant(o.m)
    && (ActOf(o.actions).Some? ==> m.config.enabled && o.m.config == m.config && m.wan == o.m.wan == Some(true))
  }

  lemma LadderWan(m: Fields, connected: bool, now: int)
    requires LadderInvariant(m)
    ensures LadderKept(m, OnWan(m, connected, now))
  {}

  lemma LadderProbe(m: Fields, ok: bool, hold: Hold, now: int)
    requires LadderInvariant(m)
    ensures LadderKept(m, OnProbe(m, ok, hold, now))
  {}

  lemma LadderTimer(m: Fields, hold: Hold, now: int)
    requires LadderInvariant(m)
    ensures LadderKept(m, OnTimer(m, hold, now))
  {}

  lemma LadderConfig(m: Fields, config: Config)
    requires LadderInvariant(m)
    ensures LadderKept(m, OnConfig(m, config))
  {}

  /** Enabled, with the WAN known connected, nothing busy and the user quiet for two minutes. */
  predicate ActsInPeace(e: Entry) {
    && e.before.config.enabled && e.after.config.enabled
    && e.before.wan == Some(true) && e.after.wan == Some(true)
    && !e.busy
    && (e.activity.Some? ==> e.now - e.activity.value >= USER_ACTIVITY_GUARD)
  }

  /** The same with what a run of a rung says about the busy check and the user's activity. */
  lemma LadderEntry(e: Entry)
    requires Follows(e) && LadderInvariant(e.before)
    ensures LadderInvariant(e.after)
    ensures e.act.Some? ==> ActsInPeace(e)
  {
    var m := e.before.(activity := e.activity);
    var hold := HoldOf(m, e.busy, e.now);
    LadderStep(m, e.event, hold, e.now);
    StepShape(m, e.event, hold, e.now);
    if e.act.Some? {
      Unblocked(m.history, e.busy, e.activity, e.act.value, e.now);
    }
  }

  /** In every run the ladder invariant holds throughout, and rungs run only in peace. */
  lemma {:induction false} LadderHolds(tr: seq<Entry>, config: Config, seeded: seq<Taken>, i: nat)
    requires RunFrom(tr, config, seeded) && i < |tr|
    ensures LadderInvariant(tr[i].before) && LadderInvariant(tr[i].after)
    ensures tr[i].act.Some? ==> ActsInPeace(tr[i])
  {
    assert Follows(tr[i]);
    if i > 0 {
      LadderHolds(tr, config, seeded, i - 1);
    }
    LadderEntry(tr[i]);
  }

  // ---------------------------------------------------------------- the order of climbing

  /** A successful probe, or the watchdog being disabled, ends the ladder. */
  predicate Ends(event: Event) {
    event == Probe(true) || (event.Reconfigure? && !event.config.enabled)
  }

  /** So does a WAN drop, while failures are being counted. */
  predicate Breaks(event: Event) {
    Ends(event) || event == Wan(false)
  }

  ghost predicate Endless(tr: seq<Entry>, k: nat, i: nat) {
    forall j | k <= j <= i && j < |tr| :: !Ends(tr[j].event)
  }

  ghost predicate Unbroken(tr: seq<Entry>, k: nat, i: nat) {
    forall j | k <= j <= i && j < |tr| :: !Breaks(tr[j].event)
  }

  function FailedProbes(tr: seq<Entry>, k: nat, i: nat): nat
    requires i < |tr|
    decreases i
  {
    (if i <= k then 0 else FailedProbes(tr, k, i - 1)) + (if tr[i].event == Probe(false) then 1 else 0)
  }

  /** `n` failed probes from entry `k` to entry `i`, the first at `k`, with nothing breaking them off. */
  ghost predicate Failing(tr: seq<Entry>, k: nat, i: nat, n: nat)
    requires i < |tr|
  {
    k <= i && tr[k].event == Probe(false) && Unbroken(tr, k, i) && FailedProbes(tr, k, i) >= n
  }

  /** Three failed probes spanning ten minutes. */
  ghost predicate Triggered(tr: seq<Entry>, k: nat, i: nat)
    requires i < |tr|
  {
    Failing(tr, k, i, TRIGGER_FAILURES) && tr[i].now - tr[k].now >= TRIGGER_MIN_AGE
  }

  /** Entry `p` ran `rung`, and nothing ended the ladder since. */
  ghost predicate Ran(tr: seq<Entry>, rung: Rung, p: nat, i: nat)
    requires i < |tr|
  {
    p <= i && tr[p].act == Some(rung) && Endless(tr, p + 1, i)
  }

  /** A probe failed at `q`, after the rung run at `p` had settled. */
  ghost predicate FailedAfter(tr: seq<Entry>, p: nat, q: nat, i: nat)
    requires i < |tr|
  {
    p < q <= i && tr[q].event == Probe(false) && tr[q].now >= tr[p].now + SETTLE
  }

  ghost predicate ProbedAfter(tr: seq<Entry>, p: nat, i: nat)
    requires i < |tr|
  {
    exists q: nat :: FailedAfter(tr, p, q, i)
  }

  /** The rung below `rung` ran at `p`, its recovery window has passed and a probe failed at `q` in
      between; if `rung` is the reboot, rebooting was allowed at `a` in between. */
  ghost predicate Due(tr: seq<Entry>, rung: Rung, below: Rung, p: nat, q: nat, a: nat, i: nat)
    requires i < |tr|
  {
    && below.Next(true) == Some(rung)
    && Ran(tr, below, p, i)
    && FailedAfter(tr, p, q, i)
    && tr[i].now >= tr[p].now + RECOVERY_WINDOW
    && p < a <= i
    && (rung == Reboot ==> tr[a].after.config.allowReboot)
  }

  /** What `rung` needs before it may run at `i`. */
  ghost predicate Earned(tr: seq<Entry>, rung: Rung, i: nat)
    requires i < |tr|
  {
    if rung == PdnReconnect then exists k: nat :: Triggered(tr, k, i)
    else exists below, p: nat, q: nat, a: nat :: Due(tr, rung, below, p, q, a, i)
  }

  lemma FailureStep(m: Fields, event: Event, hold: Hold, now: int)
    requires LadderInvariant(m)
    ensures var o := Step(m, event, hold, now);
            o.m.failures > 0 ==>
              && !Breaks(event)
              && (|| (o.m.failures == m.failures && o.m.firstFailure == m.firstFailure)
                  || (&& event == Probe(false) && o.m.failures == m.failures + 1
                      && o.m.firstFailure == (if m.failures > 0 then m.firstFailure else Some(now))))
  {}

  /** The rung an event ran, or left waiting for its guard. */
  function Reached(o: Outcome): Option<Rung> {
    if ActOf(o.actions).Some? then ActOf(o.actions)
    else if o.m.state.Cooling? then Some(o.m.state.rung)
    else None
  }

  /** A rung is reached from its own guard, from the trigger, or from the rung below. */
  lemma ReachStep(m: Fields, event: Event, hold: Hold, now: int)
    requires LadderInvariant(m)
    ensures var o := Step(m, event, hold, now);
            var r := Reached(o);
            r.Some? ==>
              || (m.state.Cooling? && m.state.rung == r.value && !Breaks(event))
              || (&& r == Some(PdnReconnect) && event == Probe(false)
                  && o.m.failures >= TRIGGER_FAILURES && o.m.firstFailure.Some?
                  && now - o.m.firstFailure.value >= TRIGGER_MIN_AGE)
              || (&& m.state.Waiting? && m.state.rung.Next(m.config.allowReboot) == r
                  && o.m.config == m.config && !Ends(event)
                  && now >= m.state.actedAt + RECOVERY_WINDOW
                  && (m.state.fails > 0 || event == Probe(false)))
  {}

  lemma WaitStep(m: Fields, event: Event, hold: Hold, now: int)
    ensures var o := Step(m, event, hold, now);
            o.m.state.Waiting? && ActOf(o.actions).None? ==>
              && m.state.Waiting? && !Ends(event)
              && o.m.state.rung == m.state.rung && o.m.state.actedAt == m.state.actedAt
              && (|| o.m.state.fails == m.state.fails
                  || (event == Probe(false) && now >= m.state.actedAt + SETTLE))
  {}

  /** What the machine's fields say about the run so far. */
  ghost predicate ClimbInvariant(tr: seq<Entry>, i: nat)
    requires i < |tr|
  {
    var m := tr[i].after;
    && (m.failures > 0 ==>
          exists k: nat :: Failing(tr, k, i, m.failures) && m.firstFailure == Some(tr[k].now))
    && (m.state.Cooling? ==> Earned(tr, m.state.rung, i))
    && (m.state.Waiting? ==>
          exists p: nat :: && Ran(tr, m.state.rung, p, i) && tr[p].now == m.state.actedAt
                      && (m.state.fails > 0 ==> ProbedAfter(tr, p, i)))
  }

  lemma KeepFailing(tr: seq<Entry>, k: nat, i: nat, n: nat)
    requires 0 < i < |tr| && Failing(tr, k, i - 1, n) && !Breaks(tr[i].event)
    ensures Failing(tr, k, i, n + (if tr[i].event == Probe(false) then 1 else 0))
  {}

  lemma KeepEarned(tr: seq<Entry>, rung: Rung, i: nat)
    requires Clocked(tr) && 0 < i < |tr| && Earned(tr, rung, i - 1) && !Breaks(tr[i].event)
    ensures Earned(tr, rung, i)
  {
    if rung == PdnReconnect {
      var k: nat :| Triggered(tr, k, i - 1);
      KeepFailing(tr, k, i, TRIGGER_FAILURES);
      assert Triggered(tr, k, i);
    } else {
      var below, p: nat, q: nat, a: nat :| Due(tr, rung, below, p, q, a, i - 1);
      assert Due(tr, rung, below, p, q, a, i);
    }
  }

  lemma FailuresCounted(tr: seq<Entry>, config: Config, seeded: seq<Taken>, i: nat)
    requires RunFrom(tr, config, seeded) && i < |tr|
    requires i > 0 ==> ClimbInvariant(tr, i - 1)
    requires tr[i].after.failures > 0
    ensures exists k: nat :: Failing(tr, k, i, tr[i].after.failures) && tr[i].after.firstFailure == Some(tr[k].now)
  {
    assert Follows(tr[i]);
    LadderHolds(tr, config, seeded, i);
    var e := tr[i];
    var m := e.before.(activity := e.activity);
    FailureStep(m, e.event, HoldOf(m, e.busy, e.now), e.now);
    if m.failures > 0 {
      var k: nat :| Failing(tr, k, i - 1, m.failures) && m.firstFailure == Some(tr[k].now);
      KeepFailing(tr, k, i, m.failures);
    } else {
      assert Failing(tr, i, i, 1);
    }
  }

  /** The rung below waited out its window without recovering. */
  lemma WindowIsEarned(tr: seq<Entry>, i: nat, below: Rung, rung: Rung)
    requires Clocked(tr) && 0 < i < |tr| && ClimbInvariant(tr, i - 1) && !Ends(tr[i].event)
    requires var e := tr[i]; var s := e.before.state;
             && e.before == tr[i - 1].after && s.Waiting? && s.rung == below
             && e.now >= s.actedAt + RECOVERY_WINDOW
             && (s.fails > 0 || e.event == Probe(false))
    requires below.Next(tr[i].before.config.allowReboot) == Some(rung)
    requires tr[i].after.config == tr[i].before.config
    ensures Earned(tr, rung, i)
  {
    var s := tr[i].before.state;
    var p: nat :| && Ran(tr, below, p, i - 1) && tr[p].now == s.actedAt
                  && (s.fails > 0 ==> ProbedAfter(tr, p, i - 1));
    var q: nat := i;
    if s.fails > 0 {
      q :| FailedAfter(tr, p, q, i - 1);
    }
    assert Due(tr, rung, below, p, q, i, i);
  }

  lemma ReachedIsEarned(tr: seq<Entry>, config: Config, seeded: seq<Taken>, i: nat, rung: Rung)
    requires RunFrom(tr, config, seeded) && i < |tr|
    requires i > 0 ==> ClimbInvariant(tr, i - 1)
    requires || tr[i].act == Some(rung)
             || (tr[i].act.None? && tr[i].after.state.Cooling? && tr[i].after.state.rung == rung)
    ensures Earned(tr, rung, i)
  {
    hide Step, HoldOf;
    assert Follows(tr[i]);
    LadderHolds(tr, config, seeded, i);
    var e := tr[i];
    var m := e.before.(activity := e.activity);
    ReachStep(m, e.event, HoldOf(m, e.busy, e.now), e.now);
    if m.state.Cooling? && m.state.rung == rung && !Breaks(e.event) {
      KeepEarned(tr, rung, i);
    } else if rung == PdnReconnect && e.event == Probe(false) && e.after.failures >= TRIGGER_FAILURES
              && e.now - e.after.firstFailure.GetOr(e.now) >= TRIGGER_MIN_AGE {
      FailuresCounted(tr, config, seeded, i);
      var k: nat :| Failing(tr, k, i, e.after.failures) && e.after.firstFailure == Some(tr[k].now);
      assert Triggered(tr, k, i);
    } else {
      WindowIsEarned(tr, i, m.state.rung, rung);
    }
  }

  lemma WaitingSince(tr: seq<Entry>, config: Config, seeded: seq<Taken>, i: nat)
    requires RunFrom(tr, config, seeded) && i < |tr|
    requires i > 0 ==> ClimbInvariant(tr, i - 1)
    requires tr[i].after.state.Waiting?
    ensures var s := tr[i].after.state;
            exists p: nat :: && Ran(tr, s.rung, p, i) && tr[p].now == s.actedAt
                             && (s.fails > 0 ==> ProbedAfter(tr, p, i))
  {
    assert Follows(tr[i]);
    var e := tr[i];
    var m := e.before.(activity := e.activity);
    StepShape(m, e.event, HoldOf(m, e.busy, e.now), e.now);
    WaitStep(m, e.event, HoldOf(m, e.busy, e.now), e.now);
    if e.act.Some? {
      assert Ran(tr, e.act.value, i, i);
    } else {
      var p: nat :| && Ran(tr, m.state.rung, p, i - 1) && tr[p].now == m.state.actedAt
                    && (m.state.fails > 0 ==> ProbedAfter(tr, p, i - 1));
      assert Ran(tr, m.state.rung, p, i);
      if m.state.fails > 0 {
        var q: nat :| FailedAfter(tr, p, q, i - 1);
        assert FailedAfter(tr, p, q, i);
      } else if e.after.state.fails > 0 {
        assert FailedAfter(tr, p, i, i);
      }
    }
  }

  lemma {:induction false} ClimbHolds(tr: seq<Entry>, config: Config, seeded: seq<Taken>, i: nat)
    requires RunFrom(tr, config, seeded) && i < |tr|
    ensures ClimbInvariant(tr, i)
  {
    assert Follows(tr[i]);
    if i > 0 {
      ClimbHolds(tr, config, seeded, i - 1);
    }
    if tr[i].after.failures > 0 {
      FailuresCounted(tr, config, seeded, i);
    }
    if tr[i].after.state.Waiting? {
      WaitingSince(tr, config, seeded, i);
    }
    if tr[i].after.state.Cooling? {
      var e := tr[i];
      var m := e.before.(activity := e.activity);
      StepShape(m, e.event, HoldOf(m, e.busy, e.now), e.now);
      ReachedIsEarned(tr, config, seeded, i, tr[i].after.state.rung);
    }
  }

  /** The ladder is climbed in order: every rung a run takes is earned. */
  lemma ClimbedInOrder(tr: seq<Entry>, config: Config, seeded: seq<Taken>, i: nat)
    requires RunFrom(tr, config, seeded) && i < |tr| && tr[i].act.Some?
    ensures Earned(tr, tr[i].act.value, i)
  {
    if i > 0 {
      ClimbHolds(tr, config, seeded, i - 1);
    }
    ReachedIsEarned(tr, config, seeded, i, tr[i].act.value);
  }

  /** A reboot ran only if, since a modem reset of the same run, rebooting was allowed. */
  lemma RebootWasAllowed(tr: seq<Entry>, config: Config, seeded: seq<Taken>, i: nat)
    requires RunFrom(tr, config, seeded) && i < |tr| && tr[i].act == Some(Reboot)
    ensures exists p: nat, a: nat :: p < a <= i && tr[p].act == Some(ModemReset) && tr[a].after.config.allowReboot
  {
    ClimbedInOrder(tr, config, seeded, i);
    var below, p: nat, q: nat, a: nat :| Due(tr, Reboot, below, p, q, a, i);
    assert below == ModemReset;
  }

  // ---------------------------------------------------------------- the reboot permission
  // A reboot that waits for its guard is not checked against `allow_reboot` again, so the flag
  // may be off when it runs. `RebootExactly` says when a reboot runs; a run shows the gap.

  /** The evaluation window of the waiting rung ends unrecovered with this event. */
  predicate WindowEnds(m: Fields, event: Event, now: int)
    requires m.state.Waiting?
  {
    if event.Timer? then m.deadline.Some? && now >= m.deadline.value && m.wan == Some(true) && m.state.fails > 0
    else event == Probe(false) && m.wan == Some(true) && now >= m.state.actedAt + RECOVERY_WINDOW
  }

  lemma RebootExactly(m: Fields, event: Event, hold: Hold, now: int)
    requires LadderInvariant(m)
    ensures ActOf(Step(m, event, hold, now).actions) == Some(Reboot)
       <==> && hold(Reboot).None?
            && (if m.state.Cooling? then m.state.rung == Reboot && event.Timer? && now >= m.state.until
                else && m.state.Waiting? && m.state.rung == ModemReset && m.config.allowReboot
                     && WindowEnds(m, event, now))
  {}

  function Make(before: Fields, event: Event, activity: Option<int>, now: int): (e: Entry)
    ensures Follows(e)
  {
    var m := before.(activity := activity);
    var o := Step(m, event, HoldOf(m, false, now), now);
    Entry(event, false, activity, now, before, o.m, ActOf(o.actions))
  }

  predicate Fresh(history: seq<Taken>, rung: Rung) {
    forall i | 0 <= i < |history| :: history[i].rung != rung
  }

  lemma {:induction false} NoTimes(history: seq<Taken>, rung: Rung)
    requires Fresh(history, rung)
    ensures Times(history, rung) == []
  {
    if history != [] {
      NoTimes(history[..|history| - 1], rung);
    }
  }

  /** A failed probe at the end of a rung's window runs the next rung, if that was never taken. */
  lemma ClimbOnce(m: Fields, next: Rung, now: int)
    requires m.config.enabled && m.wan == Some(true) && m.state.Waiting? && now >= m.state.actedAt + RECOVERY_WINDOW
    requires m.state.rung.Next(m.config.allowReboot) == Some(next) && Fresh(m.history, next)
    ensures Make(m, Probe(false), None, now).after
         == m.(activity := None, history := m.history + [Taken(next, now)],
               state := Waiting(next, now, 0), deadline := Some(now + RECOVERY_WINDOW))
  {
    NoTimes(m.history, next);
    assert BlockedUntil(m.history, false, None, next, now).None?;
  }

  /** Recent user activity makes it wait instead. */
  lemma GuardOnce(m: Fields, next: Rung, at: int, now: int)
    requires m.config.enabled && m.wan == Some(true) && m.state.Waiting? && now >= m.state.actedAt + RECOVERY_WINDOW
    requires m.state.rung.Next(m.config.allowReboot) == Some(next) && Fresh(m.history, next)
    requires at <= now < at + USER_ACTIVITY_GUARD
    ensures Make(m, Probe(false), Some(at), now).after
         == m.(activity := Some(at), state := Cooling(next, at + USER_ACTIVITY_GUARD),
               deadline := Some(at + USER_ACTIVITY_GUARD))
  {
    NoTimes(m.history, next);
    assert BlockedUntil(m.history, false, Some(at), next, now) == Some(at + USER_ACTIVITY_GUARD);
  }

  lemma TimerOnce(m: Fields, at: int, now: int)
    requires m.state.Cooling? && m.deadline == Some(now) && Fresh(m.history, m.state.rung)
    requires at + USER_ACTIVITY_GUARD <= now
    ensures Make(m, Timer, Some(at), now).act == Some(m.state.rung)
  {
    NoTimes(m.history, m.state.rung);
    assert BlockedUntil(m.history, false, Some(at), m.state.rung, now).None?;
  }

  /** Three failed probes over ten minutes run the first rung. */
  lemma FirstRung() returns (tr: seq<Entry>)
    ensures RunFrom(tr, Config(true, true), []) && |tr| == 4 && tr[3].now == 600
    ensures tr[3].after == Fields(Config(true, true), Waiting(PdnReconnect, 600, 0), Some(900), Some(true),
                                  3, Some(0), [Taken(PdnReconnect, 600)], None)
  {
    var e0 := Make(Start(Config(true, true), []), Wan(true), None, 0);
    var e1 := Make(e0.after, Probe(false), None, 0);
    var e2 := Make(e1.after, Probe(false), None, 300);
    NoTimes([], PdnReconnect);
    assert BlockedUntil([], false, None, PdnReconnect, 600).None?;
    var e3 := Make(e2.after, Probe(false), None, 600);
    tr := [e0, e1, e2, e3];
  }

  lemma Extend(tr: seq<Entry>, e: Entry)
    requires RunFrom(tr, Config(true, true), []) && Follows(e)
    requires e.before == tr[|tr| - 1].after && e.now >= tr[|tr| - 1].now
    ensures RunFrom(tr + [e], Config(true, true), [])
  {}

  lemma DisallowOnce(m: Fields, activity: Option<int>, now: int)
    requires m.config == Config(true, true)
    ensures Make(m, Reconfigure(Config(true, false)), activity, now).after
         == m.(config := Config(true, false), activity := activity)
  {}

  /** A run that reboots although rebooting is no longer allowed. */
  lemma RebootAfterDisallowing() returns (tr: seq<Entry>)
    ensures RunFrom(tr, Config(true, true), [])
    ensures tr[|tr| - 1].act == Some(Reboot) && !tr[|tr| - 1].before.config.allowReboot
  {
    hide Step, HoldOf, RunFrom;
    tr := FirstRung();
    var m3 := tr[3].after;
    ClimbOnce(m3, LpmOnline, 900);
    var e4 := Make(m3, Probe(false), None, 900);
    Extend(tr, e4);
    ClimbOnce(e4.after, ModemReset, 1200);
    var e5 := Make(e4.after, Probe(false), None, 1200);
    Extend(tr + [e4], e5);
    GuardOnce(e5.after, Reboot, 1450, 1500);
    var e6 := Make(e5.after, Probe(false), Some(1450), 1500);
    Extend(tr + [e4] + [e5], e6);
    DisallowOnce(e6.after, Some(1450), 1510);
    var e7 := Make(e6.after, Reconfigure(Config(true, false)), Some(1450), 1510);
    Extend(tr + [e4] + [e5] + [e6], e7);
    TimerOnce(e7.after, 1450, 1570);
    var e8 := Make(e7.after, Timer, Some(1450), 1570);
    Extend(tr + [e4] + [e5] + [e6] + [e7], e8);
    tr := tr + [e4] + [e5] + [e6] + [e7] + [e8];
  }
}
