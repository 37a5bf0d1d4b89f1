/** The watchdog over any number of agent starts (zte-agent/src/conn_watchdog.rs): what a machine
    rebuilt from the state file still holds back, and the limits that survive. State writes succeed;
    the wall clock and each start's monotonic clock advance together, in whole seconds. */
module WatchdogLifetimes {
  import opened Wrappers
  import opened Watchdog
  import opened WatchdogRuns
  import opened WatchdogRestart

  /** By the wall clock: every rung ever taken (`all`), those written to the state file (`filed`),
      and those the running machine can know of, from the file or because it took them itself
      (`known`). Then the file; the machine's history, on its own clock; and how far the wall clock
      is ahead of that clock. */
  datatype World = World(
    all: seq<Taken>,
    filed: seq<Taken>,
    known: seq<Taken>,
    disk: Option<Persisted>,
    machine: seq<Taken>,
    offset: int,
    now: int)

  /** Time passes; a rung is taken and recorded; the reboot is taken, but turning fast boot off fails
      and nothing is recorded; the agent starts anew on a clock that reads `mono` and cannot date
      anything before `least`. */
  datatype Op = Pass(seconds: nat) | Take(rung: Rung) | FailedReboot | Restart(mono: int, least: int)

  /** The machine's clock. */
  function Mono(w: World): int {
    w.now - w.offset
  }

  function Apply(w: World, op: Op): World {
    match op
    case Pass(seconds) => w.(now := w.now + seconds)
    case Take(rung) =>
      var taken := Taken(rung, w.now);
      w.(all := w.all + [taken], filed := w.filed + [taken], known := w.known + [taken],
         disk := Some(Recorded(w.disk, rung, rung == Reboot, w.now)),
         machine := w.machine + [Taken(rung, Mono(w))])
    case FailedReboot =>
      var taken := Taken(Reboot, w.now);
      w.(all := w.all + [taken], known := w.known + [taken], machine := w.machine + [Taken(Reboot, Mono(w))])
    case Restart(mono, least) =>
      var kept := Prune(Load(w.disk).actions, w.now);
      w.(known := w.filed,
         disk := if w.disk.None? then None else Some(w.disk.value.(actions := kept)),
         machine := Seeds(kept, mono, w.now, least),
         offset := w.now - mono)
  }

  function ApplyAll(w: World, ops: seq<Op>): World {
    if ops == [] then w else Apply(ApplyAll(w, ops[..|ops| - 1]), ops[|ops| - 1])
  }

  /** The agent's first start, on a device with no state file. */
  function FirstStart(now: int, mono: int): World {
    World([], [], [], None, [], now - mono, now)
  }

  /** Every clock can date a day before its start. */
  predicate Dating(ops: seq<Op>) {
    forall i | 0 <= i < |ops| && ops[i].Restart? :: ops[i].least <= ops[i].mono - DAY
  }

  // ---------------------------------------------------------------- file and machine

  /** On the records of the last day the file agrees with what was filed, and the machine with what
      it can know, on its own clock. */
  ghost predicate WorldInvariant(w: World) {
    && Past(Load(w.disk).actions, w.now)
    && Recent(Load(w.disk).actions, w.now) == Recent(w.filed, w.now)
    && Recent(w.machine, Mono(w)) == Recent(Shift(w.known, w.offset), Mono(w))
  }

  lemma {:induction false} RecentLater(h: seq<Taken>, now: int, later: int)
    requires now <= later
    ensures Recent(Recent(h, now), later) == Recent(h, later)
  {
    hide Recent;
    if h == [] {
      NothingRecent(now);
      NothingRecent(later);
    } else {
      var before, last := h[..|h| - 1], h[|h| - 1];
      assert h == before + [last];
      RecentLater(before, now, later);
      RecentSnoc(before, last, now);
      RecentSnoc(before, last, later);
      RecentSnoc(Recent(before, now), last, later);
    }
  }

  lemma NothingRecent(now: int)
    ensures Recent([], now) == []
  {}

  lemma {:induction false} PruneIsRecent(h: seq<Taken>, now: int)
    requires Past(h, now)
    ensures Prune(h, now) == Recent(h, now) && Past(Prune(h, now), now)
  {
    if h != [] {
      PruneIsRecent(h[..|h| - 1], now);
    }
  }

  lemma ShiftSnoc(h: seq<Taken>, a: Taken, ahead: int)
    ensures Shift(h + [a], ahead) == Shift(h, ahead) + [Taken(a.rung, a.at - ahead)]
  {
    assert (h + [a])[..|h|] == h;
  }

  lemma {:induction false} ShiftRecent(h: seq<Taken>, ahead: int, now: int)
    ensures Shift(Recent(h, now), ahead) == Recent(Shift(h, ahead), now - ahead)
  {
    hide Recent, Shift;
    if h == [] {
      NothingShifted(ahead);
      NothingRecent(now);
      NothingRecent(now - ahead);
    } else {
      var before, last := h[..|h| - 1], h[|h| - 1];
      assert h == before + [last];
      ShiftRecent(before, ahead, now);
      RecentSnoc(before, last, now);
      ShiftSnoc(before, last, ahead);
      ShiftSnoc(Recent(before, now), last, ahead);
      RecentSnoc(Shift(before, ahead), Taken(last.rung, last.at - ahead), now - ahead);
    }
  }

  lemma NothingShifted(ahead: int)
    ensures Shift([], ahead) == []
  {}

  lemma PassKeeps(w: World, seconds: nat)
    requires WorldInvariant(w)
    ensures WorldInvariant(Apply(w, Pass(seconds)))
  {
    hide Recent, Shift;
    var later := w.now + seconds;
    RecentLater(Load(w.disk).actions, w.now, later);
    RecentLater(w.filed, w.now, later);
    RecentLater(w.machine, Mono(w), later - w.offset);
    RecentLater(Shift(w.known, w.offset), Mono(w), later - w.offset);
  }

  lemma TakeOnDisk(actions: seq<Taken>, filed: seq<Taken>, taken: Taken)
    requires Past(actions, taken.at) && Recent(actions, taken.at) == Recent(filed, taken.at)
    ensures var kept := Prune(actions, taken.at) + [taken];
            Past(kept, taken.at) && Recent(kept, taken.at) == Recent(filed + [taken], taken.at)
  {
    hide Recent;
    PruneIsRecent(actions, taken.at);
    RecentLater(actions, taken.at, taken.at);
    RecentSnoc(Prune(actions, taken.at), taken, taken.at);
    RecentSnoc(filed, taken, taken.at);
  }

  lemma TakeInMachine(machine: seq<Taken>, known: seq<Taken>, rung: Rung, now: int, offset: int)
    requires Recent(machine, now - offset) == Recent(Shift(known, offset), now - offset)
    ensures Recent(machine + [Taken(rung, now - offset)], now - offset)
         == Recent(Shift(known + [Taken(rung, now)], offset), now - offset)
  {
    hide Recent, Shift;
    var mine := Taken(rung, now - offset);
    RecentSnoc(machine, mine, now - offset);
    ShiftSnoc(known, Taken(rung, now), offset);
    RecentSnoc(Shift(known, offset), mine, now - offset);
  }

  lemma TakeKeeps(w: World, op: Op)
    requires WorldInvariant(w) && (op.Take? || op.FailedReboot?)
    ensures WorldInvariant(Apply(w, op))
  {
    hide Recent, Shift, Prune, Past;
    var rung := if op.Take? then op.rung else Reboot;
    TakeOnDisk(Load(w.disk).actions, w.filed, Taken(rung, w.now));
    TakeInMachine(w.machine, w.known, rung, w.now, w.offset);
  }

  /** Records of the last day can be dated. */
  lemma {:induction false} RecentDatable(h: seq<Taken>, mono: int, now: int, least: int)
    requires least <= mono - DAY
    ensures Datable(Recent(h, now), mono, now, least)
  {
    if h != [] {
      RecentDatable(h[..|h| - 1], mono, now, least);
    }
  }

  lemma RestartKeeps(w: World, mono: int, least: int)
    requires WorldInvariant(w) && least <= mono - DAY
    ensures WorldInvariant(Apply(w, Restart(mono, least)))
  {
    hide Recent, Shift, Seeds, Past, Datable;
    var actions := Load(w.disk).actions;
    var recent := Recent(w.filed, w.now);
    PruneIsRecent(actions, w.now);
    RecentLater(actions, w.now, w.now);
    RecentDatable(w.filed, mono, w.now, least);
    SeedsExactly(recent, mono, w.now, least);
    ShiftTwice(w.filed, w.now - mono, w.now);
    if w.disk.None? {
      NothingPruned(w.now);
    }
  }

  lemma NothingPruned(now: int)
    ensures Prune([], now) == []
  {}

  lemma ShiftTwice(h: seq<Taken>, ahead: int, now: int)
    ensures Recent(Shift(Recent(h, now), ahead), now - ahead) == Recent(Shift(h, ahead), now - ahead)
  {
    hide Recent, Shift;
    ShiftRecent(h, ahead, now);
    ShiftRecent(Recent(h, now), ahead, now);
    RecentLater(h, now, now);
  }

  lemma ApplyKeeps(w: World, op: Op)
    requires WorldInvariant(w) && (op.Restart? ==> op.least <= op.mono - DAY)
    ensures WorldInvariant(Apply(w, op))
  {
    hide WorldInvariant, Apply;
    match op
    case Pass(seconds) => PassKeeps(w, seconds);
    case Take(_) | FailedReboot => TakeKeeps(w, op);
    case Restart(mono, least) => RestartKeeps(w, mono, least);
  }

  lemma FirstHolds(now: int, mono: int)
    ensures WorldInvariant(FirstStart(now, mono)) && Books(FirstStart(now, mono))
  {}

  lemma {:induction false} WorldHolds(start: int, mono: int, ops: seq<Op>)
    requires Dating(ops)
    ensures WorldInvariant(ApplyAll(FirstStart(start, mono), ops)) && Books(ApplyAll(FirstStart(start, mono), ops))
  {
    hide WorldInvariant, Books, Apply;
    FirstHolds(start, mono);
    if ops != [] {
      var before := ops[..|ops| - 1];
      WorldHolds(start, mono, before);
      ApplyKeeps(ApplyAll(FirstStart(start, mono), before), ops[|ops| - 1]);
      BooksKept(ApplyAll(FirstStart(start, mono), before), ops[|ops| - 1]);
    }
  }

  // ---------------------------------------------------------------- what is known of what was taken

  /** Only reboots go unrecorded; what is filed is known, and what is known was taken. */
  ghost predicate Books(w: World) {
    && (forall rung: Rung | rung != Reboot :: Times(w.filed, rung) == Times(w.all, rung) == Times(w.known, rung))
    && (forall taken | taken in w.filed :: taken in w.known)
    && (forall taken | taken in w.known :: taken in w.all)
    && Past(w.all, w.now)
  }

  lemma BooksKept(w: World, op: Op)
    requires Books(w)
    ensures Books(Apply(w, op))
  {
    hide Times, Past;
    if op.Take? || op.FailedReboot? {
      var taken := Taken(if op.Take? then op.rung else Reboot, w.now);
      forall rung: Rung
        ensures Times(w.all + [taken], rung) == Times(w.all, rung) + (if taken.rung == rung then [w.now] else [])
        ensures Times(w.filed + [taken], rung) == Times(w.filed, rung) + (if taken.rung == rung then [w.now] else [])
        ensures Times(w.known + [taken], rung) == Times(w.known, rung) + (if taken.rung == rung then [w.now] else [])
        ensures taken.rung != rung ==> Times(w.all + [taken], rung) == Times(w.all, rung)
        ensures taken.rung != rung ==> Times(w.known + [taken], rung) == Times(w.known, rung)
      {
        TimesSnoc(w.all, taken, rung);
        TimesSnoc(w.filed, taken, rung);
        TimesSnoc(w.known, taken, rung);
      }
    }
    PastKept(w, op);
  }

  lemma PastKept(w: World, op: Op)
    requires Past(w.all, w.now)
    ensures Past(Apply(w, op).all, Apply(w, op).now)
  {}

  // ---------------------------------------------------------------- the same instant

  function Minus(ts: seq<int>, ahead: int): (r: seq<int>)
    ensures |r| == |ts|
  {
    seq(|ts|, i requires 0 <= i < |ts| => ts[i] - ahead)
  }

  lemma {:induction false} TimesShift(h: seq<Taken>, rung: Rung, ahead: int)
    ensures Times(Shift(h, ahead), rung) == Minus(Times(h, rung), ahead)
  {
    hide Times, Shift;
    if h == [] {
      NothingShifted(ahead);
      Nothing(rung, 0);
    } else {
      var before, last := h[..|h| - 1], h[|h| - 1];
      assert h == before + [last];
      TimesShift(before, rung, ahead);
      TimesSnoc(before, last, rung);
      ShiftSnoc(before, last, ahead);
      TimesSnoc(Shift(before, ahead), Taken(last.rung, last.at - ahead), rung);
    }
  }

  /** The machine's own limits, without the guards for a busy modem and its user. */
  predicate Free(history: seq<Taken>, rung: Rung, now: int) {
    BlockedUntil(history, false, None, rung, now).None?
  }

  /** Only what the machine can know decides. */
  lemma SameBlocks(w: World, busy: bool, activity: Option<int>, rung: Rung, later: int)
    requires WorldInvariant(w) && later >= Mono(w)
    ensures BlockedUntil(w.machine, busy, activity, rung, later)
         == BlockedUntil(Shift(w.known, w.offset), busy, activity, rung, later)
  {
    hide BlockedUntil, Recent, Shift;
    RecentSuffices(w.machine, busy, activity, rung, Mono(w), later);
    RecentSuffices(Shift(w.known, w.offset), busy, activity, rung, Mono(w), later);
  }

  /** For the reboot the daily cap adds nothing to the cooldown: both wait for its newest instant. */
  lemma RebootByCooldown(guard: Option<int>, same: seq<int>, now: int)
    ensures BlockedBy(guard, Reboot, same, now) == CooldownBlock(guard, Reboot, same, now)
  {
    hide Sorted, Today;
    var today := Today(same, now);
    if |today| >= 1 {
      TodayHas(same, now);
      SortedHas(today);
      assert NthNewest(today, 1) in Sorted(today);
      MaxIs(same);
      NthNewestToday(same, 1, now);
    }
  }

  /** The newest reboot of a history. */
  function Newest(ts: seq<int>): Option<int> {
    if ts == [] then None else Some(Max(ts))
  }

  /** The newest reboot, if it is less than a day old, is one the machine can know of: it was
      recorded, or taken since the last start. */
  predicate NewestKnown(w: World) {
    var newest := Newest(Times(w.all, Reboot));
    newest.Some? && w.now - newest.value < DAY ==> Taken(Reboot, newest.value) in w.known
  }

  /** Holding back as long as a machine that kept every record since the first start. */
  ghost predicate HeldAlike(w: World, rung: Rung) {
    forall busy: bool, activity: Option<int>, later: int | later >= Mono(w) ::
      BlockedUntil(w.machine, busy, activity, rung, later)
      == BlockedUntil(Shift(w.all, w.offset), busy, activity, rung, later)
  }

  lemma LowerRungsAlike(w: World, rung: Rung)
    requires WorldInvariant(w) && Books(w) && rung != Reboot
    ensures HeldAlike(w, rung)
  {
    hide WorldInvariant, Shift, Times, BlockedBy, GuardBlock;
    TimesShift(w.all, rung, w.offset);
    TimesShift(w.known, rung, w.offset);
    forall busy: bool, activity: Option<int>, later: int | later >= Mono(w)
      ensures BlockedUntil(w.machine, busy, activity, rung, later)
           == BlockedUntil(Shift(w.all, w.offset), busy, activity, rung, later)
    {
      SameBlocks(w, busy, activity, rung, later);
    }
  }

  ghost predicate Within(a: seq<int>, b: seq<int>) {
    forall t | t in a :: t in b
  }

  lemma MaxWithin(a: seq<int>, b: seq<int>)
    requires a != [] && Within(a, b)
    ensures b != [] && Max(a) <= Max(b) && Max(a) in a
  {
    MaxIs(a);
    MaxIs(b);
  }

  lemma MaxAbove(ts: seq<int>, t: int)
    requires t in ts
    ensures ts != [] && t <= Max(ts)
  {
    MaxIs(ts);
  }

  /** Reboots that share their newest instant, or are all a day old, are held back alike. */
  lemma SameNewest(guard: Option<int>, known: seq<int>, all: seq<int>, now: int)
    requires Within(known, all)
    requires all != [] && now - Max(all) < DAY ==> Max(all) in known
    ensures BlockedBy(guard, Reboot, known, now) == BlockedBy(guard, Reboot, all, now)
  {
    hide Max, Within, BlockedBy;
    RebootByCooldown(guard, known, now);
    RebootByCooldown(guard, all, now);
    if known != [] {
      MaxWithin(known, all);
    }
    if all != [] && Max(all) in known {
      MaxAbove(known, Max(all));
    }
  }

  lemma {:induction false} MaxMinus(ts: seq<int>, ahead: int)
    requires ts != []
    ensures Max(Minus(ts, ahead)) == Max(ts) - ahead
  {
    if |ts| > 1 {
      MaxMinus(ts[..|ts| - 1], ahead);
      assert Minus(ts, ahead)[..|ts| - 1] == Minus(ts[..|ts| - 1], ahead);
    }
  }

  /** A rung's instants on the machine's clock. */
  lemma InShift(h: seq<Taken>, rung: Rung, ahead: int, t: int)
    ensures t in Times(Shift(h, ahead), rung) <==> Taken(rung, t + ahead) in h
  {
    hide Times, Shift;
    TimesShift(h, rung, ahead);
    TimesHas(h, rung);
    var ts := Times(h, rung);
    if t + ahead in ts {
      var i :| 0 <= i < |ts| && ts[i] == t + ahead;
      assert Minus(ts, ahead)[i] == t;
    }
  }

  lemma KnownWithin(w: World)
    requires Books(w)
    ensures Within(Times(Shift(w.known, w.offset), Reboot), Times(Shift(w.all, w.offset), Reboot))
  {
    hide Times, Shift;
    forall t | t in Times(Shift(w.known, w.offset), Reboot)
      ensures t in Times(Shift(w.all, w.offset), Reboot)
    {
      InShift(w.known, Reboot, w.offset, t);
      InShift(w.all, Reboot, w.offset, t);
    }
  }

  /** The newest reboot on the machine's clock, and whether the machine can know of it. */
  lemma NewestShifted(w: World)
    requires Times(w.all, Reboot) != []
    ensures var all, newest := Times(Shift(w.all, w.offset), Reboot), Max(Times(w.all, Reboot));
            && all != [] && Max(all) == newest - w.offset
            && (Max(all) in Times(Shift(w.known, w.offset), Reboot) <==> Taken(Reboot, newest) in w.known)
  {
    hide Times, Shift, Max;
    TimesShift(w.all, Reboot, w.offset);
    MaxMinus(Times(w.all, Reboot), w.offset);
    InShift(w.known, Reboot, w.offset, Max(Times(w.all, Reboot)) - w.offset);
  }

  lemma NoneShifted(w: World)
    requires Times(w.all, Reboot) == []
    ensures Times(Shift(w.all, w.offset), Reboot) == []
  {
    TimesShift(w.all, Reboot, w.offset);
  }

  lemma KnownRebootAlike(w: World)
    requires WorldInvariant(w) && Books(w) && NewestKnown(w)
    ensures HeldAlike(w, Reboot)
  {
    hide WorldInvariant, Shift, Times, BlockedBy, GuardBlock, Books, Max, Within;
    KnownWithin(w);
    if Times(w.all, Reboot) == [] {
      NoneShifted(w);
    } else {
      NewestShifted(w);
    }
    forall busy: bool, activity: Option<int>, later: int | later >= Mono(w)
      ensures BlockedUntil(w.machine, busy, activity, Reboot, later)
           == BlockedUntil(Shift(w.all, w.offset), busy, activity, Reboot, later)
    {
      SameBlocks(w, busy, activity, Reboot, later);
      SameNewest(GuardBlock(busy, activity, later), Times(Shift(w.known, w.offset), Reboot),
                 Times(Shift(w.all, w.offset), Reboot), later);
    }
  }

  /** A reboot may run by the machine's own limits exactly when all its instants are a day old. */
  lemma RebootFree(history: seq<Taken>, now: int)
    ensures var ts := Times(history, Reboot);
            Free(history, Reboot, now) <==> (ts == [] || now - Max(ts) >= DAY)
  {
    hide Times, Today;
    RebootByCooldown(None, Times(history, Reboot), now);
  }

  /** An unknown newest reboot makes the difference at the last moment of its day. */
  lemma UnknownRebootFree(w: World)
    requires WorldInvariant(w) && Books(w) && !NewestKnown(w)
    ensures !HeldAlike(w, Reboot)
  {
    hide WorldInvariant, Shift, Times, BlockedUntil, Books, Max, Within;
    KnownWithin(w);
    NewestShifted(w);
    var known, all := Times(Shift(w.known, w.offset), Reboot), Times(Shift(w.all, w.offset), Reboot);
    var later := Max(all) + DAY - 1;
    SameBlocks(w, false, None, Reboot, later);
    RebootFree(Shift(w.all, w.offset), later);
    RebootFree(Shift(w.known, w.offset), later);
    if known != [] {
      MaxWithin(known, all);
    }
  }

  /** After any rungs, failed reboots and restarts: every rung but the reboot is held back until the
      same instant as by a machine that kept every record since the first start, at this and every
      later time; the reboot exactly if its newest record of the last day was filed, or is younger
      than the last start. */
  lemma RestartsAreInvisible(start: int, mono: int, ops: seq<Op>, rung: Rung)
    requires Dating(ops)
    ensures var w := ApplyAll(FirstStart(start, mono), ops);
            HeldAlike(w, rung) <==> rung != Reboot || NewestKnown(w)
  {
    hide WorldInvariant, Books, HeldAlike, NewestKnown, Apply;
    WorldHolds(start, mono, ops);
    var w := ApplyAll(FirstStart(start, mono), ops);
    if rung != Reboot {
      LowerRungsAlike(w, rung);
    } else if NewestKnown(w) {
      KnownRebootAlike(w);
    } else {
      UnknownRebootFree(w);
    }
  }

  function FailedThenRestarted(mono: int): seq<Op> {
    [FailedReboot, Restart(mono, mono - DAY)]
  }

  /** The reboot whose fast-boot call fails, then a restart: the rebuilt machine would run the reboot
      at once, one that kept its history not before a day has passed. */
  lemma UnrecordedReboot(now: int, mono: int)
    ensures Dating(FailedThenRestarted(mono))
    ensures var w := ApplyAll(FirstStart(now, mono), FailedThenRestarted(mono));
            && !HeldAlike(w, Reboot)
            && Free(w.machine, Reboot, Mono(w)) && !Free(Shift(w.all, w.offset), Reboot, Mono(w))
  {
    hide HeldAlike, ApplyAll, Free, Shift, Times, Max;
    AfterFailure(now, mono);
    OnlyReboot(now);
    RestartsAreInvisible(now, mono, FailedThenRestarted(mono), Reboot);
    RebootFree([], mono);
    FreeShifted([Taken(Reboot, now)], Reboot, now - mono, now);
    RebootFree([Taken(Reboot, now)], now);
  }

  lemma AfterFailure(now: int, mono: int)
    ensures var taken, offset := Taken(Reboot, now), now - mono;
            && ApplyAll(FirstStart(now, mono), [FailedReboot])
               == World([taken], [], [taken], None, [Taken(Reboot, mono)], offset, now)
            && ApplyAll(FirstStart(now, mono), FailedThenRestarted(mono))
               == World([taken], [], [], None, [], offset, now)
  {
    var once, restarted := [FailedReboot], FailedThenRestarted(mono);
    assert once[..0] == [] && restarted[..1] == once;
    NothingPruned(now);
    assert Seeds([], mono, now, mono - DAY) == [];
  }

  lemma OnlyReboot(now: int)
    ensures Times([Taken(Reboot, now)], Reboot) == [now] && Times([], Reboot) == [] && Max([now]) == now
  {
    TimesSnoc([], Taken(Reboot, now), Reboot);
    assert [] + [Taken(Reboot, now)] == [Taken(Reboot, now)];
  }

  // ---------------------------------------------------------------- the limits survive

  /** Nothing holds the rung back in the running machine, whatever the modem and its user do. */
  ghost predicate Unheld(w: World, rung: Rung) {
    exists busy: bool, activity: Option<int> :: BlockedUntil(w.machine, busy, activity, rung, Mono(w)).None?
  }

  /** A rung is taken only when nothing holds it back. */
  ghost predicate Allowed(w: World, op: Op) {
    match op
    case Take(rung) => Unheld(w, rung)
    case FailedReboot => Unheld(w, Reboot)
    case _ => true
  }

  ghost predicate Gated(w: World, ops: seq<Op>) {
    ops != [] ==> Gated(w, ops[..|ops| - 1]) && Allowed(ApplyAll(w, ops[..|ops| - 1]), ops[|ops| - 1])
  }

  /** The machine's guards only hold back more. */
  lemma GuardsHoldMore(history: seq<Taken>, busy: bool, activity: Option<int>, rung: Rung, now: int)
    requires BlockedUntil(history, busy, activity, rung, now).None?
    ensures Free(history, rung, now)
  {
    hide Times;
    Unblocked(history, busy, activity, rung, now);
    Unblocked(history, false, None, rung, now);
  }

  /** The limits in terms of a rung's instants. */
  predicate FreeTimes(ts: seq<int>, rung: Rung, now: int) {
    && (ts == [] || now - Max(ts) >= rung.Cooldown())
    && (rung.DailyCap().Some? ==> |Today(ts, now)| < rung.DailyCap().value)
  }

  lemma FreeByTimes(history: seq<Taken>, rung: Rung, now: int)
    ensures Free(history, rung, now) <==> FreeTimes(Times(history, rung), rung, now)
  {
    hide Times, Today;
    var ts := Times(history, rung);
    CooldownOver(None, rung, ts, now);
    CapNotReached(CooldownBlock(None, rung, ts, now), rung, ts, now);
    if ts != [] {
      MaxIs(ts);
    }
  }

  lemma {:induction false} TodayMinus(ts: seq<int>, ahead: int, now: int)
    ensures Today(Minus(ts, ahead), now - ahead) == Minus(Today(ts, now), ahead)
  {
    hide Today;
    if ts == [] {
      Nothing(Reboot, now);
      Nothing(Reboot, now - ahead);
    } else {
      var before, last := ts[..|ts| - 1], ts[|ts| - 1];
      assert ts == before + [last] && Minus(ts, ahead) == Minus(before, ahead) + [last - ahead];
      TodayMinus(before, ahead, now);
      TodaySnoc(before, last, now);
      TodaySnoc(Minus(before, ahead), last - ahead, now - ahead);
    }
  }

  lemma FreeShifted(history: seq<Taken>, rung: Rung, ahead: int, now: int)
    ensures Free(Shift(history, ahead), rung, now - ahead) <==> Free(history, rung, now)
  {
    hide Times, Shift, Today, Max, Free;
    var ts := Times(history, rung);
    FreeByTimes(history, rung, now);
    FreeByTimes(Shift(history, ahead), rung, now - ahead);
    TimesShift(history, rung, ahead);
    TodayMinus(ts, ahead, now);
    if ts != [] {
      MaxMinus(ts, ahead);
    }
  }

  /** What the running machine lets run, the file's whole past lets run. */
  lemma FreeOfAllFiled(w: World, rung: Rung)
    requires WorldInvariant(w) && Books(w) && Free(w.machine, rung, Mono(w))
    ensures Free(w.filed, rung, w.now)
  {
    hide WorldInvariant, Times, Shift, Max, BlockedUntil;
    SameBlocks(w, false, None, rung, Mono(w));
    FreeShifted(w.known, rung, w.offset, w.now);
    if rung == Reboot {
      RebootFree(w.known, w.now);
      RebootFree(w.filed, w.now);
      FiledWithin(w);
      if Times(w.filed, Reboot) != [] {
        MaxWithin(Times(w.filed, Reboot), Times(w.known, Reboot));
      }
    } else {
      FreeByTimes(w.known, rung, w.now);
      FreeByTimes(w.filed, rung, w.now);
    }
  }

  lemma FiledWithin(w: World)
    requires Books(w)
    ensures Within(Times(w.filed, Reboot), Times(w.known, Reboot)) && Past(w.filed, w.now)
  {
    hide Times;
    TimesHas(w.filed, Reboot);
    TimesHas(w.known, Reboot);
    forall i | 0 <= i < |w.filed|
      ensures w.filed[i].at <= w.now
    {
      assert w.filed[i] in w.known && w.filed[i] in w.all;
    }
  }

  /** Of two machines that hold a rung back alike, what one lets run the other does. */
  lemma FreeOfAllTaken(w: World, rung: Rung)
    requires WorldInvariant(w) && Books(w) && Free(w.machine, rung, Mono(w))
    requires rung != Reboot || NewestKnown(w)
    ensures Free(w.all, rung, w.now)
  {
    hide WorldInvariant, Books, NewestKnown, Shift, BlockedUntil;
    if rung == Reboot {
      KnownRebootAlike(w);
    } else {
      LowerRungsAlike(w, rung);
    }
    FreeShifted(w.all, rung, w.offset, w.now);
  }

  /** A reboot whose newest predecessor is not known comes within a day of it. */
  lemma TooEarly(w: World)
    requires !NewestKnown(w)
    ensures !WithinLimits(w.all + [Taken(Reboot, w.now)])
  {
    hide Times, Max;
    var ts := Times(w.all, Reboot);
    MaxIs(ts);
    TimesHas(w.all, Reboot);
    var i :| 0 <= i < |w.all| && w.all[i] == Taken(Reboot, Max(ts));
    var longer := w.all + [Taken(Reboot, w.now)];
    assert longer[i].rung == longer[|w.all|].rung;
  }

  /** A beginning of a history within limits is within limits. */
  lemma LimitsBefore(history: seq<Taken>, taken: Taken)
    requires WithinLimits(history + [taken])
    ensures WithinLimits(history)
  {
    var longer := history + [taken];
    assert longer[..|history|] == history;
    forall i, j | 0 <= i < j < |history| && history[i].rung == history[j].rung
      ensures history[j].at - history[i].at >= history[j].rung.Cooldown()
    {
      assert longer[i].rung == longer[j].rung;
    }
    forall rung: Rung, lo: int
      ensures WithinCap(history, rung, lo)
    {
      assert WithinCap(longer, rung, lo);
    }
  }

  /** The operation takes a reboot. */
  predicate TakesReboot(op: Op) {
    op == FailedReboot || op == Take(Reboot)
  }

  /** Every reboot that was taken found the newest one before it known. */
  predicate RebootsKnown(w: World, ops: seq<Op>) {
    ops != [] ==>
      && RebootsKnown(w, ops[..|ops| - 1])
      && (TakesReboot(ops[|ops| - 1]) ==> NewestKnown(ApplyAll(w, ops[..|ops| - 1])))
  }

  /** The limits of all rungs taken are kept by one more operation exactly if it takes no reboot, or
      the newest reboot is known. */
  lemma StepWithin(w: World, op: Op)
    requires WorldInvariant(w) && Books(w) && Allowed(w, op)
    ensures WithinLimits(Apply(w, op).all) <==> WithinLimits(w.all) && (TakesReboot(op) ==> NewestKnown(w))
  {
    hide WorldInvariant, NewestKnown, WithinLimits, Free, Times;
    if op.Take? || op.FailedReboot? {
      var rung := if op.Take? then op.rung else Reboot;
      if WithinLimits(Apply(w, op).all) {
        LimitsBefore(w.all, Taken(rung, w.now));
      }
      if rung == Reboot && !NewestKnown(w) {
        TooEarly(w);
      } else if WithinLimits(w.all) {
        FreeNow(w, rung);
        FreeOfAllTaken(w, rung);
        FreeToTake(w.all, rung, w.now);
      }
    }
  }

  lemma FreeNow(w: World, rung: Rung)
    requires Unheld(w, rung)
    ensures Free(w.machine, rung, Mono(w))
  {
    hide BlockedUntil;
    var busy: bool, activity: Option<int> :| BlockedUntil(w.machine, busy, activity, rung, Mono(w)).None?;
    GuardsHoldMore(w.machine, busy, activity, rung, Mono(w));
  }

  /** Over any number of starts, what was recorded keeps every cooldown and daily cap. All rungs
      taken keep them exactly if each reboot found the newest one before it known: filed, taken
      since the last start, or a day old. If no reboot fails unrecorded, all are recorded. */
  lemma {:induction false} LimitsSurvive(start: int, mono: int, ops: seq<Op>)
    requires Dating(ops) && Gated(FirstStart(start, mono), ops)
    ensures var w := ApplyAll(FirstStart(start, mono), ops);
            && WithinLimits(w.filed)
            && (WithinLimits(w.all) <==> RebootsKnown(FirstStart(start, mono), ops))
            && (FailedReboot !in ops ==> w.all == w.filed)
  {
    hide WorldInvariant, Books, WithinLimits, Free, Unheld, NewestKnown;
    if ops == [] {
      NothingTaken();
    } else {
      var before, last := ops[..|ops| - 1], ops[|ops| - 1];
      LimitsSurvive(start, mono, before);
      WorldHolds(start, mono, before);
      var w := ApplyAll(FirstStart(start, mono), before);
      StepWithin(w, last);
      FiledWithin(w);
      if last.Take? {
        FreeNow(w, last.rung);
        FreeOfAllFiled(w, last.rung);
        FreeToTake(w.filed, last.rung, w.now);
      }
      assert FailedReboot !in ops ==> FailedReboot !in before && last != FailedReboot;
    }
  }

  lemma NothingTaken()
    ensures WithinLimits([])
  {}

  lemma FreeToTake(history: seq<Taken>, rung: Rung, now: int)
    requires WithinLimits(history) && Past(history, now) && Free(history, rung, now)
    ensures WithinLimits(history + [Taken(rung, now)])
  {
    hide WithinLimits, Past, BlockedUntil;
    TakeKeepsLimits(history, false, None, rung, now);
  }

  /** With such failures the machine may take the reboot twice at one moment, a start between. */
  lemma RebootTwice(now: int, mono: int)
    ensures var ops := FailedThenRestarted(mono) + [FailedReboot];
            && Dating(ops) && Gated(FirstStart(now, mono), ops)
            && !WithinLimits(ApplyAll(FirstStart(now, mono), ops).all)
  {
    hide BlockedUntil, Unheld, Apply;
    var once, restarted := [FailedReboot], FailedThenRestarted(mono);
    var ops := restarted + [FailedReboot];
    assert once[..0] == [] && restarted[..1] == once && ops[..2] == restarted;
    var start := FirstStart(now, mono);
    AfterFailure(now, mono);
    NothingHeld(start);
    NothingHeld(ApplyAll(start, restarted));
    assert Gated(start, once) && Gated(start, restarted);
    TwiceBeyond(ApplyAll(start, restarted));
  }

  lemma NothingHeld(w: World)
    requires w.machine == []
    ensures Unheld(w, Reboot)
  {
    hide Times, Max;
    OnlyReboot(0);
    RebootFree([], Mono(w));
  }

  lemma TwiceBeyond(w: World)
    requires w.all == [Taken(Reboot, w.now)]
    ensures !WithinLimits(Apply(w, FailedReboot).all)
  {
    var all := Apply(w, FailedReboot).all;
    assert all == [Taken(Reboot, w.now), Taken(Reboot, w.now)];
    assert all[0].rung == all[1].rung;
  }
}
