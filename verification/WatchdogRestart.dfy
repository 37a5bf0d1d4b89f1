/** What the watchdog writes to its state file, and what a restarted watchdog makes of it
    (zte-agent/src/conn_watchdog.rs). The wall clock and each start's monotonic clock advance
    together, in whole seconds. */
module WatchdogRestart {
  import opened Wrappers
  import opened Watchdog

  /** The state file. Records carry wall-clock seconds. */
  datatype Persisted = Persisted(restoreFastBoot: bool, actions: seq<Taken>)

  /** Records from the last day, dropping any from the future. */
  function Prune(actions: seq<Taken>, unix: int): seq<Taken> {
    if actions == [] then []
    else
      var before := Prune(actions[..|actions| - 1], unix);
      var last := actions[|actions| - 1];
      if last.at <= unix && unix - last.at < DAY then before + [last] else before
  }

  function Load(disk: Option<Persisted>): Persisted {
    if disk.Some? then disk.value else Persisted(false, [])
  }

  /** The file after `rung` is recorded. */
  function Recorded(disk: Option<Persisted>, rung: Rung, restoreFastBoot: bool, unix: int): Persisted {
    Persisted(restoreFastBoot, Prune(Load(disk).actions, unix) + [Taken(rung, unix)])
  }

  /** When something that happened `age` seconds ago was, on a clock reading `now` that cannot date
      anything before `least`: what it cannot date counts as happening now. */
  function Dated(now: int, age: int, least: int): int {
    if now - age >= least then now - age else now
  }

  /** The history a machine started at `now` gets for `records`, on its own clock. */
  function Seeds(records: seq<Taken>, now: int, unix: int, least: int): seq<Taken> {
    if records == [] then []
    else
      var last := records[|records| - 1];
      Seeds(records[..|records| - 1], now, unix, least) + [Taken(last.rung, Dated(now, unix - last.at, least))]
  }

  /** Fast boot is off on the watchdog's account; the state file. */
  datatype Debt = Debt(off: bool, disk: Option<Persisted>)

  /** What the executor does, with the outcome of each write and call. */
  datatype DebtOp =
    | LowerRung(rung: Rung, writeOk: bool)
    | RebootRung(offOk: bool, recordOk: bool, rebootOk: bool, undoOk: bool, undoWriteOk: bool)
    | AgentStart(restoreOk: bool, writeOk: bool)
    | Retry(restoreOk: bool, writeOk: bool)

  function Written(before: Option<Persisted>, after: Persisted, writeOk: bool): Option<Persisted> {
    if writeOk then Some(after) else before
  }

  function DebtStep(s: Debt, op: DebtOp, unix: int): Debt {
    match op
    case LowerRung(rung, writeOk) => s.(disk := Written(s.disk, Recorded(s.disk, rung, false, unix), writeOk))
    case RebootRung(offOk, recordOk, rebootOk, undoOk, undoWriteOk) =>
      if !offOk then s
      else
        var recorded := Written(s.disk, Recorded(s.disk, Reboot, true, unix), recordOk);
        if recordOk && rebootOk then Debt(true, recorded)
        else Debt(!undoOk, Written(recorded, Load(recorded).(restoreFastBoot := !undoOk), undoWriteOk))
    case AgentStart(restoreOk, writeOk) =>
      if s.disk.None? then s
      else
        var saved := s.disk.value;
        var paid := saved.restoreFastBoot && restoreOk;
        Debt(s.off && !paid,
             Written(s.disk, Persisted(saved.restoreFastBoot && !paid, Prune(saved.actions, unix)), writeOk))
    case Retry(restoreOk, writeOk) =>
      if restoreOk then Debt(false, Written(s.disk, Load(s.disk).(restoreFastBoot := false), writeOk)) else s
  }

  /** The executor: its state file, and whether the device's fast boot is on. Each parameter
      ending in `Ok` is the outcome of one write or call. */
  class Executor {
    var disk: Option<Persisted>
    var fastBoot: bool

    ghost function Value(): Debt
      reads this
    {
      Debt(!fastBoot, disk)
    }

    method Record(rung: Rung, restoreFastBoot: bool, unix: int, writeOk: bool) returns (ok: bool)
      modifies this`disk
      ensures ok == writeOk
      ensures disk == Written(old(disk), Recorded(old(disk), rung, restoreFastBoot, unix), writeOk)
    {
      var saved := Load(disk);
      saved := saved.(actions := Prune(saved.actions, unix));
      saved := saved.(actions := saved.actions + [Taken(rung, unix)]);
      saved := saved.(restoreFastBoot := restoreFastBoot);
      if writeOk {
        disk := Some(saved);
      }
      ok := writeOk;
    }

    /** A start: fast boot is turned on if that is owed, and the machine learns the recent records. */
    method RestoreState(machine: Machine, now: int, unix: int, least: int, fastBootOk: bool, writeOk: bool)
      returns (pending: bool)
      modifies this, machine
      ensures Value() == DebtStep(old(Value()), AgentStart(fastBootOk, writeOk), unix)
      ensures pending <==> Load(old(disk)).restoreFastBoot && !fastBootOk
      ensures machine.Value()
              == old(machine.Value()).(history := old(machine.history)
                                                  + Seeds(Prune(Load(old(disk)).actions, unix), now, unix, least))
    {
      pending := false;
      assert machine.history + [] == machine.history;
      if disk.None? {
        return;
      }
      var saved := disk.value;
      var before := saved;
      if saved.restoreFastBoot {
        if fastBootOk {
          fastBoot := true;
          saved := saved.(restoreFastBoot := false);
        } else {
          pending := true;
        }
      }
      saved := saved.(actions := Prune(saved.actions, unix));
      SeedMachine(machine, saved.actions, now, unix, least);
      if saved != before && writeOk {
        disk := Some(saved);
      }
    }

    /** Every record goes into the machine's history. */
    method SeedMachine(machine: Machine, records: seq<Taken>, now: int, unix: int, least: int)
      modifies machine
      ensures machine.Value()
              == old(machine.Value()).(history := old(machine.history) + Seeds(records, now, unix, least))
    {
      assert machine.history + [] == machine.history;
      assert records[..0] == [];
      for i := 0 to |records|
        invariant machine.Value()
               == old(machine.Value()).(history := old(machine.history) + Seeds(records[..i], now, unix, least))
      {
        assert records[..i + 1][..i] == records[..i];
        machine.RecordAction(records[i].rung, Dated(now, unix - records[i].at, least));
      }
      assert records[..|records|] == records;
    }

    /** One more try at turning fast boot on; tells whether it is still owed. */
    method RetryRestore(unix: int, restoreOk: bool, writeOk: bool) returns (pending: bool)
      modifies this
      ensures Value() == DebtStep(old(Value()), Retry(restoreOk, writeOk), unix)
      ensures pending == !restoreOk
    {
      if restoreOk {
        fastBoot := true;
        if writeOk {
          disk := Some(Load(disk).(restoreFastBoot := false));
        }
      }
      pending := !restoreOk;
    }

    /** Fast boot off, recorded, then reboot; undone on any failure after the first write. */
    method RebootWithFastBootOff(unix: int, offOk: bool, recordOk: bool, rebootOk: bool, undoOk: bool,
                                 undoWriteOk: bool)
      returns (ok: bool)
      modifies this
      ensures ok == (offOk && recordOk && rebootOk)
      ensures Value() == DebtStep(old(Value()), RebootRung(offOk, recordOk, rebootOk, undoOk, undoWriteOk), unix)
    {
      if !offOk {
        return false;
      }
      fastBoot := false;
      var recorded := Record(Reboot, true, unix, recordOk);
      if !recorded {
        UndoFastBootOff(undoOk, undoWriteOk);
        return false;
      }
      if !rebootOk {
        UndoFastBootOff(undoOk, undoWriteOk);
        return false;
      }
      ok := true;
    }

    method UndoFastBootOff(undoOk: bool, writeOk: bool)
      modifies this
      ensures fastBoot == (old(fastBoot) || undoOk)
      ensures disk == Written(old(disk), Load(old(disk)).(restoreFastBoot := !undoOk), writeOk)
    {
      if undoOk {
        fastBoot := true;
      }
      if writeOk {
        disk := Some(Load(disk).(restoreFastBoot := !undoOk));
      }
    }
  }

  // ---------------------------------------------------------------- dropping old records is invisible

  /** Records less than a day old. */
  function Recent(history: seq<Taken>, now: int): seq<Taken> {
    if history == [] then []
    else
      var before := Recent(history[..|history| - 1], now);
      var last := history[|history| - 1];
      if now - last.at < DAY then before + [last] else before
  }

  lemma RecentSnoc(h: seq<Taken>, a: Taken, now: int)
    ensures Recent(h + [a], now) == Recent(h, now) + (if now - a.at < DAY then [a] else [])
    ensures now - a.at >= DAY ==> Recent(h + [a], now) == Recent(h, now)
  {
    assert (h + [a])[..|h|] == h;
  }

  lemma TimesSnoc(h: seq<Taken>, a: Taken, rung: Rung)
    ensures Times(h + [a], rung) == Times(h, rung) + (if a.rung == rung then [a.at] else [])
    ensures a.rung != rung ==> Times(h + [a], rung) == Times(h, rung)
  {
    assert (h + [a])[..|h|] == h;
  }

  lemma TodaySnoc(ts: seq<int>, t: int, now: int)
    ensures Today(ts + [t], now) == Today(ts, now) + (if now - t < DAY then [t] else [])
    ensures now - t >= DAY ==> Today(ts + [t], now) == Today(ts, now)
  {
    assert (ts + [t])[..|ts|] == ts;
  }

  lemma Nothing(rung: Rung, now: int)
    ensures Recent([], now) == [] && Times([], rung) == [] && Today([], now) == []
  {}

  lemma {:induction false} RecentTimes(history: seq<Taken>, rung: Rung, now: int)
    ensures Times(Recent(history, now), rung) == Today(Times(history, rung), now)
  {
    hide Recent, Times, Today;
    if history == [] {
      Nothing(rung, now);
    } else {
      var before, last := history[..|history| - 1], history[|history| - 1];
      assert history == before + [last];
      RecentTimes(before, rung, now);
      RecentSnoc(before, last, now);
      TimesSnoc(before, last, rung);
      TimesSnoc(Recent(before, now), last, rung);
      TodaySnoc(Times(before, rung), last.at, now);
    }
  }

  lemma {:induction false} TodayOfToday(ts: seq<int>, now: int, later: int)
    requires now <= later
    ensures Today(Today(ts, now), later) == Today(ts, later)
  {
    if ts != [] {
      var before := ts[..|ts| - 1];
      TodayOfToday(before, now, later);
      if now - ts[|ts| - 1] < DAY {
        assert Today(ts, now)[..|Today(ts, now)| - 1] == Today(before, now);
      }
    }
  }

  lemma CooldownOfToday(block: Option<int>, rung: Rung, same: seq<int>, now: int, later: int)
    requires now <= later
    ensures CooldownBlock(block, rung, Today(same, now), later) == CooldownBlock(block, rung, same, later)
  {
    var today := Today(same, now);
    TodayHas(same, now);
    if today != [] {
      MaxIs(today);
      MaxIs(same);
    } else if same != [] {
      MaxIs(same);
    }
  }

  lemma CapOfToday(block: Option<int>, rung: Rung, same: seq<int>, now: int, later: int)
    requires now <= later
    ensures CapBlock(block, rung, Today(same, now), later) == CapBlock(block, rung, same, later)
  {
    hide Today, NthNewest;
    TodayOfToday(same, now, later);
  }

  lemma BlockedByToday(guard: Option<int>, rung: Rung, same: seq<int>, now: int, later: int)
    requires now <= later
    ensures BlockedBy(guard, rung, Today(same, now), later) == BlockedBy(guard, rung, same, later)
  {
    CooldownOfToday(guard, rung, same, now, later);
    CapOfToday(CooldownBlock(guard, rung, same, later), rung, same, now, later);
  }

  /** Forgetting records a day old changes no rung's deadline, now or later. */
  lemma RecentSuffices(history: seq<Taken>, busy: bool, activity: Option<int>, rung: Rung, now: int, later: int)
    requires now <= later
    ensures BlockedUntil(Recent(history, now), busy, activity, rung, later)
         == BlockedUntil(history, busy, activity, rung, later)
  {
    RecentTimes(history, rung, now);
    BlockedByToday(GuardBlock(busy, activity, later), rung, Times(history, rung), now, later);
  }

  // ---------------------------------------------------------------- a history on another clock

  /** The same records on a clock that the recording clock is `ahead` of. */
  function Shift(history: seq<Taken>, ahead: int): seq<Taken> {
    if history == [] then []
    else
      var last := history[|history| - 1];
      Shift(history[..|history| - 1], ahead) + [Taken(last.rung, last.at - ahead)]
  }

  /** Whether a clock starting at `now` can date all records, or they are as new as it makes them. */
  predicate Datable(records: seq<Taken>, now: int, unix: int, least: int) {
    forall i | 0 <= i < |records| :: records[i].at == unix || now - (unix - records[i].at) >= least
  }

  /** Seeding moves the records to the new clock unchanged exactly if that clock can date them. */
  lemma {:induction false} SeedsExactly(h: seq<Taken>, mono: int, unix: int, least: int)
    ensures |Seeds(h, mono, unix, least)| == |Shift(h, unix - mono)| == |h|
    ensures Seeds(h, mono, unix, least) == Shift(h, unix - mono) <==> Datable(h, mono, unix, least)
  {
    if h != [] {
      var before, last := h[..|h| - 1], h[|h| - 1];
      SeedsExactly(before, mono, unix, least);
      var seeds, shift := Seeds(h, mono, unix, least), Shift(h, unix - mono);
      assert seeds[..|h| - 1] == Seeds(before, mono, unix, least) && shift[..|h| - 1] == Shift(before, unix - mono);
      assert Datable(h, mono, unix, least)
        <==> Datable(before, mono, unix, least) && (last.at == unix || mono - (unix - last.at) >= least);
      if seeds == shift {
        assert seeds[|h| - 1] == shift[|h| - 1];
      }
    }
  }

  // ---------------------------------------------------------------- fast boot owed after a reboot
  // The reboot rung turns fast boot off and promises to turn it back on. The promise lives in the
  // state file, because a start reads only the file.

  /** The file remembers a debt. */
  predicate Remembered(s: Debt) {
    s.off ==> Load(s.disk).restoreFastBoot
  }

  /** The reboot rung turned fast boot off, and neither its record, nor turning it on again, nor the
      note that this is owed worked. */
  predicate AllFailed(op: DebtOp) {
    op.RebootRung? && op.offOk && !op.recordOk && !op.undoOk && !op.undoWriteOk
  }

  /** The debt stays remembered, except in two cases: a lower rung is recorded while it is unpaid,
      which writes the flag as false; or everything after turning fast boot off fails. */
  lemma RememberedExactly(s: Debt, op: DebtOp, unix: int)
    requires Remembered(s)
    ensures Remembered(DebtStep(s, op, unix))
       <==> !(s.off && op.LowerRung? && op.writeOk) && !(AllFailed(op) && !Load(s.disk).restoreFastBoot)
  {}

  /** The operation turns fast boot on again: a start that finds the debt in the file, a retry, or undoing
      a reboot that did not come about. */
  predicate Repays(s: Debt, op: DebtOp) {
    match op
    case LowerRung(_, _) => false
    case RebootRung(offOk, recordOk, rebootOk, undoOk, _) => offOk && undoOk && !(recordOk && rebootOk)
    case AgentStart(restoreOk, _) => Load(s.disk).restoreFastBoot && restoreOk
    case Retry(restoreOk, _) => restoreOk
  }

  /** Exactly when fast boot is off on the watchdog's account after an operation. */
  lemma OffExactly(s: Debt, op: DebtOp, unix: int)
    ensures DebtStep(s, op, unix).off <==> !Repays(s, op) && (s.off || (op.RebootRung? && op.offOk))
  {}

  /** Every state write of the operation succeeds. */
  predicate AllWritten(op: DebtOp) {
    match op
    case LowerRung(_, writeOk) => writeOk
    case RebootRung(_, recordOk, _, _, undoWriteOk) => recordOk && undoWriteOk
    case AgentStart(_, writeOk) => writeOk
    case Retry(_, writeOk) => writeOk
  }

  /** The file says that a debt is owed if and only if it is. */
  predicate Truthful(s: Debt) {
    s.off <==> Load(s.disk).restoreFastBoot
  }

  /** While writes succeed the file goes on telling the truth, neither forgetting a debt nor keeping one
      that was repaid, but for a lower rung recorded while it is owed. */
  lemma TruthfulExactly(s: Debt, op: DebtOp, unix: int)
    requires Truthful(s) && AllWritten(op)
    ensures Truthful(DebtStep(s, op, unix)) <==> !(s.off && op.LowerRung?)
  {}

  /** After a reboot whose restore failed and one PDN reconnect, no start repays the debt, though
      every state write succeeds. */
  lemma ForgottenDebt(rebootAt: int, startAt: int, rungAt: int, laterAt: int, restoreOk: bool)
    ensures var rebooted := DebtStep(Debt(false, None), RebootRung(true, true, true, true, true), rebootAt);
            var started := DebtStep(rebooted, AgentStart(false, true), startAt);
            var reconnected := DebtStep(started, LowerRung(PdnReconnect, true), rungAt);
            Remembered(started) && DebtStep(reconnected, AgentStart(restoreOk, true), laterAt).off
  {}
}
