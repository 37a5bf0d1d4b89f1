/** The order of a profile download's effects and its clean-up (zte-agent/src/esim_download.rs), as
    the thread of `DownloadRace`. Card and server calls and the clock answer arbitrarily; confirm and
    cancel calls act between any two steps. */
module DownloadSteps {
  import opened Wrappers
  import DownloadRace

  type Ctl = DownloadRace.Ctl
  type Step = DownloadRace.Step
  type Thread = DownloadRace.State

  datatype Op =
    | Show(step: Step)
    | GetChallenge | GetInfo
    | InitiateAuthentication
    | AuthenticateServer
    | AuthenticateClient
    | ParseMetadata
    | CheckCode
    | AskUser
    | PrepareDownload
    | GetPackage
    | CheckTime
    | LoadPackage

  /** How an operation ended. `Refused` is the user's or the preview timer's decision, or no answer;
      `ServerReported` a failure the server itself reported; `CardReported` an installation error
      result from the card; `CodeWanted` and `TooLate` what the procedure finds itself: the server wants
      a confirmation code that was not given, and the time left is too short to install. */
  datatype Outcome =
    | Good
    | Unreachable
    | Malformed
    | ServerReported
    | CardReported
    | Refused(ctl: Option<Ctl>)
    | CodeWanted
    | TooLate

  datatype Reason = EndUserRejection | Postponed | Timeout | LoadExecutionError | Undefined

  datatype Effect = Did(op: Op, outcome: Outcome) | CancelCard(reason: Reason, ok: bool) | CancelServer

  /** Why a download stopped. */
  datatype Stop = Stop(reason: Option<Reason>, notifyServer: bool)

  function CardStop(outcome: Outcome): Stop {
    Stop(Some(if outcome.Unreachable? then Timeout else Undefined), true)
  }

  function ServerStop(outcome: Outcome): Stop {
    if outcome.Unreachable? then Stop(Some(Timeout), true)
    else Stop(Some(Undefined), !outcome.ServerReported?)
  }

  function UserStop(ctl: Ctl): Stop {
    match ctl
    case Decline => Stop(Some(EndUserRejection), true)
    case PreviewTimeout => Stop(Some(Timeout), true)
    case _ => Stop(Some(Postponed), true)
  }

  /** The operations of a whole download, in order. */
  function Plan(preview: bool): seq<Op> {
    [Show(DownloadRace.ChallengeAndInfo), GetChallenge, GetInfo,
     Show(DownloadRace.InitiateAuthentication), InitiateAuthentication,
     Show(DownloadRace.AuthenticateServer), AuthenticateServer,
     Show(DownloadRace.AuthenticateClient), AuthenticateClient, ParseMetadata,
     Show(DownloadRace.MetadataParse), CheckCode]
    + (if preview then [Show(DownloadRace.Preview), AskUser] else [])
    + [Show(DownloadRace.PrepareDownload), PrepareDownload,
       Show(DownloadRace.GetPackage), GetPackage, CheckTime,
       Show(DownloadRace.LoadPackage), LoadPackage]
  }

  function AllGood(ops: seq<Op>): seq<Effect> {
    seq(|ops|, i requires 0 <= i < |ops| => Did(ops[i], Good))
  }

  /** The first `n` operations went well and then, unless `failed` is empty, the next one did not. */
  ghost predicate Followed(run: seq<Effect>, preview: bool, n: nat, failed: seq<Effect>) {
    && n <= |Plan(preview)|
    && run == AllGood(Plan(preview)[..n]) + failed
    && (failed == []
        || (n < |Plan(preview)| && |failed| == 1 && failed[0].Did? && failed[0].op == Plan(preview)[n]
            && failed[0].outcome != Good))
  }

  lemma Grow(run: seq<Effect>, preview: bool, n: nat, outcome: Outcome)
    requires Followed(run, preview, n, []) && n < |Plan(preview)|
    ensures var e := Did(Plan(preview)[n], outcome);
            if outcome == Good then Followed(run + [e], preview, n + 1, []) else Followed(run + [e], preview, n, [e])
  {
    var plan := Plan(preview);
    assert plan[..n + 1] == plan[..n] + [plan[n]];
    assert AllGood(plan[..n + 1]) == AllGood(plan[..n]) + [Did(plan[n], Good)];
  }

  // ---------------------------------------------------------------- the plan and the thread

  predicate Comes(op: Op, preview: bool, n: nat) {
    n < |Plan(preview)| && Plan(preview)[n] == op
  }

  predicate Came(op: Op, preview: bool, n: nat) {
    0 < n <= |Plan(preview)| && Plan(preview)[n - 1] == op
  }

  /** The step that an operation is work for; the load is a step of its own. */
  function WorkOf(op: Op): Option<Step> {
    match op
    case GetChallenge | GetInfo => Some(DownloadRace.ChallengeAndInfo)
    case InitiateAuthentication => Some(DownloadRace.InitiateAuthentication)
    case AuthenticateServer => Some(DownloadRace.AuthenticateServer)
    case AuthenticateClient | ParseMetadata => Some(DownloadRace.AuthenticateClient)
    case CheckCode => Some(DownloadRace.MetadataParse)
    case PrepareDownload => Some(DownloadRace.PrepareDownload)
    case GetPackage => Some(DownloadRace.GetPackage)
    case _ => None
  }

  function FirstOf(step: Step): Op {
    match step
    case ChallengeAndInfo => GetChallenge
    case InitiateAuthentication => InitiateAuthentication
    case AuthenticateServer => AuthenticateServer
    case AuthenticateClient => AuthenticateClient
    case MetadataParse => CheckCode
    case PrepareDownload => PrepareDownload
    case GetPackage => GetPackage
    case _ => Show(step)
  }

  /** The operation that follows in the same step. */
  function NextOf(op: Op): Option<Op> {
    match op
    case GetChallenge => Some(GetInfo)
    case AuthenticateClient => Some(ParseMetadata)
    case _ => None
  }

  /** The last operation before the channel is drained after a step. */
  function LastOf(step: Step): Op {
    match step
    case ChallengeAndInfo => GetInfo
    case InitiateAuthentication => InitiateAuthentication
    case AuthenticateServer => AuthenticateServer
    case MetadataParse => CheckCode
    case PrepareDownload => PrepareDownload
    case GetPackage => GetPackage
    case _ => Show(step)
  }

  /** Which operation comes next when the thread stands at `pc`. */
  predicate At(pc: DownloadRace.Pc, preview: bool, n: nat) {
    match pc
    case Deaf | Opening => n == 0
    case Report(step) => Comes(Show(step), preview, n)
    case Work(step) => n < |Plan(preview)| && WorkOf(Plan(preview)[n]) == Some(step)
    case Check(step) => Came(LastOf(step), preview, n)
    case CheckTime => Comes(CheckTime, preview, n)
    case Receive => Comes(AskUser, preview, n)
    case Install => Comes(LoadPackage, preview, n)
    case Installed => n == |Plan(preview)|
    case Stopped => n < |Plan(preview)|
  }

  /** With the metadata shown, the user is asked or the channel drained. */
  function AfterMetadata(preview: bool): DownloadRace.Pc {
    if preview then DownloadRace.Report(DownloadRace.Preview) else DownloadRace.Check(DownloadRace.MetadataParse)
  }

  /** After a step is reported, its operation is next, or the user is to be asked. */
  lemma ReportAlong(step: Step, preview: bool, n: nat)
    requires At(DownloadRace.Report(step), preview, n)
    ensures At(DownloadRace.AfterReport(step), preview, n + 1)
    ensures DownloadRace.AfterReport(step).Work? ==> Comes(FirstOf(step), preview, n + 1)
  {
    var plan := Plan(preview);
    assert plan[n] == Show(step);
  }

  lemma CheckAlong(step: Step, preview: bool, n: nat)
    requires At(DownloadRace.Check(step), preview, n) && (step == DownloadRace.MetadataParse ==> !preview)
    requires step !in {DownloadRace.AuthenticateClient, DownloadRace.Preview}
    ensures At(DownloadRace.AfterCheck(step), preview, n) && n < |Plan(preview)|
  {
    var plan := Plan(preview);
    assert plan[n - 1] == LastOf(step);
  }

  lemma WorkAlong(s: Thread, n: nat)
    requires s.pc.Work? && At(s.pc, s.preview, n)
    ensures var next := NextOf(Plan(s.preview)[n]);
            if next.Some? then At(s.pc, s.preview, n + 1) && Comes(next.value, s.preview, n + 1)
            else At(DownloadRace.AfterWork(s, s.pc.step), s.preview, n + 1)
  {
    var plan := Plan(s.preview);
    assert WorkOf(plan[n]) == Some(s.pc.step);
  }

  lemma ReceiveAlong(preview: bool, n: nat)
    requires At(DownloadRace.Receive, preview, n)
    ensures At(DownloadRace.Report(DownloadRace.PrepareDownload), preview, n + 1)
  {}

  /** The operations done so far have come as far as the thread, and the load was tried exactly if
      the thread says so. */
  ghost predicate Fits(s: Thread, run: seq<Effect>, n: nat, failed: seq<Effect>) {
    && Followed(run, s.preview, n, failed) && At(s.pc, s.preview, n)
    && (failed != [] ==> s.pc.Stopped?)
    && (s.loaded <==> s.pc.Installed? || (failed != [] && failed[0].Did? && failed[0].op == LoadPackage))
  }

  lemma CallsFit(s: Thread, a: DownloadRace.Action, run: seq<Effect>, n: nat, failed: seq<Effect>)
    requires Fits(s, run, n, failed) && (a.Send? || a.Update?) && DownloadRace.Enabled(s, a)
    ensures var t := DownloadRace.Act(s, a); Fits(t, run, n, failed) && t.pc == s.pc && s.queue <= t.queue
  {
    hide Followed, At;
  }

  /** Moves of the thread that ask nothing of card, server or user. */
  lemma PauseFits(s: Thread, fails: bool, run: seq<Effect>, n: nat, failed: seq<Effect>)
    requires DownloadRace.Invariant(s) && DownloadRace.Enabled(s, DownloadRace.Next(fails)) && Fits(s, run, n, failed)
    requires s.pc.Stopped?
             || (failed == []
                 && (s.pc.Opening? || s.pc.Check?))
    ensures Fits(DownloadRace.Move(s, fails), run, n, failed)
  {
    hide Followed, Plan;
    match s.pc
    case Check(step) => CheckAlong(step, s.preview, n);
    case _ => FirstStep(s.preview);
  }

  lemma ReportFits(s: Thread, run: seq<Effect>, n: nat)
    requires DownloadRace.Invariant(s) && s.pc.Report? && s.caller.None? && Fits(s, run, n, [])
    ensures var e := Did(Show(s.pc.step), Good); var t := DownloadRace.Move(s, false);
            && Fits(t, run + [e], n + 1, [])
            && (t.pc.Work? ==> Comes(FirstOf(s.pc.step), s.preview, n + 1))
  {
    hide Followed, Plan;
    ReportAlong(s.pc.step, s.preview, n);
    Grow(run, s.preview, n, Good);
  }

  lemma WorkFits(s: Thread, run: seq<Effect>, n: nat, outcome: Outcome)
    requires s.pc.Work? && Fits(s, run, n, [])
    ensures var op := Plan(s.preview)[n]; var e := Did(op, outcome);
            if outcome != Good then Fits(DownloadRace.Move(s, true), run + [e], n, [e])
            else if NextOf(op).Some?
            then Fits(s, run + [e], n + 1, []) && Comes(NextOf(op).value, s.preview, n + 1)
            else Fits(DownloadRace.Move(s, false), run + [e], n + 1, [])
  {
    hide Followed, Plan;
    WorkAlong(s, n);
    Grow(run, s.preview, n, outcome);
  }

  lemma TimeFits(s: Thread, run: seq<Effect>, n: nat, outcome: Outcome)
    requires s.pc.CheckTime? && Fits(s, run, n, [])
    ensures var e := Did(CheckTime, outcome);
            if outcome != Good then Fits(DownloadRace.Move(s, true), run + [e], n, [e])
            else Fits(DownloadRace.Move(s, false), run + [e], n + 1, [])
  {
    hide Followed, Plan;
    Grow(run, s.preview, n, outcome);
    TimeAlong(s.preview, n);
  }

  lemma TimeAlong(preview: bool, n: nat)
    requires Comes(CheckTime, preview, n)
    ensures Comes(Show(DownloadRace.LoadPackage), preview, n + 1)
  {}

  lemma LoadFits(s: Thread, run: seq<Effect>, n: nat, outcome: Outcome)
    requires s.pc.Install? && Fits(s, run, n, [])
    ensures var e := Did(LoadPackage, outcome);
            if outcome != Good then Fits(DownloadRace.Move(s, true), run + [e], n, [e])
            else Fits(DownloadRace.Move(s, false), run + [e], n + 1, [])
  {
    hide Followed, Plan;
    Grow(run, s.preview, n, outcome);
    LoadIsLast(s.preview, n);
  }

  lemma LoadIsLast(preview: bool, n: nat)
    requires Comes(LoadPackage, preview, n)
    ensures n + 1 == |Plan(preview)|
  {}

  lemma AnswerFits(s: Thread, run: seq<Effect>, n: nat, outcome: Outcome)
    requires DownloadRace.Invariant(s) && s.pc.Receive? && Fits(s, run, n, [])
    requires outcome == Good <==> s.queue != [] && s.queue[0] == DownloadRace.Accept
    ensures var e := Did(AskUser, outcome);
            if outcome == Good then Fits(DownloadRace.Move(s, false), run + [e], n + 1, [])
            else Fits(DownloadRace.Move(s, s.queue == []), run + [e], n, [e])
  {
    hide Followed, Plan;
    Grow(run, s.preview, n, outcome);
    ReceiveAlong(s.preview, n);
  }

  lemma FirstStep(preview: bool)
    ensures 0 < |Plan(preview)| && Comes(Show(DownloadRace.ChallengeAndInfo), preview, 0)
  {}

  predicate FirstCancel(all: seq<Ctl>, k: int) {
    0 <= k < |all| && all[k] == DownloadRace.Cancel && DownloadRace.Cancel !in all[..k]
  }

  /** No cancel, decline or timeout is accepted in the run. */
  predicate NoStop(actions: seq<DownloadRace.Action>) {
    forall k | 0 <= k < |actions| && actions[k].Send? :: actions[k].ctl == DownloadRace.Accept
  }

  // ---------------------------------------------------------------- card, server and channel

  /** The download thread with the status record and the channel, the run they have come by, and the
      log of what was asked of card and server since the download began at `start`: `n` operations
      that went well, and `failed`, the one that did not. */
  class World {
    const preview: bool
    var log: seq<Effect>
    var thread: Thread
    ghost var states: seq<Thread>
    ghost var actions: seq<DownloadRace.Action>
    ghost var start: seq<Effect>
    ghost var n: nat
    ghost var failed: seq<Effect>
    /** Whether the server asked for a confirmation code. */
    var wish: bool
    /** The messages waiting at the last drain, with any that arrived meanwhile. */
    ghost var waiting: seq<Ctl>

    /** The thread has come here by a run of the interleaved system, and listens. */
    ghost predicate Traced()
      reads this
    {
      && DownloadRace.Run(states, actions) && states[|actions|] == thread
      && DownloadRace.Invariant(thread) && thread.listening && thread.preview == preview
    }

    ghost function Effects(): seq<Effect>
      reads this`log, this`start
    {
      if start <= log then log[|start|..] else []
    }

    /** The log has come as far as the thread. */
    ghost predicate Valid()
      reads this
    {
      Traced() && start <= log && Fits(thread, Effects(), n, failed)
    }

    /** `op` is what the procedure has come to. */
    ghost predicate Due(op: Op)
      reads this
    {
      Valid() && failed == [] && Comes(op, preview, n)
    }

    /** The card session was opened: the card has authenticated the server. */
    ghost predicate Opened()
      reads this`log, this`start
    {
      Did(AuthenticateServer, Good) in Effects()
    }

    /** The server's wish for a confirmation code was met. */
    ghost predicate Passed()
      reads this`log, this`start
    {
      Did(CheckCode, Good) in Effects()
    }

    /** What failed, if anything did, is not the check of the confirmation code. */
    ghost predicate Elsewhere()
      reads this`failed
    {
      failed != [] && failed[0].Did? ==> failed[0].op != CheckCode
    }

    /** The check of the code goes by the server's wish. */
    ghost predicate CodeChecked(codeGiven: bool)
      reads this`log, this`start, this`failed, this`wish
    {
      && (Passed() ==> codeGiven || !wish)
      && (!Elsewhere() ==> failed == [Did(CheckCode, CodeWanted)] && !codeGiven && wish)
    }

    /** One atomic step of the thread or of a call. */
    method Move(a: DownloadRace.Action)
      requires Traced() && DownloadRace.Enabled(thread, a) && !a.Close? && (a.Next? ==> !thread.pc.Deaf?)
      modifies this`thread, this`states, this`actions
      ensures Traced() && thread == DownloadRace.Act(old(thread), a)
    {
      hide DownloadRace.Invariant, DownloadRace.Enabled;
      DownloadRace.ActKeeps(thread, a);
      StillListening(thread, a);
      Extended(states, actions, a);
      thread := DownloadRace.Act(thread, a);
      states, actions := states + [thread], actions + [a];
    }

    /** Calls act in between. */
    method Others()
      requires Valid()
      modifies this`thread, this`states, this`actions
      ensures Valid() && thread.pc == old(thread.pc) && old(thread.queue) <= thread.queue
    {
      hide Fits, DownloadRace.Invariant, DownloadRace.Run, DownloadRace.Enabled, DownloadRace.Act;
      var rounds: nat := *;
      while rounds > 0
        invariant Valid() && thread.pc == old(thread.pc) && old(thread.queue) <= thread.queue
      {
        var a: DownloadRace.Action := *;
        if (a.Send? || a.Update?) && DownloadRace.Enabled(thread, a) {
          CallsFit(thread, a, Effects(), n, failed);
          Move(a);
        }
        rounds := rounds - 1;
      }
    }

    /** The card channel is open; the procedure begins. */
    method Begin()
      requires Traced() && thread.pc.Opening?
      modifies this`start, this`n, this`failed
      ensures Valid() && start == log && Effects() == [] && failed == []
    {
      hide DownloadRace.Run;
      start, n, failed := log, 0, [];
      FirstStep(preview);
      assert Plan(preview)[..0] == [];
    }

    method Record(op: Op, outcome: Outcome)
      requires start <= log
      modifies this`log, this`n, this`failed
      ensures start <= log && Effects() == old(Effects()) + [Did(op, outcome)]
      ensures if outcome == Good then n == old(n) + 1 && failed == old(failed)
              else n == old(n) && failed == [Did(op, outcome)]
    {
      assert (log + [Did(op, outcome)])[|start|..] == Effects() + [Did(op, outcome)];
      log := log + [Did(op, outcome)];
      if outcome == Good {
        n := n + 1;
      } else {
        failed := [Did(op, outcome)];
      }
    }

    /** Waits until no call holds the lock. */
    method Lock()
      requires Valid()
      modifies this`thread, this`states, this`actions
      ensures Valid() && thread.pc == old(thread.pc) && thread.caller.None?
    {
      hide Fits, DownloadRace.Run, DownloadRace.Invariant;
      Others();
      if thread.caller.Some? {
        CallsFit(thread, DownloadRace.Update, Effects(), n, failed);
        Move(DownloadRace.Update);
      }
    }

    /** Reports a step under the lock. */
    method Progress(step: Step)
      requires Valid() && failed == [] && thread.pc == DownloadRace.Report(step)
      modifies this`log, this`thread, this`states, this`actions, this`n, this`failed
      ensures Valid() && failed == [] && Effects() == old(Effects()) + [Did(Show(step), Good)]
      ensures thread.pc == DownloadRace.AfterReport(step)
      ensures thread.pc.Work? ==> Due(FirstOf(step))
    {
      hide Fits, DownloadRace.Run, DownloadRace.Invariant, Comes;
      Lock();
      ReportFits(thread, Effects(), n);
      Record(Show(step), Good);
      Move(DownloadRace.Next(false));
    }

    /** A card or server call. */
    method Do(op: Op) returns (outcome: Outcome)
      requires Due(op) && thread.pc.Work? && op != CheckCode
      modifies this`log, this`thread, this`states, this`actions, this`n, this`failed
      ensures Valid() && Effects() == old(Effects()) + [Did(op, outcome)]
      ensures outcome in {Good, Unreachable, Malformed, ServerReported}
      ensures if outcome != Good then thread.pc.Stopped? && failed == [Did(op, outcome)]
              else if NextOf(op).Some? then thread.pc == old(thread.pc) && Due(NextOf(op).value)
              else failed == [] && thread.pc == DownloadRace.AfterWork(old(thread), old(thread.pc).step)
    {
      hide Fits, Plan, DownloadRace.Run, DownloadRace.Invariant;
      Others();
      outcome := *;
      if outcome !in {Good, Unreachable, Malformed, ServerReported} {
        outcome := Malformed;
      }
      WorkFits(thread, Effects(), n, outcome);
      Record(op, outcome);
      if outcome != Good {
        Move(DownloadRace.Next(true));
      } else if NextOf(op).None? {
        Move(DownloadRace.Next(false));
      }
    }

    /** The card is asked to load the package. */
    method DoLoad() returns (outcome: Outcome)
      requires Valid() && failed == [] && thread.pc.Install?
      modifies this`log, this`thread, this`states, this`actions, this`n, this`failed
      ensures Valid() && Effects() == old(Effects()) + [Did(LoadPackage, outcome)]
      ensures outcome in {Good, Unreachable, Malformed, ServerReported, CardReported}
      ensures if outcome != Good then thread.pc.Stopped? && failed == [Did(LoadPackage, outcome)]
              else thread.pc.Installed? && failed == []
    {
      hide Fits, DownloadRace.Run, DownloadRace.Invariant;
      Others();
      outcome := *;
      if outcome !in {Good, Unreachable, Malformed, ServerReported, CardReported} {
        outcome := Malformed;
      }
      LoadFits(thread, Effects(), n, outcome);
      Record(LoadPackage, outcome);
      Move(DownloadRace.Next(outcome != Good));
    }

    /** The wait at the preview: the first message, or none by the deadline. */
    method Receive() returns (ctl: Option<Ctl>)
      requires Valid() && failed == [] && thread.pc.Receive?
      modifies this`log, this`thread, this`states, this`actions, this`n, this`failed
      ensures Valid()
      ensures ctl == Some(DownloadRace.Accept) ==>
                && failed == [] && thread.pc == DownloadRace.Report(DownloadRace.PrepareDownload)
                && Effects() == old(Effects()) + [Did(AskUser, Good)]
      ensures ctl != Some(DownloadRace.Accept) ==>
                && failed == [Did(AskUser, Refused(ctl))] && thread.pc.Stopped?
                && Effects() == old(Effects()) + failed
    {
      hide Fits, DownloadRace.Run, DownloadRace.Invariant;
      Others();
      ctl := if thread.queue == [] then None else Some(thread.queue[0]);
      var outcome := if ctl == Some(DownloadRace.Accept) then Good else Refused(ctl);
      AnswerFits(thread, Effects(), n, outcome);
      Record(AskUser, outcome);
      Move(DownloadRace.Next(thread.queue == []));
    }

    /** With the server's answer at hand: whether it wants a confirmation code that was not given. */
    method CodeMissing(codeGiven: bool) returns (missing: bool)
      requires Due(CheckCode) && thread.pc.Work?
      modifies this`log, this`thread, this`states, this`actions, this`n, this`failed, this`wish
      ensures Valid() && (missing <==> wish && !codeGiven)
      ensures Effects() == old(Effects()) + [Did(CheckCode, if missing then CodeWanted else Good)]
      ensures if missing then thread.pc.Stopped? && failed == [Did(CheckCode, CodeWanted)]
              else failed == [] && thread.pc == AfterMetadata(preview)
    {
      hide Fits, Plan, DownloadRace.Run, DownloadRace.Invariant;
      Others();
      wish := *;
      missing := wish && !codeGiven;
      var outcome := if missing then CodeWanted else Good;
      DecidesStep(thread, Effects(), n);
      WorkFits(thread, Effects(), n, outcome);
      Record(CheckCode, outcome);
      Move(DownloadRace.Next(missing));
    }

    /** Whether the time left is too short to install. */
    method NoTime() returns (late: bool)
      requires Valid() && failed == [] && thread.pc.CheckTime?
      modifies this`log, this`thread, this`states, this`actions, this`n, this`failed
      ensures Valid() && Effects() == old(Effects()) + [Did(CheckTime, if late then TooLate else Good)]
      ensures if late then thread.pc.Stopped? && failed == [Did(CheckTime, TooLate)]
              else failed == [] && thread.pc == DownloadRace.Report(DownloadRace.LoadPackage)
    {
      hide Fits, DownloadRace.Run, DownloadRace.Invariant;
      Others();
      late := *;
      var outcome := if late then TooLate else Good;
      TimeFits(thread, Effects(), n, outcome);
      Record(CheckTime, outcome);
      Move(DownloadRace.Next(late));
    }

    /** On to the first step, or not even that. */
    method Enter(stop: bool)
      requires Valid() && failed == [] && thread.pc.Opening?
      modifies this`thread, this`states, this`actions
      ensures Valid()
      ensures thread.pc == if stop then DownloadRace.Stopped else DownloadRace.Report(DownloadRace.ChallengeAndInfo)
    {
      hide Fits, DownloadRace.Run, DownloadRace.Invariant;
      Others();
      PauseFits(thread, stop, Effects(), n, failed);
      Move(DownloadRace.Next(stop));
    }

    /** Takes a message; a cancel stops the thread. */
    method Take() returns (ctl: Ctl)
      requires Valid() && (thread.pc.Stopped? || (thread.pc.Check? && failed == [])) && thread.queue != []
      modifies this`thread, this`states, this`actions
      ensures Valid() && ctl == old(thread.queue)[0] && thread.queue == old(thread.queue)[1..]
      ensures thread.pc == if ctl == DownloadRace.Cancel then DownloadRace.Stopped else old(thread.pc)
    {
      hide Fits, DownloadRace.Run, DownloadRace.Invariant;
      PauseFits(thread, false, Effects(), n, failed);
      ctl := thread.queue[0];
      Move(DownloadRace.Next(false));
    }

    /** The channel is empty after a step. */
    method Emptied()
      requires Valid() && thread.pc.Check? && failed == [] && thread.queue == []
      modifies this`thread, this`states, this`actions
      ensures Valid() && thread.pc == DownloadRace.AfterCheck(old(thread.pc).step) && thread.queue == []
    {
      hide Fits, DownloadRace.Run, DownloadRace.Invariant;
      PauseFits(thread, false, Effects(), n, failed);
      Move(DownloadRace.Next(false));
    }

    /** Drains the channel until a cancel turns up. */
    method Cancelled() returns (yes: bool)
      requires Valid() && (thread.pc.Stopped? || (thread.pc.Check? && failed == []))
      modifies this`thread, this`states, this`actions, this`waiting
      ensures Valid() && old(thread.queue) <= waiting
      ensures yes <==> DownloadRace.Cancel in waiting
      ensures if yes then exists k :: FirstCancel(waiting, k) && thread.queue == waiting[k + 1..]
              else thread.queue == []
      ensures thread.pc == if yes || old(thread.pc).Stopped? then DownloadRace.Stopped
                           else DownloadRace.AfterCheck(old(thread.pc).step)
    {
      hide Fits, DownloadRace.Invariant, DownloadRace.Run;
      Others();
      waiting := thread.queue;
      ghost var k := 0;
      assert waiting[..0] == [];
      var rounds: nat := *;
      while thread.queue != []
        invariant Valid() && thread.pc == old(thread.pc)
        invariant k <= |waiting| && thread.queue == waiting[k..]
        invariant DownloadRace.Cancel !in waiting[..k]
        invariant old(thread.queue) <= waiting
        decreases rounds, |thread.queue|
      {
        var ctl := Take();
        if ctl == DownloadRace.Cancel {
          assert FirstCancel(waiting, k);
          return true;
        }
        assert waiting[..k + 1] == waiting[..k] + [waiting[k]];
        k := k + 1;
        if rounds > 0 {
          ghost var before := thread.queue;
          Others();
          Arrived(waiting, k, thread.queue);
          waiting := waiting + thread.queue[|before|..];
          rounds := rounds - 1;
        }
      }
      assert waiting[..k] == waiting;
      yes := false;
      if thread.pc.Check? {
        Emptied();
      }
    }

    method CallOff(reason: Reason) returns (ok: bool)
      modifies this`log
      ensures log == old(log) + [CancelCard(reason, ok)]
    {
      ok := *;
      log := log + [CancelCard(reason, ok)];
    }

    method TellServer()
      modifies this`log
      ensures log == old(log) + [CancelServer]
    {
      log := log + [CancelServer];
    }
  }

  /** The check of the confirmation code is work of the step that shows the metadata. */
  lemma DecidesStep(s: Thread, run: seq<Effect>, n: nat)
    requires s.pc.Work? && Fits(s, run, n, []) && Comes(CheckCode, s.preview, n)
    ensures s.pc.step == DownloadRace.MetadataParse
  {
    hide Plan;
  }

  lemma Arrived(waiting: seq<Ctl>, k: nat, queue: seq<Ctl>)
    requires k <= |waiting| && waiting[k..] <= queue
    ensures var longer := waiting + queue[|waiting| - k..];
            longer[..k] == waiting[..k] && longer[k..] == queue && waiting <= longer
  {}

  lemma StillListening(s: Thread, a: DownloadRace.Action)
    requires DownloadRace.Enabled(s, a) && !a.Close? && s.listening
    ensures DownloadRace.Act(s, a).listening && DownloadRace.Act(s, a).preview == s.preview
  {}

  lemma Extended(states: seq<Thread>, actions: seq<DownloadRace.Action>, a: DownloadRace.Action)
    requires DownloadRace.Run(states, actions) && DownloadRace.Enabled(states[|actions|], a)
    ensures DownloadRace.Run(states + [DownloadRace.Act(states[|actions|], a)], actions + [a])
  {
    hide DownloadRace.Enabled, DownloadRace.Act;
    var longer, more := states + [DownloadRace.Act(states[|actions|], a)], actions + [a];
    forall i | 0 <= i < |more|
      ensures DownloadRace.Enabled(longer[i], more[i]) && longer[i + 1] == DownloadRace.Act(longer[i], more[i])
    {
      if i < |actions| {
        assert DownloadRace.Enabled(states[i], actions[i]);
      }
    }
  }

  /** The server itself reported the failure. */
  predicate ServerSaid(failed: seq<Effect>) {
    && failed != [] && failed[0].Did? && failed[0].outcome == ServerReported
    && failed[0].op in {InitiateAuthentication, AuthenticateClient, GetPackage}
  }

  /** The reason given to the card when an operation fails: the user's own, a timeout for whatever
      may be tried again, and none once the card has ended the session itself. */
  function ReasonFor(op: Op, outcome: Outcome): Option<Reason> {
    match outcome
    case Refused(Some(Decline)) => Some(EndUserRejection)
    case Refused(Some(Cancel)) => Some(Postponed)
    case Refused(_) => Some(Timeout)
    case CodeWanted => Some(Postponed)
    case TooLate => Some(Timeout)
    case CardReported => None
    case _ =>
      if op == LoadPackage then Some(LoadExecutionError)
      else if op != ParseMetadata && outcome == Unreachable then Some(Timeout)
      else Some(Undefined)
  }

  /** What the procedure says when it stops: the reason that belongs to the failed operation, or that of
      a cancel, which is all that stops an open session otherwise; exactly the failures the server
      reported are not told to it again. */
  predicate Answers(stop: Option<Stop>, failed: seq<Effect>) {
    && (stop.Some? ==> (stop.value.notifyServer <==> !ServerSaid(failed)))
    && (failed != [] ==>
          failed[0].Did? && stop.Some? && stop.value.reason == ReasonFor(failed[0].op, failed[0].outcome))
    && (failed == [] && stop.Some? ==> stop.value.reason in {None, Some(Postponed)})
  }

  lemma CardAnswers(op: Op, outcome: Outcome)
    requires op in {GetChallenge, GetInfo, AuthenticateServer, PrepareDownload}
    requires outcome in {Unreachable, Malformed, ServerReported}
    ensures Answers(Some(CardStop(outcome)), [Did(op, outcome)])
  {}

  lemma ServerAnswers(op: Op, outcome: Outcome)
    requires op in {InitiateAuthentication, AuthenticateClient, GetPackage}
    requires outcome in {Unreachable, Malformed, ServerReported}
    ensures Answers(Some(ServerStop(outcome)), [Did(op, outcome)])
  {}

  lemma StopAnswers(stop: Stop)
    requires stop in {UserStop(DownloadRace.Cancel), Stop(None, true)}
    ensures Answers(Some(stop), []) && Answers(None, [])
  {}

  /** The card's challenge and information. */
  method AskCard(w: World, codeRequired: bool, codeGiven: bool) returns (stop: Option<Stop>)
    requires w.Valid() && w.thread.pc.Opening? && w.failed == [] && w.Effects() == []
    modifies w`log, w`thread, w`states, w`actions, w`waiting, w`n, w`failed
    ensures w.Valid() && Answers(stop, w.failed) && !w.Opened() && !w.Passed() && w.Elsewhere()
    ensures w.Effects() == [] <==> codeRequired && !codeGiven
    ensures codeRequired && !codeGiven ==> stop.Some?
    ensures if stop.None? then w.failed == [] && w.thread.pc == DownloadRace.Report(DownloadRace.InitiateAuthentication)
            else w.thread.pc.Stopped?
    ensures w.failed != [] ==> w.failed[0].outcome != CardReported
  {
    hide World.Valid, World.Effects, Plan, Comes, Answers, CardStop, ServerStop;
    StopAnswers(UserStop(DownloadRace.Cancel));
    if codeRequired && !codeGiven {
      w.Enter(true);
      StopAnswers(Stop(None, true));
      return Some(Stop(None, true));
    }
    w.Enter(false);
    w.Progress(DownloadRace.ChallengeAndInfo);
    var outcome := w.Do(GetChallenge);
    if outcome != Good {
      CardAnswers(GetChallenge, outcome);
      return Some(CardStop(outcome));
    }
    outcome := w.Do(GetInfo);
    if outcome != Good {
      CardAnswers(GetInfo, outcome);
      return Some(CardStop(outcome));
    }
    var cancelled := w.Cancelled();
    if cancelled {
      return Some(UserStop(DownloadRace.Cancel));
    }
    stop := None;
  }

  /** The server begins the authentication. */
  method Initiate(w: World) returns (stop: Option<Stop>)
    requires w.Valid() && w.failed == [] && !w.Opened() && !w.Passed()
    requires w.thread.pc == DownloadRace.Report(DownloadRace.InitiateAuthentication)
    modifies w`log, w`thread, w`states, w`actions, w`waiting, w`n, w`failed
    ensures w.Valid() && Answers(stop, w.failed) && !w.Opened() && !w.Passed() && w.Elsewhere()
    ensures old(w.Effects()) <= w.Effects()
    ensures if stop.None? then w.failed == [] && w.thread.pc == DownloadRace.Report(DownloadRace.AuthenticateServer)
            else w.thread.pc.Stopped?
    ensures w.failed != [] ==> w.failed[0].outcome != CardReported
  {
    hide World.Valid, World.Effects, Plan, Comes, Answers, CardStop, ServerStop;
    StopAnswers(UserStop(DownloadRace.Cancel));
    w.Progress(DownloadRace.InitiateAuthentication);
    var outcome := w.Do(InitiateAuthentication);
    if outcome != Good {
      ServerAnswers(InitiateAuthentication, outcome);
      return Some(ServerStop(outcome));
    }
    var cancelled := w.Cancelled();
    if cancelled {
      return Some(UserStop(DownloadRace.Cancel));
    }
    stop := None;
  }

  /** From there to the opening of the card session. */
  method OpenSession(w: World) returns (stop: Option<Stop>)
    requires w.Valid() && w.failed == [] && !w.Opened() && !w.Passed()
    requires w.thread.pc == DownloadRace.Report(DownloadRace.InitiateAuthentication)
    modifies w`log, w`thread, w`states, w`actions, w`waiting, w`n, w`failed
    ensures w.Valid() && Answers(stop, w.failed) && (w.Opened() <==> stop.None?) && !w.Passed() && w.Elsewhere()
    ensures old(w.Effects()) <= w.Effects()
    ensures if stop.None? then w.failed == [] && w.thread.pc == DownloadRace.Check(DownloadRace.AuthenticateServer)
            else w.thread.pc.Stopped?
    ensures w.failed != [] ==> w.failed[0].outcome != CardReported
  {
    hide World.Valid, World.Effects, Plan, Comes, Answers, CardStop, ServerStop;
    StopAnswers(UserStop(DownloadRace.Cancel));
    stop := Initiate(w);
    if stop.Some? {
      return;
    }
    w.Progress(DownloadRace.AuthenticateServer);
    var outcome := w.Do(AuthenticateServer);
    if outcome != Good {
      CardAnswers(AuthenticateServer, outcome);
      return Some(CardStop(outcome));
    }
    stop := None;
  }

  /** The server's answer to the card, with the profile's metadata. */
  method FetchMetadata(w: World) returns (stop: Option<Stop>)
    requires w.Valid() && w.failed == [] && w.Opened() && !w.Passed()
    requires w.thread.pc == DownloadRace.Report(DownloadRace.AuthenticateClient)
    modifies w`log, w`thread, w`states, w`actions, w`waiting, w`n, w`failed
    ensures w.Valid() && Answers(stop, w.failed) && w.Opened() && !w.Passed() && w.Elsewhere()
    ensures if stop.None? then w.failed == [] && w.thread.pc == DownloadRace.Report(DownloadRace.MetadataParse)
            else stop.value.reason.Some? && w.thread.pc.Stopped?
    ensures w.failed != [] ==> w.failed[0].outcome != CardReported
  {
    hide World.Valid, World.Effects, Plan, Comes;
    w.Progress(DownloadRace.AuthenticateClient);
    var outcome := w.Do(AuthenticateClient);
    if outcome != Good {
      return Some(ServerStop(outcome));
    }
    outcome := w.Do(ParseMetadata);
    if outcome != Good {
      return Some(Stop(Some(Undefined), true));
    }
    stop := None;
  }

  /** From the open session to the profile's metadata. */
  method Authenticate(w: World, codeGiven: bool) returns (stop: Option<Stop>)
    requires w.Valid() && w.failed == [] && w.Opened() && !w.Passed()
    requires w.thread.pc == DownloadRace.Check(DownloadRace.AuthenticateServer)
    modifies w`log, w`thread, w`states, w`actions, w`waiting, w`n, w`failed, w`wish
    ensures w.Valid() && Answers(stop, w.failed) && w.Opened()
    ensures w.CodeChecked(codeGiven) && (stop.None? ==> w.Passed())
    ensures if stop.None? then w.failed == [] && w.thread.pc == AfterMetadata(w.preview)
            else stop.value.reason.Some? && w.thread.pc.Stopped?
    ensures w.failed != [] ==> w.failed[0].outcome != CardReported
  {
    hide World.Valid, World.Effects, Plan, Comes;
    var cancelled := w.Cancelled();
    if cancelled {
      return Some(UserStop(DownloadRace.Cancel));
    }

    stop := FetchMetadata(w);
    if stop.Some? {
      return;
    }
    w.Progress(DownloadRace.MetadataParse);
    var missing := w.CodeMissing(codeGiven);
    if missing {
      return Some(Stop(Some(Postponed), true));
    }
    stop := None;
  }

  /** From the open session to the user's agreement. */
  method Agree(w: World, codeGiven: bool) returns (stop: Option<Stop>)
    requires w.Valid() && w.failed == [] && w.Opened() && !w.Passed()
    requires w.thread.pc == DownloadRace.Check(DownloadRace.AuthenticateServer)
    modifies w`log, w`thread, w`states, w`actions, w`waiting, w`n, w`failed, w`wish
    ensures w.Valid() && Answers(stop, w.failed) && w.Opened()
    ensures w.CodeChecked(codeGiven) && (stop.None? ==> w.Passed())
    ensures if stop.None? then w.failed == [] && w.thread.pc == DownloadRace.Report(DownloadRace.PrepareDownload)
            else stop.value.reason.Some? && w.thread.pc.Stopped?
    ensures w.failed != [] ==> w.failed[0].outcome != CardReported
  {
    hide World.Valid, World.Effects, Plan, Comes;
    stop := Authenticate(w, codeGiven);
    if stop.Some? {
      return;
    }
    if w.preview {
      w.Progress(DownloadRace.Preview);
      var decision := w.Receive();
      if decision != Some(DownloadRace.Accept) {
        return Some(UserStop(decision.GetOr(DownloadRace.PreviewTimeout)));
      }
    } else {
      var cancelled := w.Cancelled();
      if cancelled {
        return Some(UserStop(DownloadRace.Cancel));
      }
    }
    stop := None;
  }

  /** The package, with time left to install it. */
  method Fetch(w: World) returns (stop: Option<Stop>)
    requires w.Valid() && w.failed == [] && w.Opened() && w.Passed()
    requires w.thread.pc == DownloadRace.Report(DownloadRace.GetPackage)
    modifies w`log, w`thread, w`states, w`actions, w`waiting, w`n, w`failed
    ensures w.Valid() && Answers(stop, w.failed) && w.Opened() && w.Passed() && w.Elsewhere()
    ensures if stop.None? then w.failed == [] && w.thread.pc == DownloadRace.Report(DownloadRace.LoadPackage)
            else stop.value.reason.Some? && w.thread.pc.Stopped?
    ensures w.failed != [] ==> w.failed[0].outcome != CardReported
  {
    hide World.Valid, World.Effects, Plan, Comes;
    w.Progress(DownloadRace.GetPackage);
    var outcome := w.Do(GetPackage);
    if outcome != Good {
      return Some(ServerStop(outcome));
    }
    var cancelled := w.Cancelled();
    if cancelled {
      return Some(UserStop(DownloadRace.Cancel));
    }
    var late := w.NoTime();
    if late {
      return Some(Stop(Some(Timeout), true));
    }
    stop := None;
  }

  /** From the agreement to the end of the installation. */
  method Install(w: World) returns (stop: Option<Stop>)
    requires w.Valid() && w.failed == [] && w.Opened() && w.Passed()
    requires w.thread.pc == DownloadRace.Report(DownloadRace.PrepareDownload)
    modifies w`log, w`thread, w`states, w`actions, w`waiting, w`n, w`failed
    ensures w.Valid() && Answers(stop, w.failed) && w.Opened() && w.Passed() && w.Elsewhere()
    ensures w.thread.pc == if stop.None? then DownloadRace.Installed else DownloadRace.Stopped
    ensures stop.None? ==> w.failed == []
    ensures stop.Some? ==>
              (stop.value.reason.None? <==> w.failed != [] && w.failed[0].outcome == CardReported)
  {
    hide World.Valid, World.Effects, Plan, Comes;
    w.Progress(DownloadRace.PrepareDownload);
    var outcome := w.Do(PrepareDownload);
    if outcome != Good {
      return Some(CardStop(outcome));
    }
    var cancelled := w.Cancelled();
    if cancelled {
      return Some(UserStop(DownloadRace.Cancel));
    }

    stop := Fetch(w);
    if stop.Some? {
      return;
    }
    stop := Load(w);
  }

  /** The last step: a cancel sent before the load step was shown still stops it. */
  method Load(w: World) returns (stop: Option<Stop>)
    requires w.Valid() && w.failed == [] && w.Opened() && w.Passed()
    requires w.thread.pc == DownloadRace.Report(DownloadRace.LoadPackage)
    modifies w`log, w`thread, w`states, w`actions, w`waiting, w`n, w`failed
    ensures w.Valid() && Answers(stop, w.failed) && w.Opened() && w.Passed() && w.Elsewhere()
    ensures w.thread.pc == if stop.None? then DownloadRace.Installed else DownloadRace.Stopped
    ensures stop.None? ==> w.failed == []
    ensures stop.Some? ==>
              (stop.value.reason.None? <==> w.failed != [] && w.failed[0].outcome == CardReported)
    ensures stop.None? || w.failed != [] ==> DownloadRace.Cancel !in w.waiting
  {
    hide World.Valid, World.Effects, Plan, Comes;
    w.Progress(DownloadRace.LoadPackage);
    var cancelled := w.Cancelled();
    if cancelled {
      return Some(UserStop(DownloadRace.Cancel));
    }
    var outcome := w.DoLoad();
    if outcome.CardReported? {
      return Some(Stop(None, true));
    }
    if outcome != Good {
      return Some(Stop(Some(LoadExecutionError), true));
    }
    stop := None;
  }

  /** The download's steps, up to its end or the first thing that stops it; `session` says whether
      a card session is left to cancel. */
  method Steps(w: World, codeRequired: bool, codeGiven: bool)
    returns (stop: Option<Stop>, session: bool)
    requires w.Valid() && w.thread.pc.Opening? && w.failed == [] && w.Effects() == []
    modifies w`log, w`thread, w`states, w`actions, w`waiting, w`n, w`failed, w`wish
    ensures w.Valid() && Answers(stop, w.failed) && w.CodeChecked(codeGiven)
    ensures w.Effects() == [] <==> codeRequired && !codeGiven
    ensures w.thread.pc == if stop.None? then DownloadRace.Installed else DownloadRace.Stopped
    ensures session <==> w.Opened() && (w.failed != [] ==> w.failed[0].outcome != CardReported)
    ensures session && stop.Some? ==> stop.value.reason.Some?
  {
    hide World.Valid, World.Effects, Answers, Plan, Comes;
    session := false;
    stop := AskCard(w, codeRequired, codeGiven);
    if stop.Some? {
      return;
    }
    stop := OpenSession(w);
    if stop.Some? {
      return;
    }
    session := true;
    stop := Agree(w, codeGiven);
    if stop.Some? {
      return;
    }
    stop := Install(w);
    if stop.Some? && stop.value.reason.None? {
      session := false;
    }
  }

  /** What the clean-up did: at most one cancel on the card, and the server only after it worked. */
  predicate CleanUp(effects: seq<Effect>) {
    || effects == []
    || (|effects| == 1 && effects[0].CancelCard?)
    || (|effects| == 2 && effects[0].CancelCard? && effects[0].ok && effects[1].CancelServer?)
  }

  /** The package was loaded or its load was tried: then no stop was ever accepted, and the user's
      acceptance was if it was asked for. */
  lemma LoadedUnstopped(states: seq<Thread>, actions: seq<DownloadRace.Action>)
    requires DownloadRace.Run(states, actions) && states[|actions|].loaded
    ensures NoStop(actions)
    ensures states[|actions|].preview ==> DownloadRace.Accept in states[|actions|].sent
  {
    DownloadRace.InvariantHolds(states, actions, |actions|);
    forall k | 0 <= k < |actions| && actions[k].Send?
      ensures actions[k].ctl == DownloadRace.Accept
    {
      if actions[k].ctl != DownloadRace.Accept {
        DownloadRace.AcceptedStopBeatsInstall(states, actions, k, |actions|);
      }
    }
  }

  lemma DoneInPlan(run: seq<Effect>, preview: bool, n: nat, failed: seq<Effect>, op: Op)
    requires Followed(run, preview, n, failed)
    ensures Did(op, Good) in run <==> op in Plan(preview)[..n]
  {
    hide Plan;
    var ops := Plan(preview)[..n];
    assert forall i | 0 <= i < n :: AllGood(ops)[i] == Did(ops[i], Good);
    if op in ops {
      var i :| 0 <= i < n && ops[i] == op;
      assert run[i] == Did(op, Good);
    }
  }

  lemma NothingDone(run: seq<Effect>, preview: bool, n: nat, failed: seq<Effect>)
    requires Followed(run, preview, n, failed)
    ensures run == [] <==> n == 0 && failed == []
  {}

  /** After a stop: a card session that is left is cancelled, a late cancel postponing it, and the
      server told where that is due. */
  method TidyUp(w: World, stop: Stop, session: bool) returns (ghost cleanup: seq<Effect>)
    requires w.Valid() && w.thread.pc.Stopped? && Answers(Some(stop), w.failed)
    modifies w`log, w`thread, w`states, w`actions, w`waiting
    ensures w.Traced() && w.thread.pc.Stopped? && w.thread.loaded == old(w.thread.loaded)
    ensures w.log == old(w.log) + cleanup && CleanUp(cleanup)
    ensures cleanup != [] <==> session && stop.reason.Some?
    ensures cleanup != [] ==>
              && Some(cleanup[0].reason) == (if w.failed == [] || DownloadRace.Cancel in w.waiting then Some(Postponed)
                                             else ReasonFor(w.failed[0].op, w.failed[0].outcome))
              && (|cleanup| == 2 <==> cleanup[0].ok && (DownloadRace.Cancel in w.waiting || !ServerSaid(w.failed)))
  {
    hide Followed, DownloadRace.Invariant, DownloadRace.Run, Plan, Comes, At, ServerSaid;
    cleanup := [];
    var why := stop;
    if why.reason.Some? {
      var cancelled := w.Cancelled();
      if cancelled {
        why := UserStop(DownloadRace.Cancel);
      }
    }
    if session && why.reason.Some? {
      var done := w.CallOff(why.reason.value);
      cleanup := [CancelCard(why.reason.value, done)];
      if done && why.notifyServer {
        w.TellServer();
        cleanup := cleanup + [CancelServer];
      }
    }
  }

  /** One download. Its log is its operations, each in order and each but the last going well, then
      `cleanup`: the card session is cancelled exactly once if and only if it was opened and the
      download fails other than by an installation error the card reported; the server is told
      exactly if the card cancel worked and the failure is not one it reported itself, unless a cancel
      was waiting when it happened. It succeeds exactly when every operation was done. The thread has
      moved as in `DownloadRace`, so the card is asked to load only if no stop was ever accepted. */
  method Download(w: World, codeRequired: bool, codeGiven: bool) returns (ok: bool, ghost cleanup: seq<Effect>)
    requires w.Traced() && w.thread.pc.Opening?
    modifies w
    ensures w.n <= |Plan(w.preview)| && w.log == old(w.log) + AllGood(Plan(w.preview)[..w.n]) + w.failed + cleanup
    ensures w.failed == []
            || (w.n < |Plan(w.preview)| && |w.failed| == 1 && w.failed[0].Did? && w.failed[0].op == Plan(w.preview)[w.n]
                && w.failed[0].outcome != Good)
    ensures ok <==> w.n == |Plan(w.preview)|
    ensures CleanUp(cleanup)
    ensures cleanup != [] <==> && !ok && AuthenticateServer in Plan(w.preview)[..w.n]
                               && (w.failed != [] ==> w.failed[0].outcome != CardReported)
    // A cancel that stops the download or still waits when a step fails postpones the session; every
    // other failure gives the reason that belongs to it.
    ensures cleanup != [] ==>
              Some(cleanup[0].reason) == if w.failed == [] || DownloadRace.Cancel in w.waiting then Some(Postponed)
                                         else ReasonFor(w.failed[0].op, w.failed[0].outcome)
    ensures cleanup != [] ==>
              (|cleanup| == 2 <==> cleanup[0].ok && (DownloadRace.Cancel in w.waiting || !ServerSaid(w.failed)))
    // Without a code that is required nothing is asked of anyone; without one that the server turns out
    // to want, the download ends right after the metadata is shown.
    ensures w.n == 0 && w.failed == [] <==> codeRequired && !codeGiven
    ensures codeRequired && !codeGiven ==> !ok && cleanup == []
    ensures CheckCode in Plan(w.preview)[..w.n] ==> codeGiven || !w.wish
    ensures w.failed != [] && w.failed[0].op == CheckCode ==>
              w.failed[0].outcome == CodeWanted && !codeGiven && w.wish
    ensures w.Traced() && w.thread.pc == if ok then DownloadRace.Installed else DownloadRace.Stopped
    ensures ok || (w.failed != [] && w.failed[0].op == LoadPackage) ==>
              NoStop(w.actions) && (w.preview ==> DownloadRace.Accept in w.thread.sent)
  {
    hide World.Valid, World.Traced, World.Effects, World.Opened, World.Passed, Plan, AllGood, NoStop, ServerSaid;
    hide CleanUp, ReasonFor, Answers;
    w.Begin();
    var stop, session := Steps(w, codeRequired, codeGiven);
    InPlan(w);
    FirstStep(w.preview);
    cleanup := [];
    ok := stop.None?;
    if stop.Some? {
      cleanup := TidyUp(w, stop.value, session);
    } else {
      NothingToTidy();
    }
    if w.thread.loaded {
      NeverStopped(w);
    }
  }

  /** What the log says in terms of the plan. */
  lemma InPlan(w: World)
    requires w.Valid()
    ensures w.Traced() && w.n <= |Plan(w.preview)| && w.log == w.start + AllGood(Plan(w.preview)[..w.n]) + w.failed
    ensures w.failed == []
            || (w.n < |Plan(w.preview)| && |w.failed| == 1 && w.failed[0].Did? && w.failed[0].op == Plan(w.preview)[w.n]
                && w.failed[0].outcome != Good)
    ensures w.Opened() <==> AuthenticateServer in Plan(w.preview)[..w.n]
    ensures w.Passed() <==> CheckCode in Plan(w.preview)[..w.n]
    ensures w.Effects() == [] <==> w.n == 0 && w.failed == []
    ensures w.thread.loaded <==> w.thread.pc.Installed? || (w.failed != [] && w.failed[0].op == LoadPackage)
    ensures w.thread.pc.Installed? ==> w.n == |Plan(w.preview)|
    ensures w.thread.pc.Stopped? ==> w.n < |Plan(w.preview)|
  {
    hide DownloadRace.Invariant, DownloadRace.Run, Plan, AllGood;
    DoneInPlan(w.Effects(), w.preview, w.n, w.failed, AuthenticateServer);
    DoneInPlan(w.Effects(), w.preview, w.n, w.failed, CheckCode);
    NothingDone(w.Effects(), w.preview, w.n, w.failed);
    assert w.log == w.start + w.Effects();
  }

  lemma NeverStopped(w: World)
    requires w.Traced() && w.thread.loaded
    ensures NoStop(w.actions) && (w.preview ==> DownloadRace.Accept in w.thread.sent)
  {
    LoadedUnstopped(w.states, w.actions);
  }

  lemma NothingToTidy()
    ensures CleanUp([])
  {}
}
