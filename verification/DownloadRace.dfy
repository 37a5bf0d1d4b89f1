/** A profile download on its own thread, raced by confirm, cancel and preview-timeout calls
    (zte-agent/src/esim.rs and zte-agent/src/esim_download.rs). They share a status record under a
    lock and a control channel. A call sends on the channel while it holds the lock, then updates
    the record; the download thread reads the channel without the lock. */
module DownloadRace {
  import opened Wrappers

  datatype Ctl = Accept | Decline | Cancel | PreviewTimeout

  /** lpac's step names; the two session-cancelling steps are not recorded. */
  datatype Step =
    | Starting
    | ChallengeAndInfo
    | InitiateAuthentication
    | AuthenticateServer
    | AuthenticateClient
    | MetadataParse
    | Preview
    | PrepareDownload
    | GetPackage
    | LoadPackage

  datatype Phase = Running | Confirm | Cancelling | Finished(ok: bool)

  datatype Status = Status(phase: Phase, step: Step)

  function AfterProgress(d: Status, step: Step): Status {
    Status(if step == Preview && d.phase == Running then Confirm else d.phase, step)
  }

  /** Whether a call may hand `ctl` to the download, by the status record alone. */
  predicate Admits(d: Status, ctl: Ctl) {
    match ctl
    case Accept | Decline | PreviewTimeout => d.phase == Confirm
    case Cancel => !(d.phase == Running && d.step == LoadPackage) && (d.phase == Confirm || d.phase == Running)
  }

  function AfterSend(d: Status, ctl: Ctl): Status {
    d.(phase := if ctl == Accept then Running else Cancelling)
  }

  /** The status record and the channel's sending end, as the calls use them under the lock. */
  class Download {
    var phase: Phase
    var step: Step
    var listening: bool
    var queue: seq<Ctl>

    ghost function Value(): Status
      reads this
    {
      Status(phase, step)
    }

    method Progress(next: Step)
      modifies this`phase, this`step
      ensures Value() == AfterProgress(old(Value()), next)
    {
      step := next;
      if next == Preview && phase == Running {
        phase := Confirm;
      }
    }

    method Send(ctl: Ctl) returns (sent: bool)
      modifies this`queue
      ensures sent == listening
      ensures queue == if sent then old(queue) + [ctl] else old(queue)
    {
      if listening {
        queue := queue + [ctl];
      }
      sent := listening;
    }

    method Answer(accept: bool) returns (ok: bool)
      modifies this`phase, this`queue
      ensures var ctl := if accept then Accept else Decline;
              && ok == (Admits(old(Value()), ctl) && listening)
              && Value() == (if ok then AfterSend(old(Value()), ctl) else old(Value()))
              && queue == (if ok then old(queue) + [ctl] else old(queue))
    {
      if phase != Confirm {
        return false;
      }
      ok := Send(if accept then Accept else Decline);
      if !ok {
        return;
      }
      phase := if accept then Running else Cancelling;
    }

    method CancelDownload() returns (ok: bool)
      modifies this`phase, this`queue
      ensures ok == (Admits(old(Value()), Cancel) && listening)
      ensures Value() == if ok then AfterSend(old(Value()), Cancel) else old(Value())
      ensures queue == if ok then old(queue) + [Cancel] else old(queue)
    {
      if phase == Running && step == LoadPackage {
        return false;
      }
      if phase != Confirm && phase != Running {
        return false;
      }
      ok := Send(Cancel);
      if ok {
        phase := Cancelling;
      }
    }

    method PreviewExpired() returns (ok: bool)
      modifies this`phase, this`queue
      ensures ok == (Admits(old(Value()), PreviewTimeout) && listening)
      ensures Value() == if ok then AfterSend(old(Value()), PreviewTimeout) else old(Value())
      ensures queue == if ok then old(queue) + [PreviewTimeout] else old(queue)
    {
      ok := false;
      if phase == Confirm {
        ok := Send(PreviewTimeout);
        if ok {
          phase := Cancelling;
        }
      }
    }
  }

  // ---------------------------------------------------------------- the interleaved system

  /** Where the download thread stands: not listening yet, opening the card, about to report a step,
      doing that step's card or server calls, draining the channel after it, seeing whether time is
      left to install, waiting for the user's answer, about to install, done installing, or past a
      failure and cleaning up. */
  datatype Pc =
    | Deaf
    | Opening
    | Report(step: Step)
    | Work(step: Step)
    | Check(step: Step)
    | CheckTime
    | Receive
    | Install
    | Installed
    | Stopped

  datatype State = State(
    preview: bool,
    pc: Pc,
    status: Status,
    /** A call that has sent and not yet updated the record; it holds the lock. */
    caller: Option<Ctl>,
    listening: bool,
    queue: seq<Ctl>,
    sent: seq<Ctl>,
    loaded: bool)

  /** The record already says running when the thread has not created the channel. */
  function Initial(preview: bool): State {
    State(preview, Deaf, Status(Running, Starting), None, false, [], [], false)
  }

  /** `Send` and `Update` are the two halves of an accepted call; `Next` is the thread's next move,
      failing or not; `Finish` ends the thread: the channel closes, then the result is recorded. */
  datatype Action = Send(ctl: Ctl) | Update | Next(fails: bool) | Close | Finish

  predicate Enabled(s: State, a: Action) {
    match a
    case Send(ctl) => s.caller.None? && s.listening && Admits(s.status, ctl)
    case Update => s.caller.Some?
    case Next(fails) =>
      && !s.pc.Installed?
      && (s.pc.Report? ==> s.caller.None? && !fails)
      && (s.pc.Receive? ==> s.queue != [] || fails)
      && (s.pc.Check? ==> !fails)
      && (s.pc.Stopped? ==> s.queue != [] && !fails)
    case Close => (s.pc.Installed? || s.pc.Stopped?) && s.listening
    case Finish => s.caller.None? && !Live(s.pc) && !s.listening && !s.status.phase.Finished?
  }

  function AfterWork(s: State, step: Step): Pc {
    match step
    case AuthenticateClient => Report(MetadataParse)
    case MetadataParse => if s.preview then Report(Preview) else Check(MetadataParse)
    case _ => Check(step)
  }

  function AfterReport(step: Step): Pc {
    match step
    case Preview => Receive
    case LoadPackage => Check(LoadPackage)
    case _ => Work(step)
  }

  function AfterCheck(step: Step): Pc {
    match step
    case ChallengeAndInfo => Report(InitiateAuthentication)
    case InitiateAuthentication => Report(AuthenticateServer)
    case AuthenticateServer => Report(AuthenticateClient)
    case MetadataParse => Report(PrepareDownload)
    case PrepareDownload => Report(GetPackage)
    case GetPackage => CheckTime
    case _ => Install
  }

  function Move(s: State, fails: bool): State
    requires Enabled(s, Next(fails))
  {
    match s.pc
    case Deaf => if fails then s.(pc := Stopped) else s.(pc := Opening, listening := true)
    case Opening => s.(pc := if fails then Stopped else Report(ChallengeAndInfo))
    case Report(step) => s.(status := AfterProgress(s.status, step), pc := AfterReport(step))
    case Work(step) => s.(pc := if fails then Stopped else AfterWork(s, step))
    case Check(step) =>
      if s.queue == [] then s.(pc := AfterCheck(step))
      else s.(queue := s.queue[1..], pc := if s.queue[0] == Cancel then Stopped else s.pc)
    case CheckTime => s.(pc := if fails then Stopped else Report(LoadPackage))
    case Receive =>
      if s.queue == [] then s.(pc := Stopped)
      else s.(queue := s.queue[1..], pc := if s.queue[0] == Accept then Report(PrepareDownload) else Stopped)
    case Install => s.(loaded := true, pc := if fails then Stopped else Installed)
    // The clean-up looks for a cancel that came meanwhile.
    case Stopped => s.(queue := s.queue[1..])
    case _ => s
  }

  function Act(s: State, a: Action): State
    requires Enabled(s, a)
  {
    match a
    case Send(ctl) => s.(queue := s.queue + [ctl], caller := Some(ctl), sent := s.sent + [ctl])
    case Update => s.(status := AfterSend(s.status, s.caller.value), caller := None)
    case Next(fails) => Move(s, fails)
    case Close => s.(listening := false)
    case Finish => s.(status := s.status.(phase := Finished(s.pc.Installed?)))
  }

  ghost predicate Run(states: seq<State>, actions: seq<Action>) {
    && |states| == |actions| + 1
    && states[0] == Initial(states[0].preview)
    && forall i | 0 <= i < |actions| :: Enabled(states[i], actions[i]) && states[i + 1] == Act(states[i], actions[i])
  }

  // ---------------------------------------------------------------- the invariant

  /** A cancel, decline or timeout has been accepted. */
  predicate StopSent(s: State) {
    Decline in s.sent || Cancel in s.sent || PreviewTimeout in s.sent
  }

  predicate Live(pc: Pc) {
    !pc.Stopped? && !pc.Installed?
  }

  /** The step is only ever the install once the thread has shown it. */
  predicate PcOk(s: State) {
    match s.pc
    case Deaf => s.status == Status(Running, Starting) && s.queue == [] && s.sent == []
    case Opening => s.status.step == Starting
    case Report(step) => s.status.step != LoadPackage && step != Starting && (step == Preview ==> s.preview)
    case Work(step) => s.status.step == step && step !in {Starting, Preview, LoadPackage}
    case Check(step) =>
      && s.status.step == step && step !in {Starting, AuthenticateClient, Preview}
      && (step == MetadataParse ==> !s.preview)
    case CheckTime => s.status.step == GetPackage
    case Receive => s.preview && s.status.step == Preview
    case Install => s.status.step == LoadPackage
    case Installed => s.status.step == LoadPackage
    case Stopped => true
  }

  /** What lies in the channel while the thread can still reach the install. */
  predicate ChannelOk(s: State) {
    match s.caller
    case None =>
      (match s.status.phase
       case Running => s.queue == [] || (s.pc == Receive && s.queue == [Accept])
       case Confirm => s.pc == Receive && s.queue == []
       case Cancelling =>
         || s.queue == [Cancel]
         || (s.pc == Receive && (s.queue == [Decline] || s.queue == [PreviewTimeout] || s.queue == [Accept, Cancel]))
       case Finished(_) => false)
    case Some(Accept) =>
      && s.status.phase == Confirm
      && ((s.pc == Receive && s.queue == [Accept]) || (s.pc == Report(PrepareDownload) && s.queue == []))
    case Some(Cancel) =>
      || (s.status.phase == Confirm && s.pc == Receive && s.queue == [Cancel])
      || (s.status.phase == Running && s.queue == [Cancel])
      || (s.status.phase == Running && s.pc == Receive && s.queue == [Accept, Cancel])
    case Some(ctl) => s.status.phase == Confirm && s.pc == Receive && s.queue == [ctl]
  }

  predicate Past(pc: Pc) {
    || pc.Install? || pc.Installed? || pc.CheckTime?
    || ((pc.Report? || pc.Work? || pc.Check?) && pc.step in {PrepareDownload, GetPackage, LoadPackage})
  }

  predicate Invariant(s: State) {
    && PcOk(s)
    && (Live(s.pc) ==>
          && s.listening == !s.pc.Deaf? && ChannelOk(s)
          && (StopSent(s) <==> s.status.phase == Cancelling || (s.caller.Some? && s.caller.value != Accept)))
    && (s.caller.Some? ==> s.sent != [])
    && (s.status.step == LoadPackage ==> s.caller.None? && s.status.phase != Confirm)
    && (s.loaded ==>
          && s.status.step == LoadPackage && !StopSent(s) && !Live(s.pc)
          && (s.status.phase == Running || s.status.phase.Finished?))
    && (s.pc.Install? ==> s.status.phase == Running && !StopSent(s))
    && (s.pc.Installed? ==> s.loaded)
    && (s.status.phase.Finished? ==> !Live(s.pc) && !s.listening && s.status.phase.ok == s.pc.Installed?)
    && (s.preview && Past(s.pc) ==> Accept in s.sent)
    && (Accept in s.queue ==> Accept in s.sent)
    && (s.preview && s.loaded ==> Accept in s.sent)
  }

  lemma SendKeeps(s: State, ctl: Ctl)
    requires Invariant(s) && Enabled(s, Send(ctl))
    ensures Invariant(Act(s, Send(ctl)))
  {
    if ctl == Accept {
      AcceptKeeps(s);
    } else {
      StopKeeps(s, ctl);
    }
  }

  lemma AcceptKeeps(s: State)
    requires Invariant(s) && Enabled(s, Send(Accept))
    ensures Invariant(Act(s, Send(Accept)))
  {}

  lemma StopKeeps(s: State, ctl: Ctl)
    requires Invariant(s) && Enabled(s, Send(ctl)) && ctl != Accept
    ensures Invariant(Act(s, Send(ctl)))
  {}

  lemma UpdateKeeps(s: State)
    requires Invariant(s) && Enabled(s, Update)
    ensures Invariant(Act(s, Update))
  {}

  lemma OpeningKeeps(s: State, fails: bool)
    requires Invariant(s) && Enabled(s, Next(fails)) && (s.pc.Deaf? || s.pc.Opening?)
    ensures Invariant(Move(s, fails))
  {}

  lemma ReportKeeps(s: State, fails: bool)
    requires Invariant(s) && Enabled(s, Next(fails)) && s.pc.Report?
    ensures Invariant(Move(s, fails))
  {}

  lemma WorkKeeps(s: State, fails: bool)
    requires Invariant(s) && Enabled(s, Next(fails)) && (s.pc.Work? || s.pc.Install? || s.pc.CheckTime?)
    ensures Invariant(Move(s, fails))
  {}

  lemma CheckKeeps(s: State, fails: bool)
    requires Invariant(s) && Enabled(s, Next(fails)) && s.pc.Check?
    ensures Invariant(Move(s, fails))
  {}

  lemma ReceiveKeeps(s: State, fails: bool)
    requires Invariant(s) && Enabled(s, Next(fails)) && s.pc.Receive?
    ensures Invariant(Move(s, fails))
  {}

  lemma StoppedKeeps(s: State)
    requires Invariant(s) && Enabled(s, Next(false)) && s.pc.Stopped?
    ensures Invariant(Move(s, false))
  {}

  lemma MoveKeeps(s: State, fails: bool)
    requires Invariant(s) && Enabled(s, Next(fails))
    ensures Invariant(Act(s, Next(fails)))
  {
    hide Invariant, Move;
    match s.pc
    case Deaf | Opening => OpeningKeeps(s, fails);
    case Report(_) => ReportKeeps(s, fails);
    case Work(_) | Install | CheckTime => WorkKeeps(s, fails);
    case Check(_) => CheckKeeps(s, fails);
    case Receive => ReceiveKeeps(s, fails);
    case Stopped => StoppedKeeps(s);
  }

  lemma ActKeeps(s: State, a: Action)
    requires Invariant(s) && Enabled(s, a)
    ensures Invariant(Act(s, a))
  {
    match a
    case Send(ctl) => SendKeeps(s, ctl);
    case Update => UpdateKeeps(s);
    case Next(fails) => MoveKeeps(s, fails);
    case _ =>
  }

  lemma {:induction false} InvariantHolds(states: seq<State>, actions: seq<Action>, i: nat)
    requires Run(states, actions) && i < |states|
    ensures Invariant(states[i])
  {
    if i > 0 {
      InvariantHolds(states, actions, i - 1);
      ActKeeps(states[i - 1], actions[i - 1]);
    }
  }

  // ---------------------------------------------------------------- main results

  lemma {:induction false} SentGrows(states: seq<State>, actions: seq<Action>, i: nat, j: nat)
    requires Run(states, actions) && i <= j < |states|
    ensures states[i].sent <= states[j].sent
    ensures states[i].loaded ==> states[j].loaded
    ensures states[i].preview == states[j].preview
    decreases j
  {
    hide Enabled, Act;
    if i < j {
      SentGrows(states, actions, i, j - 1);
      SentStep(states[j - 1], actions[j - 1]);
    }
  }

  lemma SentStep(s: State, a: Action)
    requires Enabled(s, a)
    ensures s.sent <= Act(s, a).sent && (s.loaded ==> Act(s, a).loaded) && s.preview == Act(s, a).preview
  {}

  /** An accepted cancel, decline or timeout beats the install: in a run that accepts one at any
      point, the package is loaded at no point, before or after. */
  lemma AcceptedStopBeatsInstall(states: seq<State>, actions: seq<Action>, k: nat, i: nat)
    requires Run(states, actions) && k < |actions| && i < |states|
    requires actions[k].Send? && actions[k].ctl != Accept
    ensures !states[i].loaded
  {
    var last := |actions|;
    assert states[k + 1] == Act(states[k], actions[k]);
    assert states[k + 1].sent[|states[k].sent|] == actions[k].ctl;
    assert actions[k].ctl in states[k + 1].sent;
    SentGrows(states, actions, k + 1, last);
    SentGrows(states, actions, i, last);
    InvariantHolds(states, actions, last);
  }

  /** Once the install step is shown, no call is admitted any more: a cancel is refused. */
  lemma InstallRefusesCalls(states: seq<State>, actions: seq<Action>, i: nat, ctl: Ctl)
    requires Run(states, actions) && i < |states| && states[i].status.step == LoadPackage
    ensures !Admits(states[i].status, ctl) && states[i].caller.None?
  {
    InvariantHolds(states, actions, i);
  }

  /** A cancel is admitted exactly while no stop was accepted and the install step is not shown: before
      the preview, at it, and after an acceptance. */
  lemma CancelExactly(states: seq<State>, actions: seq<Action>, i: nat)
    requires Run(states, actions) && i < |states| && Live(states[i].pc)
    ensures var s := states[i];
            Enabled(s, Send(Cancel)) <==>
            !s.pc.Deaf? && s.caller.None? && !StopSent(s) && s.status.step != LoadPackage
  {
    InvariantHolds(states, actions, i);
  }

  /** An answer is admitted exactly while the preview is shown and nothing was answered to it. */
  lemma AnswerExactly(states: seq<State>, actions: seq<Action>, i: nat, ctl: Ctl)
    requires Run(states, actions) && i < |states| && Live(states[i].pc) && ctl != Cancel
    ensures var s := states[i];
            Enabled(s, Send(ctl)) <==> s.caller.None? && s.pc.Receive? && s.sent == []
  {
    InvariantHolds(states, actions, i);
    SentHolds(states, actions, i);
  }

  /** Only answers to the preview and a cancel are ever sent, an acceptance only there. */
  predicate SentOk(s: State) {
    && (s.sent == [] ==> s.queue == [] && s.caller.None?)
    && (Live(s.pc) && s.caller.None? && s.pc.Receive? && s.sent != [] ==> s.status.phase != Confirm)
    && (Live(s.pc) && s.sent == [] && s.pc.Receive? ==> s.status.phase == Confirm)
    && (Live(s.pc) && !Past(s.pc) && !s.pc.Receive? && s.sent != [] ==> StopSent(s))
    && (Live(s.pc) && !Past(s.pc) && s.sent == [] ==>
          s.status.phase == if s.pc.Receive? then Confirm else Running)
  }

  lemma SentKept(s: State, a: Action)
    requires Invariant(s) && SentOk(s) && Enabled(s, a)
    ensures SentOk(Act(s, a))
  {}

  lemma {:induction false} SentHolds(states: seq<State>, actions: seq<Action>, i: nat)
    requires Run(states, actions) && i < |states|
    ensures SentOk(states[i])
  {
    if i > 0 {
      SentHolds(states, actions, i - 1);
      InvariantHolds(states, actions, i - 1);
      SentKept(states[i - 1], actions[i - 1]);
    }
  }

  /** A download that ends well had the user's acceptance, if it was asked for, and no accepted
      cancel, decline or timeout, ever. */
  lemma SuccessMeansAccepted(states: seq<State>, actions: seq<Action>, i: nat, k: nat)
    requires Run(states, actions) && i < |states| && states[i].status.phase == Finished(true)
    ensures states[i].loaded
    ensures states[i].preview ==> Accept in states[i].sent
    ensures k < |actions| && actions[k].Send? ==> actions[k].ctl == Accept
  {
    InvariantHolds(states, actions, i);
    if k < |actions| && actions[k].Send? && actions[k].ctl != Accept {
      AcceptedStopBeatsInstall(states, actions, k, i);
    }
  }

  /** A stop is being accepted or has been, or the result is in. */
  predicate Barred(s: State) {
    if s.caller.Some? then s.caller.value != Accept else s.status.phase == Cancelling || s.status.phase.Finished?
  }

  lemma BarredStep(s: State, a: Action)
    requires Barred(s) && Enabled(s, a)
    ensures Barred(Act(s, a))
  {}

  lemma {:induction false} StaysBarred(states: seq<State>, actions: seq<Action>, i: nat, j: nat)
    requires Run(states, actions) && i <= j < |states| && Barred(states[i])
    ensures Barred(states[j])
    decreases j
  {
    hide Barred, Enabled, Act;
    if i < j {
      StaysBarred(states, actions, i, j - 1);
      BarredStep(states[j - 1], actions[j - 1]);
    }
  }

  /** After an accepted cancel, decline or timeout nothing is accepted again, whether the thread is
      still at work, has stopped or has recorded its result. */
  lemma OneStop(states: seq<State>, actions: seq<Action>, k: nat, l: nat, ctl: Ctl)
    requires Run(states, actions) && k < l < |states|
    requires actions[k].Send? && actions[k].ctl != Accept
    ensures !Enabled(states[l], Send(ctl))
    ensures l < |actions| ==> !actions[l].Send?
  {
    assert states[k + 1] == Act(states[k], actions[k]);
    StaysBarred(states, actions, k + 1, l);
  }

  /** Before the thread listens, a cancel is refused although the record would admit it. */
  lemma DeafRefuses(states: seq<State>, actions: seq<Action>, i: nat, ctl: Ctl)
    requires Run(states, actions) && i < |states| && states[i].pc.Deaf?
    ensures Admits(states[i].status, Cancel) && !Enabled(states[i], Send(ctl))
  {
    InvariantHolds(states, actions, i);
  }
}
