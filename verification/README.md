# Proofs about zte-agent and euicc

A Dafny 4.11 model of the parts of `zte-agent` and `euicc` in which something can go wrong between
two steps, two threads or two encodings, with proofs of what they keep. `dafny verify dfyconfig.toml`
checks everything.

**Protocols and state machines**

- `Watchdog.dfy`, `WatchdogRuns.dfy`, `WatchdogLadder.dfy`, `WatchdogRestart.dfy`, `WatchdogLifetimes.dfy`,
  `WatchdogLives.dfy`: the connection watchdog's recovery ladder. Over every run with a clock that does not go back, the
  cooldowns and daily caps hold together with the history the machine was seeded with, and the ladder is
  climbed in order; it is said exactly which events run a rung, leave it waiting or give the ladder up,
  and that a new outage starts a new one. Over any number of restarts, the limits hold for every rung that is recorded, and it
  is said exactly when they hold for all rungs taken, and which rungs a rebuilt machine holds back like
  one that kept its whole history; the last module proves it of starts and events together.
- `Cache.dfy`: the single-flight cache, as interleaved atomic steps of any number of readers and
  invalidators.
- `DownloadRace.dfy`, `DownloadSteps.dfy`: the SGP.22 profile download. The first interleaves the
  download thread with confirm, cancel and preview-timeout calls; the second is the procedure itself,
  with everything outside it (card, server, clock) answering as it likes, proved to move as that thread.
- `EsimNetwork.dfy`: the reconnection that must not leave the bearer down, and the stability timer.
- `Dashboard.dfy`, `DashboardRuns.dfy`: reference-counted subscriptions, and viewers that are sent only
  what changed.

**Parsers, printers and transport**

- `Json.dfy`, `JsonNumber.dfy`, `JsonStrings.dfy`, `JsonGrammar.dfy`, `JsonLenient.dfy`, `JsonParser.dfy`,
  `JsonPrinter.dfy`, `JsonPrinted.dfy`: the cJSON-like reader with its explicit stack, proved equal to
  recursive descent; the grammar of its numbers, the meaning of its strings against a UTF-8 reader, every
  text of RFC 8259 read as what it means, and nothing accepted but texts of a looser grammar; and the
  printer, proved to write RFC 8259 texts and to be undone by the reader.
- `Der.dfy`: TLV elements (ITU-T X.690), both ways.
- `Bpp.dfy`, `BppLoad.dfy`, `StoreData.dfy`: cutting a Bound Profile Package into requests, sending them
  as STORE DATA blocks, and reading the card's answers; stated about what a card receives.
- `Base64.dfy`, `Hex.dfy`: the two text codecs.

**Fast forms of simple searches**

- `KeyLog.dfy`, `LogCursor.dfy`: reading a log backwards in windows, and following it while it grows
  and is rotated, against a search of all complete lines.

**Arithmetic**

- `Calendar.dfy`: days and proleptic Gregorian dates, over all integers.

`Bytes.dfy` and `Wrappers.dfy` hold what these share.

Objects that the program updates in place are classes whose methods are proved against functions on
values (`Machine` against `Step`, `Slot` against `Invalidated` and `Kept`, `Shared` against `Subscribed`,
`Dropped` and `Published`, `Parser` against `Document`); the lemmas about whole runs speak of those
functions. What the program asks of the outside world is an input: the outcome of a write, a clock
reading, a card's answer, an answer of a callback.

## Findings

Each is a lemma below.

- Not every rung taken is persisted (zte-agent/src/conn_watchdog.rs:18). The machine has a reboot in its
  history before turning fast boot off is tried; if that call fails, nothing is recorded although every
  state write succeeds, and after a restart the reboot may run at once instead of a day later
  (`WatchdogLifetimes.UnrecordedReboot`, `WatchdogLifetimes.RebootTwice`). Lower rungs are held back
  alike always, the reboot exactly if its newest record of the last day was filed or is younger than the
  last start (`WatchdogLifetimes.RestartsAreInvisible`). What is recorded keeps its limits all the same,
  and all rungs taken keep them if and only if, at every reboot taken, the newest one before it was
  known in this sense or a day old (`WatchdogLifetimes.LimitsSurvive`).
- The reboot rung does not look at `allow_reboot` when it acts: a reboot left cooling is carried out
  after the setting is withdrawn (`WatchdogRuns.RebootAfterDisallowing` is such a run). What holds is
  that rebooting was allowed at some moment since the modem reset that led to it
  (`WatchdogRuns.RebootWasAllowed`), and exactly which events run a reboot (`WatchdogRuns.RebootExactly`).
- Recording a lower rung writes `restore_fast_boot` as false, so a fast-boot restore that is still owed
  after a reboot is forgotten if a lower rung is recorded before it succeeds and the agent then starts
  anew (`WatchdogRestart.ForgottenDebt`; `WatchdogRestart.RememberedExactly` says exactly when it is remembered,
  failing state writes included).
- The comment at zte-agent/src/esim.rs:1517 explains a case that does not occur, a cancel accepted and
  then outrun by the install: an accepted cancel always stops it
  (`DownloadRace.AcceptedStopBeatsInstall`; for the procedure itself, `DownloadSteps.Download`).
- The dashboard's readings are cleared when the last viewer leaves so that the next one does not get
  values sampled before (zte-agent/src/dashboard.rs:183), but a collector that sampled for the old viewer
  can publish after the new one has come (`DashboardRuns.StaleAfterIdle`; `DashboardRuns.PublishFresh`
  says exactly when, `DashboardRuns.FreshExactly` for whole runs).
- The TLV reader takes the octet 80 as a length of zero, which X.690 section 8.1.3.6 reserves for the
  indefinite form (`Der.EncodingIsMinimal`).
- On logical channels from 20 on, class bytes repeat (`StoreData.ChannelsApart`).

## Model

| member | source | states |
|---|---|---|
| Watchdog.NthNewestToday | zte-agent/src/conn_watchdog.rs:567-580 | with at least n records from the last day, the n-th newest of them is less than a day old, so the cap's deadline lies ahead of now |
| Watchdog.Machine.HandleEvent | zte-agent/src/conn_watchdog.rs:302-309 | one event takes the machine's whole state to `Step` of it and asks for the actions `Step` gives |
| Watchdog.Machine.HandleWan | zte-agent/src/conn_watchdog.rs:340-372 | a WAN report: the whole new state and the actions |
| Watchdog.Machine.ResetLadder | zte-agent/src/conn_watchdog.rs:375-381 | back to idle with no deadline and no counted failure; the history stays |
| Watchdog.Machine.HandleProbe | zte-agent/src/conn_watchdog.rs:383-445 | a probe result: the whole new state and the actions, for every state of the ladder |
| Watchdog.Machine.HandleTimer | zte-agent/src/conn_watchdog.rs:447-476 | a timer event does nothing before the deadline, and then what `OnTimer` says |
| Watchdog.Machine.HandleConfig | zte-agent/src/conn_watchdog.rs:478-497 | a configuration change: the whole new state and the actions |
| Watchdog.Machine.MoveUp | zte-agent/src/conn_watchdog.rs:499-519 | the next rung up, or back to idle with nothing counted where there is none |
| Watchdog.Machine.RunOrWait | zte-agent/src/conn_watchdog.rs:521-540 | a rung runs and is recorded, or the machine cools until the moment it may |
| Watchdog.Machine.RecordAction | zte-agent/src/conn_watchdog.rs:298-300 | a seeded record is added to the history and nothing else changes |
| WatchdogRuns.StepShape | zte-agent/src/conn_watchdog.rs:302-309 | an event runs at most one rung, as its last action; it is recorded at that moment, nothing held it back, and nothing else touches the history |
| WatchdogRuns.Unblocked | zte-agent/src/conn_watchdog.rs:542-582 | a rung may run if and only if nothing is busy, the last user activity is 120 s old, its cooldown is over and fewer than its cap were taken in the last day |
| WatchdogRuns.BlockIsExact | zte-agent/src/conn_watchdog.rs:542-582 | the instant given for a held-back rung is exact: it is held back at every moment before, and at none from then on while nothing is busy |
| WatchdogRuns.BusyBlock | zte-agent/src/conn_watchdog.rs:542-582 | a busy modem holds a rung back for another minute, or as long as without it if that is longer |
| WatchdogRuns.TakeKeepsLimits | zte-agent/src/conn_watchdog.rs:542-582 | the sliding-window step: a history within its limits stays so when an unblocked rung is taken |
| WatchdogRuns.WindowWithinToday | zte-agent/src/conn_watchdog.rs:567-580 | any 24-hour window that began less than a day ago holds no more of a rung than the records the cap looks at |
| WatchdogRuns.LimitsKept | zte-agent/src/conn_watchdog.rs:521-582 | over every run from a seeded history within the limits, that history together with all rungs taken keeps cooldowns and daily caps, and is what the machine holds |
| WatchdogRuns.LadderStep | zte-agent/src/conn_watchdog.rs:340-540 | every event keeps the ladder invariant (cooling has its deadline armed, idle has none), and a rung runs only while enabled with the WAN known connected |
| WatchdogRuns.LadderHolds | zte-agent/src/conn_watchdog.rs:340-540 | in every run, at every entry: the invariant, and each rung is run enabled, connected, not busy and 120 s after the last user activity |
| WatchdogRuns.ClimbHolds | zte-agent/src/conn_watchdog.rs:383-540 | in every run, whatever rung is waited for or recovering has been earned |
| WatchdogRuns.ClimbedInOrder | zte-agent/src/conn_watchdog.rs:383-540 | every rung a run takes is earned: the first by three failed probes over ten minutes with no success or WAN drop between, each higher one by the recovery window of the one below with a failed probe counted after it settled and no success |
| WatchdogRuns.RebootWasAllowed | zte-agent/src/conn_watchdog.rs:140-147 | a reboot means that rebooting was allowed at some moment since a modem reset of the same run |
| WatchdogRuns.RebootExactly | zte-agent/src/conn_watchdog.rs:447-540 | an event runs a reboot if and only if the reboot was cooling and is due, or the modem reset's window ended in failure with rebooting allowed; in the first case the setting does not matter |
| WatchdogRuns.RebootAfterDisallowing | zte-agent/src/conn_watchdog.rs:470-475 | a concrete run that reboots while rebooting is not allowed |
| WatchdogLadder.Moves | zte-agent/src/conn_watchdog.rs:340-540 | for every event: whether a rung is run, cools, or the ladder is given up, or else that state and deadline stay as they were but for a counted failure and a deadline that has passed |
| WatchdogLadder.RungExactly | zte-agent/src/conn_watchdog.rs:383-540 | an event runs a rung if and only if the ladder calls for it (the trigger for the first, the unrecovered end of a window for the next, the due timer for a cooling one) and nothing holds it back |
| WatchdogLadder.IdleExactly | zte-agent/src/conn_watchdog.rs:340-519 | the machine goes back to idle if and only if: a good probe, disabling, a WAN drop while cooling, a reconnect after the window, a window that ends with the WAN down or with no rung left; then no deadline and no failure is left |
| WatchdogLadder.CountExactly | zte-agent/src/conn_watchdog.rs:383-420 | while idle, exactly which events count a failure, and from when |
| WatchdogLadder.NewLadder | zte-agent/src/conn_watchdog.rs:383-427 | in every run, from any idle moment on, three failed probes over ten minutes with nothing breaking them off run the first rung or leave it waiting for its guard |
| WatchdogRestart.Executor.Record | zte-agent/src/conn_watchdog.rs:928-936 | the file after a rung is recorded: day-old records dropped, the rung last, the flag as given; unchanged if the write fails |
| WatchdogRestart.Executor.RestoreState | zte-agent/src/conn_watchdog.rs:852-888 | a start pays the fast-boot debt if it can, prunes the file, and seeds the machine with exactly the kept records, dated on its clock, those it cannot date as new |
| WatchdogRestart.Executor.RetryRestore | zte-agent/src/conn_watchdog.rs:893-907 | one more try at paying the debt, and what the file says of it then |
| WatchdogRestart.SeedsExactly | zte-agent/src/conn_watchdog.rs:873-876 | seeding moves the records to the new clock unchanged if and only if that clock can date them |
| WatchdogRestart.Executor.RebootWithFastBootOff | zte-agent/src/conn_watchdog.rs:974-985 | it succeeds only if all three calls do; fast boot and the file in every combination of failures |
| WatchdogRestart.Executor.UndoFastBootOff | zte-agent/src/conn_watchdog.rs:989-1004 | fast boot is on again if the call works, and the flag says whether it is still owed, unless that write fails too |
| WatchdogRestart.RecentSuffices | zte-agent/src/conn_watchdog.rs:817-820 | records a day old or older change no rung's deadline, now or at any later moment |
| WatchdogLifetimes.WorldHolds | zte-agent/src/conn_watchdog.rs:852-985 | over any rungs, unrecorded reboots, restarts and waiting, the file agrees with all that was filed on the last day's records, and the machine with all it can know, each on its own clock |
| WatchdogLifetimes.RestartsAreInvisible | zte-agent/src/conn_watchdog.rs:542-582 | after any of that, a rung is held back until the same instant as by a machine that kept every record, at this and every later moment, if and only if it is not the reboot or its newest reboot of the last day was filed or is younger than the last start |
| WatchdogLifetimes.UnrecordedReboot | zte-agent/src/conn_watchdog.rs:974-975 | from any first start: a reboot whose fast-boot call fails, a restart, and the reboot is free where it should wait a day |
| WatchdogLifetimes.LimitsSurvive | zte-agent/src/conn_watchdog.rs:15-19 | over any number of restarts, every rung recorded keeps its cooldown and daily cap; all rungs taken keep theirs if and only if at every reboot taken the newest one before it was filed, taken since the last start, or a day old; and all are recorded if no reboot fails unrecorded |
| WatchdogLifetimes.RebootTwice | zte-agent/src/conn_watchdog.rs:974-975 | with unrecorded reboots the machine may take two at one moment |
| WatchdogLives.RunIsGated | zte-agent/src/conn_watchdog.rs:521-582 | a run of events takes rungs only as the machine allows, so it is one of the runs above, with the same history, the same clock and the same rungs taken |
| WatchdogLives.LivesKeepLimits | zte-agent/src/conn_watchdog.rs:852-985 | whatever the events and however often the agent starts, rebuilt from the file each time: recorded rungs keep the limits, all rungs taken under the same condition, and always if turning fast boot off never failed |
| WatchdogRestart.RememberedExactly | zte-agent/src/conn_watchdog.rs:928-1004 | whatever fails, a remembered fast-boot debt stays remembered but in two cases: a lower rung is recorded while it is owed, or fast boot was turned off and its record, its undoing and the note all failed |
| WatchdogRestart.OffExactly | zte-agent/src/conn_watchdog.rs:852-1004 | exactly when fast boot is off on the watchdog's account after an operation |
| WatchdogRestart.TruthfulExactly | zte-agent/src/conn_watchdog.rs:852-1004 | while writes succeed, the file goes on saying that a debt is owed if and only if it is, unless a lower rung is recorded while it is owed |
| WatchdogRestart.ForgottenDebt | zte-agent/src/conn_watchdog.rs:944-968 | a concrete sequence, with every state write succeeding, after which no start turns fast boot on again |
| Cache.Slot.Fresh | zte-agent/src/cache.rs:78-88 | a value is served if and only if it is younger than the TTL, capped while the settle window lasts and no longer |
| Cache.Slot.Invalidate | zte-agent/src/cache.rs:106-113 | the value goes, the generation moves on, and the settle window opens if asked; nothing else |
| Cache.Slot.Keep | zte-agent/src/cache.rs:178-183 | a reply is stored only under the generation its fetch began with |
| Cache.InvariantHolds | zte-agent/src/cache.rs:155-200 | the invariant of every interleaving: who holds the gate, and that everything stored was born after the last invalidation |
| Cache.SingleFlight | zte-agent/src/cache.rs:155-185 | in every interleaving at most one fetch is in flight |
| Cache.BirthsHold | zte-agent/src/cache.rs:155-185 | every reply stored or returned comes from a fetch of the run, dated by when that fetch began |
| Cache.OwnReply | zte-agent/src/cache.rs:155-185 | a call that fetched returns what its own fetch gave, null or not, or its error, and hands in the same to be stored |
| Cache.Origin | zte-agent/src/cache.rs:155-185 | a fetch is dated by the clock its caller read under the gate, and belongs to the generation of that caller's second look |
| Cache.StoredExactly | zte-agent/src/cache.rs:106-185 | what is stored is exactly the newest non-null reply handed in with no invalidation since its caller's second look, and nothing after an invalidation |
| Cache.NoStaleReply | zte-agent/src/cache.rs:106-185 | a call that starts after an invalidation never returns a reply whose fetch began before it |
| Cache.WindowHolds | zte-agent/src/cache.rs:106-113 | the settle window in force is that of the last invalidation that opened one |
| Cache.ServedYoung | zte-agent/src/cache.rs:78-88 | a cached reply, when served, is younger than the caller's TTL, and than `SETTLE_TTL` inside the last settle window |
| Cache.HitExactly | zte-agent/src/cache.rs:78-185 | a look is served from the cache if and only if that reply is there and younger than the caller's TTL and, only before the end of the last settle window, than `SETTLE_TTL` |
| DownloadRace.Download.Progress | zte-agent/src/esim.rs:396-403 | the step is recorded, and the preview waits for confirmation unless a stop was accepted |
| DownloadRace.Download.Answer | zte-agent/src/esim.rs:1549-1575 | an answer is taken only while one is awaited and heard; then it is on the channel and in the record |
| DownloadRace.Download.CancelDownload | zte-agent/src/esim.rs:1578-1608 | a cancel is refused once the install step is shown; otherwise it is on the channel and in the record |
| DownloadRace.Download.PreviewExpired | zte-agent/src/esim.rs:1610-1622 | the timeout acts only on a preview still waiting |
| DownloadRace.ActKeeps | zte-agent/src/esim_download.rs:203-306 | every step of the thread and of the calls keeps the invariant that ties record, channel and thread |
| DownloadRace.InvariantHolds | zte-agent/src/esim.rs:396-403 | it holds in every interleaving |
| DownloadRace.AcceptedStopBeatsInstall | zte-agent/src/esim_download.rs:258-298 | in a run that accepts a cancel, decline or timeout at any point, the package is loaded at no point |
| DownloadRace.InstallRefusesCalls | zte-agent/src/esim.rs:1585-1601 | once the install step is shown, no call is admitted any more |
| DownloadRace.CancelExactly | zte-agent/src/esim.rs:1585-1601 | a cancel is admitted if and only if the thread listens, no stop was accepted and the install step is not shown |
| DownloadRace.AnswerExactly | zte-agent/src/esim.rs:1549-1622 | accept, decline and timeout are admitted if and only if the preview is shown and nothing was answered |
| DownloadRace.SuccessMeansAccepted | zte-agent/src/esim_download.rs:258-298 | a download that ends well had the user's acceptance, if asked for, and no accepted stop, ever |
| DownloadRace.OneStop | zte-agent/src/esim.rs:1549-1622 | after an accepted stop no call is accepted any more, in the whole rest of the run |
| DownloadRace.DeafRefuses | zte-agent/src/esim.rs:2116-2132 | before the thread listens a cancel is refused although the record would admit it |
| DownloadSteps.PauseFits | zte-agent/src/esim_download.rs:203-306 | where the procedure drains the channel, gives up or goes on, the interleaved thread makes the same move, with the same operations done |
| DownloadSteps.WorkFits | zte-agent/src/esim_download.rs:203-306 | each card or server call is the operation that comes next in order, and its outcome moves the interleaved thread as it moves the procedure |
| DownloadSteps.LoadedUnstopped | zte-agent/src/esim_download.rs:290-298 | once a load was tried no stop has been accepted at any point, and the user's acceptance has if it was asked for |
| DownloadSteps.World.Cancelled | zte-agent/src/esim_download.rs:135-143 | draining finds a cancel if and only if one is waiting, and takes no message after it; each message taken is a move of the thread |
| DownloadSteps.AskCard | zte-agent/src/esim_download.rs:215-224 | without a code that is required it asks nothing of the card at all; otherwise it goes on only with challenge and information |
| DownloadSteps.OpenSession | zte-agent/src/esim_download.rs:226-241 | it goes on exactly with the session open, and stops with none to cancel |
| DownloadSteps.FetchMetadata | zte-agent/src/esim_download.rs:243-248 | the server's answer and the metadata: it goes on only with both, and every stop here has a reason to give the card |
| DownloadSteps.World.CodeMissing | zte-agent/src/esim_download.rs:249-256 | the download stops after the metadata is shown if and only if the server wants a code and none was given |
| DownloadSteps.Authenticate | zte-agent/src/esim_download.rs:239-256 | from the open session to the metadata: it goes on only with both and no code missing, every stop here has a reason to give the card, and a missing code is the server's wish |
| DownloadSteps.Agree | zte-agent/src/esim_download.rs:239-269 | to the user's agreement: it goes on only with it, if it was to be asked for, and every stop here has a reason to give the card |
| DownloadSteps.Fetch | zte-agent/src/esim_download.rs:279-289 | it goes on only with the package, no cancel and time left to install |
| DownloadSteps.Install | zte-agent/src/esim_download.rs:271-306 | from the agreement to the end: it stops without a cancel reason exactly on an error the card reported |
| DownloadSteps.Load | zte-agent/src/esim_download.rs:290-306 | the card is asked to load only if no cancel was waiting after the load step had been shown; it ends well exactly when the thread has installed |
| DownloadSteps.Steps | zte-agent/src/esim_download.rs:203-306 | the steps succeed exactly when the thread has installed, and a session is left to cancel exactly if it was opened and the card reported no installation error |
| DownloadSteps.TidyUp | zte-agent/src/esim_download.rs:176-200 | after a stop: the card session that is left is cancelled with the reason of the failure, postponed if a cancel was waiting; the server told if and only if that worked and it did not report the failure itself |
| DownloadSteps.Download | zte-agent/src/esim_download.rs:163-306 | the log is the operations in order, all but the last going well, then the clean-up: one card cancel if and only if the session was opened and the failure is not a card-reported one; the server told if and only if that worked and the failure is not one it reported, or a cancel was waiting; success if and only if every operation was done; the card is asked to load only if no stop was ever accepted and, where the user was to be asked, the acceptance was; the reason given to the card for every operation and outcome; nothing asked of anyone if and only if a required code is missing; and the check after the metadata fails if and only if the server wants a code that was not given |
| EsimNetwork.Reconnect | zte-agent/src/esim_network.rs:163-229 | at most a disable and an enable, both with the roaming value first read; an enable only right after restoring was said to be allowed; and it is issued if and only if restoring was never forbidden and the settings read last are unchanged or unreadable; after the disable it has polled as `AwaitDown` says |
| EsimNetwork.Restore | zte-agent/src/esim_network.rs:202-229 | from a bearer that was taken down: everything promised of the whole |
| EsimNetwork.AwaitDown | zte-agent/src/esim_network.rs:188-201 | no write; it goes on for five rounds, each allowed twice, not seen down and paused, or ends at once when restoring is forbidden, somebody wants the modem or the bearer is down, and says which |
| EsimNetwork.Handover.Judge | zte-agent/src/esim_network.rs:68-92 | one probe: the whole new timer state and the decision |
| EsimNetwork.Handover.RecoveryStarted | zte-agent/src/esim_network.rs:64-67 | recovery is remembered and both timers start over |
| EsimNetwork.ReadyExactly | zte-agent/src/esim_network.rs:68-78 | over any inputs, ready is said if and only if probes spanning 12 s found the path never down, with no reset or recovery between |
| EsimNetwork.RecoverExactly | zte-agent/src/esim_network.rs:79-91 | over any inputs, recovery is asked for if and only if it is allowed, none was started before, and the path was found down for 12 s with nothing else between |
| Dashboard.Shared.Subscribe | zte-agent/src/dashboard.rs:200-221 | a subscription is counted everywhere it belongs, unless eight streams are taken |
| Dashboard.Shared.Drop | zte-agent/src/dashboard.rs:163-187 | its counts go, with the readings nobody else wants, and all readings with the last viewer |
| Dashboard.Shared.Publish | zte-agent/src/dashboard.rs:223-245 | wanted news is taken, and viewers are woken if and only if something taken differed |
| Dashboard.UpdatesExactly | zte-agent/src/dashboard.rs:223-245 | viewers are woken if and only if some piece of the news changed what was held when it came |
| Dashboard.TopicExactly | zte-agent/src/dashboard.rs:53-90 | every reading of an extra topic belongs to the one topic that lists it |
| DashboardRuns.ApplyKeeps | zte-agent/src/dashboard.rs:162-245 | every step of viewers, publishers and refreshes keeps the invariant |
| DashboardRuns.LiveHoldsSlot | zte-agent/src/dashboard.rs:163-181 | no counter is ever taken below zero |
| DashboardRuns.OnlyWantedReadings | zte-agent/src/dashboard.rs:162-245 | in every reachable state the counters are the live subscriptions, and a private reading is held only while one wants it |
| DashboardRuns.WaitingIsUpToDate | zte-agent/src/dashboard.rs:658-704 | whenever a viewer waits without having been notified, all its frames folded agree with every reading it may see, and it was never sent another |
| DashboardRuns.OnlyWhatItAsked | zte-agent/src/dashboard.rs:120-134 | in every run, a viewer is never sent a reading of a topic it did not ask for, nor messages unless it asked for them |
| DashboardRuns.LookExactly | zte-agent/src/dashboard.rs:606-704 | a viewer that looks is sent exactly the readings that differ from its last frame, and waits if and only if there are none |
| DashboardRuns.SubscribeExactly | zte-agent/src/dashboard.rs:200-221 | a subscription is refused if and only if eight are live |
| DashboardRuns.HeldExactly | zte-agent/src/dashboard.rs:163-245 | in every run, the held value of a reading is the last one published while some live subscription wanted it, until another is, or until nobody wants it |
| DashboardRuns.FreshAfterIdle | zte-agent/src/dashboard.rs:182-185 | if everything published was sampled since the last idle period, so was everything held |
| DashboardRuns.PublishFresh | zte-agent/src/dashboard.rs:223-245 | one publication keeps that if and only if it was sampled since, or no wanted name in it ends with a value other than the held one |
| DashboardRuns.FreshExactly | zte-agent/src/dashboard.rs:182-245 | over a whole run, every reading ever held was sampled since the last idle period if and only if every publication was, or said nothing new of anything wanted |
| DashboardRuns.StaleAfterIdle | zte-agent/src/dashboard.rs:182-245 | a concrete run that sends a viewer a reading sampled before it came |
| Json.DocumentShallow | euicc/src/es9p.rs:467-471 | whatever the text, at most four objects are kept inside one another |
| JsonStrings.Utf8Read | euicc/src/es9p.rs:756-762 | what is written for a character is read back as it by RFC 3629, whatever follows |
| JsonStrings.OnlyUtf8 | euicc/src/es9p.rs:756-762 | nothing else reads as that character: the shortest form is unique |
| JsonStrings.HexRead | euicc/src/es9p.rs:725-737 | four hexadecimal digits in either case give their value |
| JsonStrings.NoHexIsZero | euicc/src/es9p.rs:725-737 | anything else counts as zero |
| JsonStrings.SpellingDecodes | euicc/src/es9p.rs:629-762 | for every character and each of its spellings in RFC 8259 (as it stands, a short escape, four digits, a surrogate pair), both passes take the spelling as one and give the character |
| JsonStrings.StringReads | euicc/src/es9p.rs:617-671 | every string of RFC 8259 is kept as UTF-8 for exactly its characters, and reading goes on after its closing quote |
| JsonStrings.LoneSurrogate | euicc/src/es9p.rs:741-762 | a surrogate escape that is not the first of a pair makes the string malformed |
| JsonGrammar.NodeReads | euicc/src/es9p.rs:482-613 | every value of the RFC 8259 grammar, blanks anywhere, is read as what it means and up to its end, or refused if and only if it is nested too deep |
| JsonGrammar.TextReads | euicc/src/es9p.rs:467-578 | every such text, after an optional byte-order mark and blanks; what follows the value is ignored |
| JsonLenient.Accepted | euicc/src/es9p.rs:482-613 | every value that is accepted is written in the grammar but for looser blanks, numbers and strings, and is read as what it means: no bracket, comma, colon or word is missing or misplaced |
| JsonLenient.DocumentAccepted | euicc/src/es9p.rs:467-578 | the same of every text that is accepted |
| JsonLenient.EscapeRefused | euicc/src/es9p.rs:629-762 | exactly which escapes make a string malformed |
| JsonParser.Parse | euicc/src/es9p.rs:482-578 | for every input the explicit-stack parser gives what recursive descent gives, with no index out of range |
| JsonParser.StartValue | euicc/src/es9p.rs:489-544 | a value that starts: the whole text's result is unchanged by failing, ending it or opening a container |
| JsonParser.HandOver | euicc/src/es9p.rs:545-577 | handing a finished value to the containers it ends: the whole text's result is unchanged |
| JsonParser.OpenArray | euicc/src/es9p.rs:509-522 | recursive descent at an opening bracket is reading on inside it, up to 1000 open containers |
| JsonParser.OpenObject | euicc/src/es9p.rs:523-542 | the same for an object, kept only above depth 4 |
| JsonParser.NextMember | euicc/src/es9p.rs:559-566 | recursive descent at a comma is reading on at the next member |
| JsonParser.CloseContainer | euicc/src/es9p.rs:567-573 | recursive descent at a closing bracket is the container's value ending there |
| JsonParser.Malformed | euicc/src/es9p.rs:553-575 | anything else after a value makes the whole text malformed |
| JsonParser.Parser.ClosingQuote | euicc/src/es9p.rs:617-628 | the search for the closing quote, stepping over escaped bytes |
| JsonParser.Parser.Unescape | euicc/src/es9p.rs:629-668 | the second pass decodes what the specification decodes, also where an escape swallows the partner of a later backslash |
| JsonParser.Parser.String | euicc/src/es9p.rs:617-671 | both passes together, and where reading goes on |
| JsonParser.Parser.MemberName | euicc/src/es9p.rs:601-613 | a name, its colon and the whitespace around it |
| JsonNumber.StrtodLongest | euicc/src/es9p.rs:694-721 | what is converted is the longest prefix that the grammar of `strtod` reads as a decimal number, and nothing if there is none |
| JsonNumber.NumberLongest | euicc/src/es9p.rs:677-690 | a number in a text ends where the longest decimal number starting there ends |
| JsonParser.Parser.Number | euicc/src/es9p.rs:677-690 | stepping byte by byte, the index moves to that end, or stays where there is no number |
| JsonParser.ConvertedLength | euicc/src/es9p.rs:694-721 | the index-stepping count of converted bytes |
| JsonPrinter.PrintString | euicc/src/es9p.rs:423-443 | the string between quotes with every byte that needs it escaped |
| JsonPrinter.PrintObject | euicc/src/es9p.rs:405-421 | the object text of a list of fields |
| JsonPrinter.ReadEscaped | euicc/src/es9p.rs:617-671 | on printed strings the search for the closing quote and the decoder agree, and give the string back |
| JsonPrinter.ReadFields | euicc/src/es9p.rs:405-421 | a printed member list is read as its fields |
| JsonPrinter.PrintThenParse | euicc/src/es9p.rs:405-578 | for every list of fields, reading the printed object gives them back in order, each cut at its first NUL |
| JsonPrinted.PrintedSpells | euicc/src/es9p.rs:423-443 | every character is printed as one of its spellings in RFC 8259, none of them a bare control character |
| JsonPrinted.PrintedIsJson | euicc/src/es9p.rs:405-443 | the printed object of text names and values is a text of the RFC 8259 grammar and means exactly these members |
| Der.ParseElement | euicc/src/der.rs:23-50 | the index-stepping reader gives the element X.690 describes, or nothing for a cut-off or overlong length |
| Der.Iter.Next | euicc/src/der.rs:62-70 | one element of those still to come is taken, and the octets of element and rest are all there were |
| Der.EncodeInto | euicc/src/der.rs:98-123 | the encoding, built child by child in a buffer of its own, is appended to what was there |
| Der.ParseEncoded | euicc/src/der.rs:23-124 | reading an encoding followed by anything gives back tag, contents and octets if and only if the tag is representable and the contents are shorter than 2^32 |
| Der.TagReadBack | euicc/src/der.rs:24-30 | a tag is read back if and only if it is representable |
| Der.ElementsEncoded | euicc/src/der.rs:54-70 | iterating over concatenated encodings yields exactly the elements in order, then what follows |
| Der.ChildrenReadBack | euicc/src/der.rs:98-124 | the children of an encoded element are found again inside it |
| Der.EncodeInjective | euicc/src/der.rs:91-124 | equal encodings have equal tags and contents, even with different octets after them; trees whose tags tell primitive from constructed are equal |
| Der.EncodingIsMinimal | euicc/src/der.rs:113-121 | re-encoding whatever was accepted takes no more octets; a form of the same size is the same, except for a length octet 80 |
| Der.U64RoundTrip | euicc/src/der.rs:127-140 | INTEGER contents give the number back, with the sign bit clear and no needless leading octet |
| Der.U64Shortest | euicc/src/der.rs:132-140 | no contents with the sign bit clear spell the number in fewer octets |
| StoreData.ChannelsApart | euicc/src/lib.rs:88-94 | class bytes tell channels 0 to 19 apart, and exactly which higher channels collide |
| StoreData.ClassAddresses | euicc/src/lib.rs:88-94 | the class byte addresses its own channel (ISO 7816-4 section 5.4.1) if and only if it is one of the twenty there are |
| StoreData.Euicc.TransmitCollect | euicc/src/lib.rs:97-113 | the exchange of one command with its GET RESPONSEs: result, data, commands sent, answers used |
| StoreData.Euicc.Command | euicc/src/lib.rs:117-128 | the exchange of a whole request |
| StoreData.ChunksJoin | euicc/src/lib.rs:119-119 | the blocks are the request |
| StoreData.CollectedHeard | euicc/src/lib.rs:97-113 | following 61xx adds nothing to what the card was given |
| StoreData.CardHearsRequest | euicc/src/lib.rs:117-128 | a card that listens on the session's channel, joins blocks until P1 = 91, numbered modulo 256 and at most 120 octets, has received exactly the request if sending succeeded, and a beginning or all of it if not; an empty request sends nothing |
| StoreData.BeyondChannels | euicc/src/lib.rs:88-94 | with a channel number from 20 on, the first block already addresses another channel |
| StoreData.AnswerIsComplete | euicc/src/lib.rs:97-128 | the answer is the data of all the card's answers used, in order, success or not |
| StoreData.HandedOver | euicc/src/lib.rs:97-113 | data a card hands over in pieces is collected whole, each GET RESPONSE asking for as much as was announced; the last status decides |
| Bpp.LocateElement | euicc/src/download.rs:159-168 | the first element with a tag, with its offset |
| Bpp.FoundAt | euicc/src/der.rs:73-75 | what is found is the first element with the tag, after all the octets of those before it |
| Bpp.FoundInside | euicc/src/download.rs:159-168 | an element found lies inside the buffer at its offset, and both searches agree |
| Bpp.MakePlan | euicc/src/download.rs:269-300 | the plan for any package, built up sequence by sequence |
| Bpp.PlanShape | euicc/src/download.rs:269-300 | for any package: the first range is always inside it, requests are never empty, and only the last item can be a failure, exactly when a sequence is missing |
| Bpp.SegmentsJoined | euicc/src/download.rs:269-300 | for a package with its parts in order, what all requests together hold, malformed sequences included |
| Bpp.SegmentsAreThePackage | euicc/src/download.rs:269-300 | for such a package nothing is lost if and only if the package and the two sequences sent element by element hold nothing but elements |
| Bpp.EncodedPackageIsSent | euicc/src/download.rs:269-300 | a package of SGP.22 written by the encoder is sent byte for byte, whatever precedes the first part inside it or follows it |
| Bpp.SegmentsOfPackage | euicc/src/download.rs:255-300 | the requests of an encoded package one by one: its head with InitialiseSecureChannelRequest, firstSequenceOf87 whole, head and elements of sequenceOf88, secondSequenceOf87 whole if there is one, head and elements of sequenceOf86 |
| BppLoad.ParseAnswer | euicc/src/download.rs:318-356 | the card's answer to one request, the last of repeated numbers winning |
| BppLoad.AnswerMeaning | euicc/src/download.rs:318-356 | an answer means success if and only if it is empty or carries a SuccessResult; an error always has both numbers, known or undefined; number and ICCID are there if the metadata has them, and 0 and none if not |
| BppLoad.ResultReadBack | euicc/src/download.rs:318-356 | an installation result a card encodes is read with its sequence number, ICCID and outcome, whatever its other elements |
| BppLoad.OutcomeReadBack | euicc/src/download.rs:335-354 | success carries no numbers, and an error's numbers come back as they are if they are among those of SGP.22 and as undefined otherwise, whatever else the error holds |
| BppLoad.LoadBoundProfilePackage | euicc/src/download.rs:412-423 | the whole exchange of a load, from base64 text |
| BppLoad.LoadHeard | euicc/src/download.rs:412-423 | a card gets requests of the plan in order, each whole before the next; success means all of them, and a load that stops has given exactly those before, with at most a part of one more if sending failed |
| BppLoad.PackageReceived | euicc/src/download.rs:412-423 | after any load of any package, what the card holds is a beginning of its requests, all of them on success |
| BppLoad.PackageDelivered | euicc/src/download.rs:269-423 | a well-formed package sent as base64 reaches the card byte for byte on success, and a beginning of it otherwise |
| Base64.DecodeText | euicc/src/b64.rs:29-44 | the loop over groups of four decodes the leading run of alphabet characters |
| Base64.AlphabetExactly | euicc/src/b64.rs:14-23 | the characters decoded are those of the standard alphabet, each with its place in it |
| Base64.GroupBits | euicc/src/b64.rs:29-44 | the octets of a group are the bits of its characters in order, and those left over do not matter |
| Base64.GroupsAt | euicc/src/b64.rs:29-44 | every group of four is decoded on its own, to its place |
| Base64.DecodedLength | euicc/src/b64.rs:29-44 | how many octets there are; a last group of one character gives none |
| Base64.DecodeEncode | euicc/src/b64.rs:29-44 | decoding undoes RFC 4648 encoding, whatever follows its padding or the first character outside the alphabet |
| Base64.RestIgnored | euicc/src/b64.rs:29-30 | nothing from the first such character on matters |
| Hex.SwapInPlace | euicc/src/hex.rs:41-43 | the pairs of an even number of characters are swapped in place |
| Hex.BcdText | euicc/src/hex.rs:56-65 | card bytes as ICCID text |
| Hex.IccidBytes | euicc/src/hex.rs:36-52 | ICCID text as card bytes, refused when it does not fit or has a character that is no digit |
| Hex.DigitsExactly | euicc/src/hex.rs:10-34 | digits are 0 to 9 and a to f in either case, and are written in lower case |
| Hex.DecodeExactly | euicc/src/hex.rs:20-34 | text is decoded if and only if it is pairs of digits |
| Hex.IccidRefused | euicc/src/hex.rs:36-52 | ICCID text is refused if and only if it has a character that is no digit or does not fit |
| Hex.BcdRoundTrip | euicc/src/hex.rs:36-65 | for every byte string, its ICCID text gives the bytes back |
| Hex.IccidRoundTrip | euicc/src/hex.rs:36-65 | a decimal ICCID fits exactly when it needs no more bytes than there are, and then reads back |
| KeyLog.Window | zte-agent/src/key_log.rs:46-67 | which part of a window holds lines to search |
| KeyLog.NextBoundary | zte-agent/src/key_log.rs:74-81 | with short lines, the next window ends at a line start inside this one |
| KeyLog.FoundHere | zte-agent/src/key_log.rs:68-73 | with short lines, a match in a window is the newest of all complete lines |
| KeyLog.ScanBack | zte-agent/src/key_log.rs:25-84 | `consumed` is just past the last newline, nothing beyond it is ever searched, and if every complete line is shorter than the window the result is that of searching all complete lines at once |
| KeyLog.Newest | zte-agent/src/key_log.rs:99-121 | the newest match of the log, or of the rotated one; and the beginning of an unfinished line after it, empty exactly when there is none |
| KeyLog.LineFinders | zte-agent/src/bearer.rs:153-160 | every search for the newest line that some test accepts is a search the scan may be used with |
| KeyLog.LineEnds | zte-agent/src/bearer.rs:153-160 | a line may end in CR LF as well as in LF |
| LogCursor.Cursor.Refresh | zte-agent/src/bearer.rs:121-146 | one look: the whole new cursor for any files, with the match of all unread complete lines where lines are short and reading on starts at a line start |
| LogCursor.LookKeeps | zte-agent/src/bearer.rs:121-146 | a look after growth or one rotation finds the newest match of everything and leaves the cursor at a line start |
| LogCursor.InvariantHolds | zte-agent/src/bearer.rs:121-146 | over any appends, looks and noticed rotations, the cursor holds the newest match of what it has read |
| LogCursor.FollowsTheLog | zte-agent/src/bearer.rs:121-146 | after any appends, looks and noticed rotations with short lines, what `Refresh` leaves at the next look is the newest match of the rotated file's and the current file's complete lines, and of all earlier ones |
| LogCursor.LooksAreReadable | zte-agent/src/bearer.rs:121-146 | in such a run every look starts at a line start, as the scan requires |
| Calendar.DateRoundTrip | zte-agent/src/calendar.rs:3-22 | every valid date of every year, negative ones too, is given back by its day number |
| Calendar.DayRoundTrip | zte-agent/src/calendar.rs:3-22 | every integer is the day number of the valid date it gives |
| Calendar.NextDayNumber | zte-agent/src/calendar.rs:3-10 | the date after a date has the next number |
| Calendar.SuccessiveDays | zte-agent/src/calendar.rs:11-22 | successive numbers are successive dates under the 4/100/400 leap rule |
| Calendar.Epoch | zte-agent/src/calendar.rs:3-22 | day 0 is 1 January 1970 |

## Left out

- The outside world (ubus, AT, QMI, TLS, files, threads starting or failing to start): outcomes are inputs.
- Readers of the cache, the download thread and the dashboard's viewers are step systems on values, one
  step for each critical section or wait, because what is proved is about their interleaving; the
  critical sections themselves are methods of `Cache.Slot`, `DownloadRace.Download` and
  `Dashboard.Shared`.
- Log texts, messages, the watchdog's status view and SSE frame texts: they decide nothing.
- Integer widths of counters that only grow (cache and dashboard generations, failed probes, refresh
  versions): they do not wrap in the model.
- Calendar.DayRoundTrip: over unbounded integers; overflow of 64-bit arithmetic near its ends is not modelled.
- WatchdogLifetimes.RestartsAreInvisible: in whole seconds, with both clocks advancing together and state
  writes succeeding; the rounding of persisted records to seconds is not modelled. Each record is taken to
  be written at the machine's own instant; the program writes it a little later, after the notification
  and, for the reboot, after turning fast boot off. Clocks can date a day before their start
  (`WatchdogRestart.SeedsExactly` says what happens on others).
- Watchdog.Machine.HandleEvent: time is in whole seconds; the busy check is read once per event.
- Cache.SingleFlight: one key; keys share no state but the map that holds them.
- DownloadSteps.World.Cancelled: messages arriving while the channel is drained count as waiting.
- DownloadSteps.Download: begins once the thread has its channel and the card is being opened;
  activation-code and confirmation-code checks are a yes or no; timeouts are
  outcomes of the calls, and `left` is a choice.
- EsimNetwork.Reconnect: the fields of a bearer status are given as integers where they are integers;
  `Policy` and the bearer checks, single conjunctions over those fields, are not modelled.
- KeyLog.ScanBack: the file does not change during a scan and reads do not fail; text is bytes, not
  lossily decoded. Without the bound on lines, a search may start in the middle of one.
- LogCursor.FollowsTheLog: a rotation that leaves inode and length looking unchanged is not noticed by
  the program either and is excluded, as is a second rotation between two looks.
- StoreData.CardHearsRequest: for a card that is between requests; how one recovers from an interrupted
  request is the card's affair.
- BppLoad.LoadBoundProfilePackage: the other ES10b requests, the opening and closing of the logical
  channel, and the field tables of es8p.rs, es10b.rs, es10c.rs and info2.rs are not modelled.
- Der: `bit_names`, which filters a list of names by single bits, is not modelled.
- Json: looking up a member (`Json::get`), the status and error tables and the HTTP exchange.
- DashboardRuns.WaitingIsUpToDate: the collectors, the thirty-minute limit and the token check are
  reduced to a viewer that may leave and news that may come at any time; `refresh_requested` only
  hurries the collectors.
- esim.rs outside the download controls, dns_control.rs, charge_policy.rs, client_details.rs, the rate
  parsing of bearer.rs, cell.rs, usb.rs and the web console.
