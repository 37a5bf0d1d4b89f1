/** The cache in which callers share one fetch (zte-agent/src/cache.rs): one key's entry, read and
    invalidated by any number of threads. Times are milliseconds; generations do not wrap. */
module Cache {
  import opened Wrappers

  const SETTLE_TTL := 1000

  /** A reply, with the step at which the fetch that produced it began. */
  datatype Reply = Reply(isNull: bool, content: int, born: nat)

  datatype Stored = Stored(at: int, reply: Reply)

  datatype SlotValue = SlotValue(value: Option<Stored>, settleUntil: Option<int>, generation: nat)

  function Min(a: int, b: int): int {
    if a < b then a else b
  }

  /** Rust's `saturating_duration_since`. */
  function Elapsed(now: int, at: int): int {
    if now < at then 0 else now - at
  }

  function EffectiveTtl(s: SlotValue, ttl: int, now: int): int {
    if s.settleUntil.Some? && now < s.settleUntil.value then Min(ttl, SETTLE_TTL) else ttl
  }

  function FreshValue(s: SlotValue, ttl: int, now: int): Option<Stored> {
    if s.value.Some? && Elapsed(now, s.value.value.at) < EffectiveTtl(s, ttl, now) then s.value else None
  }

  function Invalidated(s: SlotValue, settle: Option<nat>, now: int): SlotValue {
    SlotValue(None, if settle.Some? then Some(now + settle.value) else s.settleUntil, s.generation + 1)
  }

  /** A fetch that started at `started` under `generation` hands in its reply. */
  function Kept(s: SlotValue, generation: nat, started: int, reply: Reply): SlotValue {
    if !reply.isNull && s.generation == generation then s.(value := Some(Stored(started, reply))) else s
  }

  /** The slot; each method is one critical section of the state lock. */
  class Slot {
    var value: Option<Stored>
    var settleUntil: Option<int>
    var generation: nat

    ghost function Value(): SlotValue
      reads this
    {
      SlotValue(value, settleUntil, generation)
    }

    constructor ()
      ensures Value() == SlotValue(None, None, 0)
    {
      value, settleUntil, generation := None, None, 0;
    }

    method Fresh(ttl: int, now: int) returns (r: Option<Stored>)
      ensures r == FreshValue(Value(), ttl, now)
    {
      if value.None? {
        return None;
      }
      var limit := ttl;
      if settleUntil.Some? && now < settleUntil.value {
        limit := Min(ttl, SETTLE_TTL);
      }
      r := if Elapsed(now, value.value.at) < limit then value else None;
    }

    method Invalidate(settle: Option<nat>, now: int)
      modifies this
      ensures Value() == Invalidated(old(Value()), settle, now)
    {
      value := None;
      generation := generation + 1;
      if settle.Some? {
        settleUntil := Some(now + settle.value);
      }
    }

    method Keep(underGeneration: nat, started: int, reply: Reply)
      modifies this
      ensures Value() == Kept(old(Value()), underGeneration, started, reply)
    {
      if !reply.isNull {
        if generation == underGeneration {
          value := Some(Stored(started, reply));
        }
      }
    }
  }

  // ---------------------------------------------------------------- interleaved readers and invalidators

  /** The last invalidation that from a settle window. */
  datatype Window = Window(from: int, until: int)

  datatype Result =
    | Hit(stored: Stored, checked: int, window: Option<Window>)
    | Fetched(reply: Reply)
    | Failed

  /** Where one call of `get_or_fetch` stands. `since` is the step of the last invalidation that
      had finished when the call began (0 if none). */
  datatype Reader =
    | Called(ttl: int, since: nat)
    | Waiting(ttl: int, since: nat)
    | Holding(ttl: int, since: nat)
    | Timed(ttl: int, since: nat, started: int)
    | Chosen(ttl: int, since: nat, started: int, generation: nat)
    | Fetching(ttl: int, since: nat, started: int, generation: nat, born: nat)
    | Answered(ttl: int, since: nat, started: int, generation: nat, reply: Reply)
    | Done(ttl: int, since: nat, result: Result)

  predicate HoldsGate(r: Reader) {
    r.Holding? || r.Timed? || r.Chosen? || r.Fetching? || r.Answered?
  }

  datatype State = State(
    step: nat,
    now: int,
    slot: SlotValue,
    gate: Option<nat>,
    readers: map<nat, Reader>,
    invalidated: nat,
    window: Option<Window>)

  function Initial(now: int): State {
    State(1, now, SlotValue(None, None, 0), None, map[], 0, None)
  }

  datatype Action =
    | Pass(ms: nat)
    | Invalidate(settle: Option<nat>)
    | Call(id: nat, ttl: int)
    | FirstLook(id: nat)
    | TakeGate(id: nat)
    | ReadClock(id: nat)
    | SecondLook(id: nat)
    | BeginFetch(id: nat)
    | EndFetch(id: nat, ok: bool, isNull: bool, content: int)
    | Keep(id: nat)

  predicate Enabled(s: State, a: Action) {
    match a
    case Pass(_) | Invalidate(_) => true
    case Call(id, _) => id !in s.readers
    case FirstLook(id) => id in s.readers && s.readers[id].Called?
    case TakeGate(id) => id in s.readers && s.readers[id].Waiting? && s.gate.None?
    case ReadClock(id) => id in s.readers && s.readers[id].Holding?
    case SecondLook(id) => id in s.readers && s.readers[id].Timed?
    case BeginFetch(id) => id in s.readers && s.readers[id].Chosen?
    case EndFetch(id, _, _, _) => id in s.readers && s.readers[id].Fetching?
    case Keep(id) => id in s.readers && s.readers[id].Answered?
  }

  function Set(s: State, id: nat, r: Reader): State {
    s.(readers := s.readers[id := r])
  }

  /** The call returns; leaving drops the gate if it was held. */
  function Return(s: State, id: nat, result: Result): State
    requires id in s.readers
  {
    var r := s.readers[id];
    Set(s, id, Done(r.ttl, r.since, result)).(gate := if HoldsGate(r) then None else s.gate)
  }

  function Act(s: State, a: Action): State
    requires Enabled(s, a)
  {
    match a
    case Pass(ms) => s.(now := s.now + ms)
    case Invalidate(settle) =>
      s.(slot := Invalidated(s.slot, settle, s.now),
         invalidated := s.step,
         window := if settle.Some? then Some(Window(s.now, s.now + settle.value)) else s.window)
    case Call(id, ttl) => Set(s, id, Called(ttl, s.invalidated))
    case FirstLook(id) =>
      var r := s.readers[id];
      var hit := FreshValue(s.slot, r.ttl, s.now);
      if hit.Some? then Return(s, id, Hit(hit.value, s.now, s.window)) else Set(s, id, Waiting(r.ttl, r.since))
    case TakeGate(id) =>
      Set(s, id, Holding(s.readers[id].ttl, s.readers[id].since)).(gate := Some(id))
    case ReadClock(id) =>
      Set(s, id, Timed(s.readers[id].ttl, s.readers[id].since, s.now))
    case SecondLook(id) =>
      var r := s.readers[id];
      var hit := FreshValue(s.slot, r.ttl, r.started);
      if hit.Some? then Return(s, id, Hit(hit.value, r.started, s.window))
      else Set(s, id, Chosen(r.ttl, r.since, r.started, s.slot.generation))
    case BeginFetch(id) =>
      var r := s.readers[id];
      Set(s, id, Fetching(r.ttl, r.since, r.started, r.generation, s.step))
    case EndFetch(id, ok, isNull, content) =>
      var r := s.readers[id];
      if ok then Set(s, id, Answered(r.ttl, r.since, r.started, r.generation, Reply(isNull, content, r.born)))
      else Return(s, id, Failed)
    case Keep(id) =>
      var r := s.readers[id];
      Return(s, id, Fetched(r.reply)).(slot := Kept(s.slot, r.generation, r.started, r.reply))
  }

  function Next(s: State, a: Action): State
    requires Enabled(s, a)
  {
    Act(s, a).(step := s.step + 1)
  }

  /** An interleaving: the states passed through, one more than the actions. */
  ghost predicate Run(states: seq<State>, actions: seq<Action>) {
    && |states| == |actions| + 1
    && states[0] == Initial(states[0].now)
    && forall i | 0 <= i < |actions| :: Enabled(states[i], actions[i]) && states[i + 1] == Next(states[i], actions[i])
  }

  // ---------------------------------------------------------------- the invariant

  /** A fetch of generation `g` that began at `born` may still be stored, and is not stale then. */
  predicate NotOvertaken(s: State, since: nat, g: nat, born: nat) {
    since < born < s.step && g <= s.slot.generation && (g == s.slot.generation ==> s.invalidated < born)
  }

  /** Served young enough: below the TTL, and below the settle TTL inside the settle window. */
  predicate Young(ttl: int, h: Result)
    requires h.Hit?
  {
    && h.checked - h.stored.at < ttl
    && (h.window.Some? && h.window.value.from <= h.checked < h.window.value.until ==>
          h.checked - h.stored.at < SETTLE_TTL)
  }

  predicate ReaderOk(s: State, r: Reader) {
    && r.since <= s.invalidated
    && match r
       case Timed(_, _, started) =>
         && started <= s.now
         && (s.slot.value.Some? ==>
               && s.slot.value.value.at <= started
               && (s.window.Some? ==> s.window.value.from <= started))
       case Chosen(_, _, started, g) => started <= s.now && g <= s.slot.generation
       case Fetching(_, _, started, g, born) => started <= s.now && NotOvertaken(s, r.since, g, born)
       case Answered(_, _, started, g, reply) => started <= s.now && NotOvertaken(s, r.since, g, reply.born)
       case Done(ttl, since, Hit(stored, checked, window)) =>
         since < stored.reply.born && !stored.reply.isNull && stored.at <= checked <= s.now && Young(ttl, r.result)
       case Done(_, since, Fetched(reply)) => since < reply.born
       case _ => true
  }

  ghost predicate Invariant(s: State) {
    && s.invalidated < s.step
    && (s.slot.value.Some? ==>
          && s.invalidated < s.slot.value.value.reply.born < s.step
          && s.slot.value.value.at <= s.now
          && !s.slot.value.value.reply.isNull)
    && (s.window.Some? ==> s.window.value.from <= s.now)
    && s.slot.settleUntil == (if s.window.Some? then Some(s.window.value.until) else None)
    && (s.gate.Some? ==> s.gate.value in s.readers && HoldsGate(s.readers[s.gate.value]))
    && (forall id | id in s.readers :: HoldsGate(s.readers[id]) ==> s.gate == Some(id))
    && (forall id | id in s.readers :: ReaderOk(s, s.readers[id]))
  }

  lemma InvalidateKeeps(s: State, settle: Option<nat>)
    requires Invariant(s)
    ensures Invariant(Next(s, Invalidate(settle)))
  {}

  /** A step of one reader that leaves the slot alone. */
  lemma ReaderKeeps(s: State, a: Action)
    requires Invariant(s) && Enabled(s, a)
    requires !a.Invalidate? && !a.Pass? && !a.Keep? && !a.FirstLook? && !a.SecondLook?
    ensures Invariant(Next(s, a))
  {}

  lemma FirstLookKeeps(s: State, id: nat)
    requires Invariant(s) && Enabled(s, FirstLook(id))
    ensures Invariant(Next(s, FirstLook(id)))
  {}

  lemma SecondLookKeeps(s: State, id: nat)
    requires Invariant(s) && Enabled(s, SecondLook(id))
    ensures Invariant(Next(s, SecondLook(id)))
  {}

  lemma KeepKeeps(s: State, id: nat)
    requires Invariant(s) && Enabled(s, Keep(id))
    ensures Invariant(Next(s, Keep(id)))
  {}

  lemma NextKeeps(s: State, a: Action)
    requires Invariant(s) && Enabled(s, a)
    ensures Invariant(Next(s, a))
  {
    match a
    case Invalidate(settle) => InvalidateKeeps(s, settle);
    case Keep(id) => KeepKeeps(s, id);
    case FirstLook(id) => FirstLookKeeps(s, id);
    case SecondLook(id) => SecondLookKeeps(s, id);
    case Pass(_) =>
    case _ => ReaderKeeps(s, a);
  }

  lemma {:induction false} InvariantHolds(states: seq<State>, actions: seq<Action>, i: nat)
    requires Run(states, actions) && i < |states|
    ensures Invariant(states[i])
  {
    if i > 0 {
      InvariantHolds(states, actions, i - 1);
      NextKeeps(states[i - 1], actions[i - 1]);
    }
  }

  // ---------------------------------------------------------------- main results

  /** At most one fetch is in flight, in every interleaving. */
  lemma SingleFlight(states: seq<State>, actions: seq<Action>, i: nat, a: nat, b: nat)
    requires Run(states, actions) && i < |states|
    requires a in states[i].readers && states[i].readers[a].Fetching?
    requires b in states[i].readers && states[i].readers[b].Fetching?
    ensures a == b
  {
    InvariantHolds(states, actions, i);
  }

  lemma {:induction false} StepsCount(states: seq<State>, actions: seq<Action>, i: nat)
    requires Run(states, actions) && i < |states|
    ensures states[i].step == i + 1
  {
    if i > 0 {
      StepsCount(states, actions, i - 1);
      assert states[i] == Next(states[i - 1], actions[i - 1]);
    }
  }

  /** Step `born` is the step at which a fetch began, before state `i`. */
  predicate BeganAt(actions: seq<Action>, born: nat, i: nat) {
    1 <= born <= i <= |actions| && actions[born - 1].BeginFetch?
  }

  predicate ReplyOf(r: Reader, reply: Reply) {
    (r.Answered? && r.reply == reply)
    || (r.Done? && r.result.Hit? && r.result.stored.reply == reply)
    || (r.Done? && r.result.Fetched? && r.result.reply == reply)
  }

  ghost predicate BirthsOk(s: State, actions: seq<Action>, i: nat) {
    && (s.slot.value.Some? ==> BeganAt(actions, s.slot.value.value.reply.born, i))
    && (forall id | id in s.readers && s.readers[id].Fetching? :: BeganAt(actions, s.readers[id].born, i))
    && (forall id, reply | id in s.readers && ReplyOf(s.readers[id], reply) :: BeganAt(actions, reply.born, i))
  }

  /** Every reply in the entry, or handed to a caller, comes from a fetch of the run. */
  lemma {:induction false} BirthsHold(states: seq<State>, actions: seq<Action>, i: nat)
    requires Run(states, actions) && i < |states|
    ensures BirthsOk(states[i], actions, i)
  {
    if i > 0 {
      BirthsHold(states, actions, i - 1);
      StepsCount(states, actions, i - 1);
      BirthStep(states[i - 1], actions[i - 1], actions, i - 1);
    }
  }

  lemma BirthStep(s: State, a: Action, actions: seq<Action>, i: nat)
    requires i < |actions| && a == actions[i] && Enabled(s, a) && s.step == i + 1 && BirthsOk(s, actions, i)
    ensures BirthsOk(Next(s, a), actions, i + 1)
  {
    var t := Next(s, a);
    forall id, reply | id in t.readers && ReplyOf(t.readers[id], reply)
      ensures BeganAt(actions, reply.born, i + 1)
    {
      if id in s.readers && s.readers[id].Answered? {
        assert ReplyOf(s.readers[id], s.readers[id].reply);
      }
      if id in s.readers && ReplyOf(s.readers[id], reply) {
      }
    }
    if a.Keep? {
      assert ReplyOf(s.readers[a.id], s.readers[a.id].reply);
    }
  }

  /** The caller's own fetch gave this reply before state `i`. */
  predicate Gave(actions: seq<Action>, i: nat, id: nat, reply: Reply) {
    exists e | 0 <= e < i && e < |actions| :: actions[e] == EndFetch(id, true, reply.isNull, reply.content)
  }

  predicate FailedBefore(actions: seq<Action>, i: nat, id: nat) {
    exists e | 0 <= e < i && e < |actions| :: actions[e].EndFetch? && actions[e].id == id && !actions[e].ok
  }

  /** A call that fetched hands back what its own fetch gave, null or not, or its error; what it hands
      in to be stored is the same. */
  lemma {:induction false} OwnReply(states: seq<State>, actions: seq<Action>, i: nat, id: nat)
    requires Run(states, actions) && i < |states| && id in states[i].readers
    ensures var r := states[i].readers[id];
            && (r.Answered? ==> Gave(actions, i, id, r.reply))
            && (r.Done? && r.result.Fetched? ==> Gave(actions, i, id, r.result.reply))
            && (r.Done? && r.result.Failed? ==> FailedBefore(actions, i, id))
  {
    var a := actions[i - 1];
    assert states[i] == Next(states[i - 1], a);
    if id in states[i - 1].readers {
      OwnReply(states, actions, i - 1, id);
    }
  }

  lemma {:induction false} InvalidatedGrows(states: seq<State>, actions: seq<Action>, v: nat, i: nat)
    requires Run(states, actions) && v < |actions| && actions[v].Invalidate? && i < |states|
    ensures i > v ==> states[i].invalidated >= v + 1
  {
    if i > v {
      InvalidatedGrows(states, actions, v, i - 1);
      StepsCount(states, actions, i - 1);
      assert states[i] == Next(states[i - 1], actions[i - 1]);
    }
  }

  lemma {:induction false} NeverCalledBefore(states: seq<State>, actions: seq<Action>, c: nat, id: nat, i: nat)
    requires Run(states, actions) && c < |actions| && actions[c].Call? && actions[c].id == id && i <= c
    ensures id !in states[i].readers
    decreases c - i
  {
    if i < c {
      NeverCalledBefore(states, actions, c, id, i + 1);
      assert states[i + 1] == Next(states[i], actions[i]);
    }
  }

  /** A call made after an invalidation keeps that order in its record. */
  lemma {:induction false} SinceHolds(states: seq<State>, actions: seq<Action>, v: nat, c: nat, id: nat, i: nat)
    requires Run(states, actions) && v < c < i < |states|
    requires actions[v].Invalidate? && actions[c].Call? && actions[c].id == id
    ensures id in states[i].readers && states[i].readers[id].since >= v + 1
  {
    assert states[i] == Next(states[i - 1], actions[i - 1]);
    if i > c + 1 {
      SinceHolds(states, actions, v, c, id, i - 1);
    } else {
      InvalidatedGrows(states, actions, v, c);
    }
  }

  /** A call that starts after an invalidation never returns a reply whose fetch began before it. */
  lemma NoStaleReply(states: seq<State>, actions: seq<Action>, v: nat, c: nat, id: nat, i: nat, reply: Reply)
    requires Run(states, actions) && v < c < |actions| && i < |states|
    requires actions[v].Invalidate? && actions[c].Call? && actions[c].id == id
    requires id in states[i].readers && states[i].readers[id].Done? && ReplyOf(states[i].readers[id], reply)
    ensures exists f :: v < f < i && actions[f].BeginFetch? && reply.born == states[f].step
  {
    if i <= c {
      NeverCalledBefore(states, actions, c, id, i);
    }
    SinceHolds(states, actions, v, c, id, i);
    InvariantHolds(states, actions, i);
    BirthsHold(states, actions, i);
    assert BeganAt(actions, reply.born, i);
    StepsCount(states, actions, reply.born - 1);
    assert actions[reply.born - 1].BeginFetch?;
  }

  /** The settle window of the last invalidation that opened one. */
  function LastWindow(states: seq<State>, actions: seq<Action>, i: nat): Option<Window>
    requires i < |states| && i <= |actions|
  {
    if i == 0 then None
    else
      match actions[i - 1]
      case Invalidate(Some(ms)) => Some(Window(states[i - 1].now, states[i - 1].now + ms))
      case _ => LastWindow(states, actions, i - 1)
  }

  lemma {:induction false} WindowHolds(states: seq<State>, actions: seq<Action>, i: nat)
    requires Run(states, actions) && i < |states|
    ensures states[i].window == LastWindow(states, actions, i)
  {
    if i > 0 {
      WindowHolds(states, actions, i - 1);
      assert states[i] == Next(states[i - 1], actions[i - 1]);
    }
  }

  /** A cached reply served by the look at step `j` is, when looked at, younger than the caller's
      TTL, and younger than `SETTLE_TTL` inside the last settle window. */
  lemma ServedYoung(states: seq<State>, actions: seq<Action>, j: nat, id: nat)
    requires Run(states, actions) && j < |actions| && actions[j] in {FirstLook(id), SecondLook(id)}
    requires id in states[j + 1].readers && states[j + 1].readers[id].Done?
    ensures var r := states[j + 1].readers[id];
            var window := LastWindow(states, actions, j);
            && r.result.Hit?
            && r.ttl == states[j].readers[id].ttl
            && 0 <= r.result.checked - r.result.stored.at < r.ttl
            && (window.Some? && window.value.from <= r.result.checked < window.value.until ==>
                  r.result.checked - r.result.stored.at < SETTLE_TTL)
  {
    InvariantHolds(states, actions, j + 1);
    WindowHolds(states, actions, j);
    assert states[j + 1] == Next(states[j], actions[j]);
  }

  // ---------------------------------------------------------------- what is stored, and when it is served

  /** How many invalidations the first `i` actions hold. */
  function Invalidations(actions: seq<Action>, i: nat): nat
    requires i <= |actions|
  {
    if i == 0 then 0 else Invalidations(actions, i - 1) + (if actions[i - 1].Invalidate? then 1 else 0)
  }

  lemma {:induction false} GenerationCounts(states: seq<State>, actions: seq<Action>, i: nat)
    requires Run(states, actions) && i < |states|
    ensures states[i].slot.generation == Invalidations(actions, i)
  {
    if i > 0 {
      GenerationCounts(states, actions, i - 1);
      assert states[i] == Next(states[i - 1], actions[i - 1]);
    }
  }

  lemma {:induction false} NoneBetween(actions: seq<Action>, k: nat, j: nat)
    requires k < j <= |actions| && !actions[k].Invalidate?
    ensures Invalidations(actions, k) <= Invalidations(actions, j)
    ensures Invalidations(actions, k) == Invalidations(actions, j)
       <==> forall m | k < m < j :: !actions[m].Invalidate?
  {
    if k + 1 < j {
      NoneBetween(actions, k, j - 1);
    }
  }

  /** On its way from the second look to handing in its reply. */
  predicate InFlight(r: Reader) {
    r.Chosen? || r.Fetching? || r.Answered?
  }

  predicate WithClock(r: Reader) {
    r.Timed? || InFlight(r)
  }

  /** A fetch is dated by the clock its caller read, and belongs to the generation of its second look. */
  lemma {:induction false} Origin(states: seq<State>, actions: seq<Action>, i: nat, id: nat) returns (c: nat, k: nat)
    requires Run(states, actions) && i < |states| && id in states[i].readers && WithClock(states[i].readers[id])
    ensures var r := states[i].readers[id];
            && c < i && actions[c] == ReadClock(id) && r.started == states[c].now
            && (InFlight(r) ==> c < k < i && actions[k] == SecondLook(id) && r.generation == Invalidations(actions, k))
  {
    assert states[i] == Next(states[i - 1], actions[i - 1]);
    k := i - 1;
    if actions[i - 1] == ReadClock(id) {
      c := i - 1;
    } else {
      ghost var k0: nat;
      c, k0 := Origin(states, actions, i - 1, id);
      if actions[i - 1] == SecondLook(id) {
        GenerationCounts(states, actions, i - 1);
      } else {
        k := k0;
      }
    }
  }

  /** After its second look a reader never looks again. */
  lemma {:induction false} AfterSecondLook(states: seq<State>, actions: seq<Action>, k: nat, i: nat, id: nat)
    requires Run(states, actions) && k < i < |states| && actions[k] == SecondLook(id)
    ensures id in states[i].readers
    ensures var r := states[i].readers[id];
            r.Done? || (InFlight(r) && r.generation == Invalidations(actions, k))
    decreases i
  {
    assert states[i] == Next(states[i - 1], actions[i - 1]);
    GenerationCounts(states, actions, k);
    if i > k + 1 {
      AfterSecondLook(states, actions, k, i - 1, id);
    }
  }

  /** The caller's second look, before step `j`, was after the last invalidation. */
  predicate Current(actions: seq<Action>, id: nat, j: nat)
    requires j <= |actions|
  {
    exists k | 0 <= k < j && actions[k] == SecondLook(id) :: forall m | k < m < j :: !actions[m].Invalidate?
  }

  /** The newest reply that was handed in without an invalidation since its caller's second look,
      unless one has come later. */
  function Latest(states: seq<State>, actions: seq<Action>, i: nat): Option<Stored>
    requires |states| == |actions| + 1 && i <= |actions|
  {
    if i == 0 then None
    else
      match actions[i - 1]
      case Invalidate(_) => None
      case Keep(id) =>
        if && id in states[i - 1].readers && states[i - 1].readers[id].Answered?
           && !states[i - 1].readers[id].reply.isNull && Current(actions, id, i - 1)
        then Some(Stored(states[i - 1].readers[id].started, states[i - 1].readers[id].reply))
        else Latest(states, actions, i - 1)
      case _ => Latest(states, actions, i - 1)
  }

  lemma CurrentExactly(states: seq<State>, actions: seq<Action>, j: nat, id: nat)
    requires Run(states, actions) && j < |actions| && id in states[j].readers && states[j].readers[id].Answered?
    ensures Current(actions, id, j) <==> states[j].readers[id].generation == states[j].slot.generation
  {
    GenerationCounts(states, actions, j);
    var c, k := Origin(states, actions, j, id);
    NoneBetween(actions, k, j);
    if l :| 0 <= l < j && actions[l] == SecondLook(id) && forall m | l < m < j :: !actions[m].Invalidate? {
      AfterSecondLook(states, actions, l, j, id);
      NoneBetween(actions, l, j);
    }
  }

  /** What is stored is exactly that, over every run. */
  lemma {:induction false} StoredExactly(states: seq<State>, actions: seq<Action>, i: nat)
    requires Run(states, actions) && i < |states|
    ensures states[i].slot.value == Latest(states, actions, i)
  {
    if i > 0 {
      StoredExactly(states, actions, i - 1);
      assert states[i] == Next(states[i - 1], actions[i - 1]);
      if actions[i - 1].Keep? {
        CurrentExactly(states, actions, i - 1, actions[i - 1].id);
      }
    }
  }

  /** The instant a look takes for now. */
  function LookedAt(s: State, a: Action): int
    requires Enabled(s, a) && (a.FirstLook? || a.SecondLook?)
  {
    if a.FirstLook? then s.now else s.readers[a.id].started
  }

  /** A look is served from the cache if and only if a reply is stored that is younger than the
      caller's TTL and, before the end of the last settle window, than `SETTLE_TTL`; then with that
      reply. Otherwise the caller goes on. */
  lemma HitExactly(states: seq<State>, actions: seq<Action>, j: nat, id: nat)
    requires Run(states, actions) && j < |actions| && actions[j] in {FirstLook(id), SecondLook(id)}
    ensures id in states[j].readers && id in states[j + 1].readers
    ensures var stored, window := Latest(states, actions, j), LastWindow(states, actions, j);
            var now := LookedAt(states[j], actions[j]);
            var r, r' := states[j].readers[id], states[j + 1].readers[id];
            && (r'.Done? <==>
                  && stored.Some? && now - stored.value.at < r.ttl
                  && (window.Some? && now < window.value.until ==> now - stored.value.at < SETTLE_TTL))
            && (r'.Done? ==> r'.result == Hit(stored.value, now, window))
            && (!r'.Done? ==> if actions[j].FirstLook? then r'.Waiting? else r'.Chosen?)
  {
    InvariantHolds(states, actions, j);
    WindowHolds(states, actions, j);
    StoredExactly(states, actions, j);
    assert Enabled(states[j], actions[j]) && states[j + 1] == Next(states[j], actions[j]);
  }
}
