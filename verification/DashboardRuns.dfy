/** Any number of dashboard viewers and publishers, one atomic step at a time
    (zte-agent/src/dashboard.rs). A viewer asks to be notified, then reads the feed under its lock,
    then sends what changed or waits for a notification or the heartbeat. */
module DashboardRuns {
  import opened Wrappers
  import opened Dashboard

  datatype Pc = Top | Armed | Waiting

  /** `previous` is the last snapshot a frame was made from, `shown` all frames sent so far folded
      into one; `woken` tells that readers were notified since the viewer asked. */
  datatype Viewer = Viewer(interests: Interests, pc: Pc, woken: bool, previous: Readings, shown: Readings)

  /** `period` counts how often the last viewer left; `taken` is the period in which the sampling of
      each held reading began. */
  datatype World = World(feed: Feed, viewers: map<int, Viewer>, period: nat, taken: map<string, nat>)

  const START := World(EMPTY, map[], 0, map[])

  datatype Action =
    | Subscribe(id: int, interests: Interests)
    | Ask(id: int)
    | Look(id: int)
    | Resume(id: int)
    | Leave(id: int)
    | Publish(news: seq<(string, int)>, sampledIn: nat)
    | Refresh

  function Entitled(readings: Readings, interests: Interests): Readings {
    map k | k in readings && Includes(interests, k) :: readings[k]
  }

  function Delta(previous: Readings, current: Readings): Readings {
    map k | k in current && !(k in previous && previous[k] == current[k]) :: current[k]
  }

  /** Notifying reaches every viewer that has asked. */
  function Woken(viewers: map<int, Viewer>): map<int, Viewer> {
    map id | id in viewers :: if viewers[id].pc == Top then viewers[id] else viewers[id].(woken := true)
  }

  function StillTaken(taken: map<string, nat>, readings: Readings): map<string, nat> {
    map k | k in taken && k in readings :: taken[k]
  }

  /** A value that did not change keeps the sample it came from. */
  function NowTaken(taken: map<string, nat>, before: Readings, after: Readings, sampledIn: nat): map<string, nat> {
    map k | k in after :: if k in before && before[k] == after[k] && k in taken then taken[k] else sampledIn
  }

  predicate Enabled(w: World, a: Action) {
    match a
    case Subscribe(id, _) => id !in w.viewers
    case Ask(id) => id in w.viewers && w.viewers[id].pc == Top
    case Look(id) => id in w.viewers && w.viewers[id].pc == Armed
    // A notification or the heartbeat.
    case Resume(id) => id in w.viewers && w.viewers[id].pc == Waiting
    case Leave(id) => id in w.viewers
    case Publish(_, sampledIn) => sampledIn <= w.period
    case Refresh => true
  }

  /** Reading the feed under its lock: a frame with what changed, or waiting. */
  function Looked(v: Viewer, readings: Readings): Viewer {
    var current := Entitled(readings, v.interests);
    var changes := Delta(v.previous, current);
    if changes != map[] then v.(pc := Top, previous := current, shown := v.shown + changes) else v.(pc := Waiting)
  }

  /** A live subscription always holds its slots (`LiveHoldsSlot`). */
  function Left(w: World, id: int): World
    requires id in w.viewers
  {
    if HoldsSlot(w.feed, w.viewers[id].interests) then LeftWith(w, id, Dropped(w.feed, w.viewers[id].interests)) else w
  }

  function LeftWith(w: World, id: int, feed: Feed): World {
    World(feed, w.viewers - {id}, if feed.clients == 0 then w.period + 1 else w.period,
          StillTaken(w.taken, feed.readings))
  }

  function After(w: World, feed: Feed, updated: bool, sampledIn: nat): World {
    World(feed, if updated then Woken(w.viewers) else w.viewers, w.period,
          NowTaken(w.taken, w.feed.readings, feed.readings, sampledIn))
  }

  function Apply(w: World, a: Action): World
    requires Counted(w.feed) && Enabled(w, a)
  {
    match a
    case Subscribe(id, interests) =>
      if w.feed.clients >= MAX_STREAMS then w
      else w.(feed := Subscribed(w.feed, interests),
              viewers := Woken(w.viewers)[id := Viewer(interests, Top, false, map[], map[])])
    case Ask(id) => w.(viewers := w.viewers[id := w.viewers[id].(pc := Armed, woken := false)])
    case Look(id) => w.(viewers := w.viewers[id := Looked(w.viewers[id], w.feed.readings)])
    case Resume(id) => w.(viewers := w.viewers[id := w.viewers[id].(pc := Top)])
    case Leave(id) => Left(w, id)
    case Publish(news, sampledIn) =>
      After(w, Published(w.feed, news), w.feed.clients > 0 && Updates(w.feed, news), sampledIn)
    case Refresh => w.(viewers := Woken(w.viewers))
  }

  // ---------------------------------------------------------------- the invariant

  function SmsViewers(viewers: map<int, Viewer>): set<int> {
    set id | id in viewers && viewers[id].interests.sms
  }

  function TopicViewers(viewers: map<int, Viewer>, topic: nat): set<int> {
    set id | id in viewers && topic in viewers[id].interests.extras
  }

  /** The counters are the live subscriptions. */
  predicate CountersExact(f: Feed, viewers: map<int, Viewer>) {
    && Counted(f) && f.clients == |viewers| <= MAX_STREAMS && f.smsClients == |SmsViewers(viewers)|
    && forall i | 0 <= i < TOPICS :: f.extraClients[i] == |TopicViewers(viewers, i)|
  }

  /** A reading is held only while a live subscription wants it. */
  predicate Wanted(viewers: map<int, Viewer>, name: string) {
    && viewers != map[]
    && (IsSms(name) ==> SmsViewers(viewers) != {})
    && (ExtraTopic(name).Some? ==> TopicViewers(viewers, ExtraTopic(name).value) != {})
  }

  predicate UpToDate(shown: Readings, current: Readings) {
    forall k | k in current :: k in shown && shown[k] == current[k]
  }

  predicate ViewerOk(v: Viewer, readings: Readings) {
    && UpToDate(v.shown, v.previous)
    && (forall k | k in v.shown :: Includes(v.interests, k))
    && (v.pc == Waiting && !v.woken ==> UpToDate(v.previous, Entitled(readings, v.interests)))
  }

  predicate Inv(w: World) {
    && CountersExact(w.feed, w.viewers)
    && (forall k | k in w.feed.readings :: Wanted(w.viewers, k))
    && w.taken.Keys == w.feed.readings.Keys
    && forall id | id in w.viewers :: ViewerOk(w.viewers[id], w.feed.readings)
  }

  // ---------------------------------------------------------------- counting subscriptions

  lemma InSome(id: int, s: set<int>)
    requires id in s
    ensures |s| > 0
  {}

  lemma LiveHoldsSlot(w: World, id: int)
    requires Inv(w) && id in w.viewers
    ensures HoldsSlot(w.feed, w.viewers[id].interests)
  {
    hide ViewerOk, Wanted;
    InSome(id, w.viewers.Keys);
    assert |w.viewers.Keys| == |w.viewers|;
    if w.viewers[id].interests.sms {
      InSome(id, SmsViewers(w.viewers));
    }
    forall i | 0 <= i < TOPICS && i in w.viewers[id].interests.extras
      ensures w.feed.extraClients[i] > 0
    {
      InSome(id, TopicViewers(w.viewers, i));
    }
  }

  lemma SameKeys(a: map<int, Viewer>, b: map<int, Viewer>)
    requires a.Keys == b.Keys
    ensures |a| == |b|
  {
    assert |a| == |a.Keys| && |b| == |b.Keys|;
  }

  /** Steps of a viewer change neither who is subscribed nor to what. */
  predicate SameSubscriptions(a: map<int, Viewer>, b: map<int, Viewer>) {
    a.Keys == b.Keys && forall id | id in a :: a[id].interests == b[id].interests
  }

  lemma SameMembers(a: map<int, Viewer>, b: map<int, Viewer>)
    requires SameSubscriptions(a, b)
    ensures SmsViewers(a) == SmsViewers(b)
    ensures forall i: nat :: TopicViewers(a, i) == TopicViewers(b, i)
  {
    assert forall id :: id in a.Keys <==> id in b.Keys;
    forall id
      ensures id in SmsViewers(a) <==> id in SmsViewers(b)
    {
      if id in a {
        assert a[id].interests == b[id].interests;
      }
    }
    forall i: nat
      ensures TopicViewers(a, i) == TopicViewers(b, i)
    {
      forall id
        ensures id in TopicViewers(a, i) <==> id in TopicViewers(b, i)
      {
        if id in a {
          assert a[id].interests == b[id].interests;
        }
      }
    }
  }

  lemma SameCounts(a: map<int, Viewer>, b: map<int, Viewer>)
    requires SameSubscriptions(a, b)
    ensures |a| == |b| && SmsViewers(a) == SmsViewers(b)
    ensures forall i: nat :: TopicViewers(a, i) == TopicViewers(b, i)
    ensures (a == map[]) == (b == map[])
  {
    SameKeys(a, b);
    SameMembers(a, b);
    assert a == map[] <==> a.Keys == {};
    assert b == map[] <==> b.Keys == {};
  }

  /** One more subscription, in `b`, than in `a`. */
  lemma OneMore(a: map<int, Viewer>, b: map<int, Viewer>, id: int)
    requires id !in a && id in b && SameSubscriptions(a, b - {id})
    ensures |b| == |a| + 1
    ensures SmsViewers(b) == SmsViewers(a) + (if b[id].interests.sms then {id} else {}) && id !in SmsViewers(a)
    ensures forall i: nat :: TopicViewers(b, i)
                             == TopicViewers(a, i) + (if i in b[id].interests.extras then {id} else {})
                             && id !in TopicViewers(a, i)
  {
    assert b.Keys == a.Keys + {id};
    assert |b| == |b.Keys| && |a| == |a.Keys|;
    SameMembers(a, b - {id});
    Without(b, id);
  }

  lemma Without(b: map<int, Viewer>, id: int)
    requires id in b
    ensures SmsViewers(b) == SmsViewers(b - {id}) + (if b[id].interests.sms then {id} else {})
    ensures id !in SmsViewers(b - {id})
    ensures forall i: nat :: TopicViewers(b, i)
                             == TopicViewers(b - {id}, i) + (if i in b[id].interests.extras then {id} else {})
                             && id !in TopicViewers(b - {id}, i)
  {}

  lemma SubscribeCounts(f: Feed, a: map<int, Viewer>, b: map<int, Viewer>, id: int)
    requires CountersExact(f, a) && f.clients < MAX_STREAMS
    requires id !in a && id in b && SameSubscriptions(a, b - {id})
    ensures CountersExact(Subscribed(f, b[id].interests), b)
    ensures forall k | Wanted(a, k) :: Wanted(b, k)
  {
    hide IsSms, ExtraTopic, SmsViewers, TopicViewers, SameSubscriptions;
    OneMore(a, b, id);
    assert b != map[];
  }

  lemma LeaveCounts(f: Feed, a: map<int, Viewer>, id: int)
    requires CountersExact(f, a) && id in a && HoldsSlot(f, a[id].interests)
    ensures CountersExact(Dropped(f, a[id].interests), a - {id})
  {
    hide IsSms, ExtraTopic, SmsViewers, TopicViewers, StillWanted;
    var rest, after := a - {id}, Dropped(f, a[id].interests);
    OneMore(rest, a, id);
    forall i | 0 <= i < TOPICS
      ensures after.extraClients[i] == |TopicViewers(rest, i)|
    {
      assert TopicViewers(a, i) == TopicViewers(rest, i) + (if i in a[id].interests.extras then {id} else {});
    }
  }

  /** What stays held when a viewer leaves is still wanted by another. */
  lemma LeaveWanted(f: Feed, a: map<int, Viewer>, id: int, name: string)
    requires CountersExact(f, a) && id in a && HoldsSlot(f, a[id].interests)
    requires Wanted(a, name) && name in Dropped(f, a[id].interests).readings
    ensures Wanted(a - {id}, name)
  {
    hide IsSms, ExtraTopic, SmsViewers, TopicViewers;
    var rest := a - {id};
    OneMore(rest, a, id);
    assert f.clients > 1;
    assert rest != map[];
    if IsSms(name) && a[id].interests.sms {
      assert |SmsViewers(a)| == f.smsClients > 1;
    }
    if ExtraTopic(name).Some? {
      var i := ExtraTopic(name).value;
      if i in a[id].interests.extras {
        assert |TopicViewers(a, i)| == f.extraClients[i] > 1;
      }
    }
  }

  // ---------------------------------------------------------------- what each step keeps

  lemma WokenKeeps(viewers: map<int, Viewer>, readings: Readings, after: Readings)
    requires forall id | id in viewers :: ViewerOk(viewers[id], readings)
    ensures forall id | id in Woken(viewers) :: ViewerOk(Woken(viewers)[id], after)
    ensures SameSubscriptions(viewers, Woken(viewers))
  {
    hide Includes;
  }

  /** A frame brings a viewer up to date with what it was made from. */
  lemma LookedOk(v: Viewer, readings: Readings)
    requires ViewerOk(v, readings) && v.pc == Armed
    ensures ViewerOk(Looked(v, readings), readings)
    ensures Looked(v, readings).interests == v.interests
    ensures UpToDate(Looked(v, readings).shown, Entitled(readings, v.interests))
  {
    hide Includes;
    var current := Entitled(readings, v.interests);
    var changes := Delta(v.previous, current);
    if changes == map[] {
      forall k | k in current
        ensures k in v.previous && v.previous[k] == current[k]
      {
        assert k !in changes;
      }
    }
  }

  /** Removing readings leaves viewers as up to date as they were. */
  lemma FewerOk(v: Viewer, readings: Readings, after: Readings)
    requires ViewerOk(v, readings)
    requires forall k | k in after :: k in readings && after[k] == readings[k]
    ensures ViewerOk(v, after)
  {
    hide Includes;
  }

  lemma SubscribeKeeps(w: World, id: int, interests: Interests)
    requires Inv(w) && Enabled(w, Subscribe(id, interests))
    ensures Inv(Apply(w, Subscribe(id, interests)))
  {
    hide CountersExact, Wanted, ViewerOk, Subscribed, Counted;
    if w.feed.clients < MAX_STREAMS {
      assert Counted(w.feed) by { CountersAreCounted(w); }
      var w' := Apply(w, Subscribe(id, interests));
      WokenKeeps(w.viewers, w.feed.readings, w.feed.readings);
      assert w'.viewers - {id} == Woken(w.viewers);
      SubscribeCounts(w.feed, w.viewers, w'.viewers, id);
      SubscribedReadings(w.feed, interests);
      NewViewerOk(interests, w.feed.readings);
    }
  }

  lemma CountersAreCounted(w: World)
    requires CountersExact(w.feed, w.viewers)
    ensures Counted(w.feed)
  {}

  lemma SubscribedReadings(f: Feed, interests: Interests)
    requires Counted(f)
    ensures Subscribed(f, interests).readings == f.readings
  {}

  lemma NewViewerOk(interests: Interests, readings: Readings)
    ensures ViewerOk(Viewer(interests, Top, false, map[], map[]), readings)
  {}

  /** A viewer's own step. */
  lemma ViewerStepKeeps(w: World, id: int, v: Viewer)
    requires Inv(w) && id in w.viewers && v.interests == w.viewers[id].interests
    requires ViewerOk(v, w.feed.readings)
    ensures Inv(w.(viewers := w.viewers[id := v]))
  {
    hide ViewerOk, IsSms, ExtraTopic, SmsViewers, TopicViewers;
    SameCounts(w.viewers, w.viewers[id := v]);
  }

  lemma LeaveKeeps(w: World, id: int)
    requires Inv(w) && id in w.viewers
    ensures Inv(Apply(w, Leave(id)))
  {
    hide CountersExact, Wanted, ViewerOk, IsSms, ExtraTopic;
    LiveHoldsSlot(w, id);
    var interests := w.viewers[id].interests;
    LeaveCounts(w.feed, w.viewers, id);
    var after := Dropped(w.feed, interests).readings;
    forall k | k in after
      ensures Wanted(w.viewers - {id}, k)
    {
      LeaveWanted(w.feed, w.viewers, id, k);
    }
    forall j | j in w.viewers && j != id
      ensures ViewerOk(w.viewers[j], after)
    {
      FewerOk(w.viewers[j], w.feed.readings, after);
    }
  }

  /** News is only taken if it is wanted. */
  lemma {:induction false} MergedWanted(f: Feed, viewers: map<int, Viewer>, news: seq<(string, int)>)
    requires CountersExact(f, viewers) && f.clients > 0
    requires forall k | k in f.readings :: Wanted(viewers, k)
    ensures forall k | k in Merged(f, news) :: Wanted(viewers, k)
  {
    hide IsSms, ExtraTopic, SmsViewers, TopicViewers;
    if news != [] {
      MergedWanted(f, viewers, news[..|news| - 1]);
      var name := news[|news| - 1].0;
      if Accepts(f, name) {
        assert viewers != map[];
        if IsSms(name) {
          assert |SmsViewers(viewers)| > 0;
        }
        if ExtraTopic(name).Some? {
          assert |TopicViewers(viewers, ExtraTopic(name).value)| > 0;
        }
      }
    }
  }

  lemma PublishKeeps(w: World, news: seq<(string, int)>, sampledIn: nat)
    requires Inv(w)
    requires Enabled(w, Publish(news, sampledIn))
    ensures Inv(Apply(w, Publish(news, sampledIn)))
  {
    hide CountersExact, Wanted, ViewerOk, Counted, Updates, Merged;
    CountersAreCounted(w);
    if w.feed.clients > 0 && Updates(w.feed, news) {
      MergedWanted(w.feed, w.viewers, news);
      WokenKeeps(w.viewers, w.feed.readings, Merged(w.feed, news));
      WokenCounts(w.feed, w.viewers, Published(w.feed, news));
    }
  }

  lemma WokenCounts(f: Feed, viewers: map<int, Viewer>, after: Feed)
    requires CountersExact(f, viewers)
    requires after == f.(readings := after.readings, generation := after.generation)
    requires SameSubscriptions(viewers, Woken(viewers))
    ensures CountersExact(after, Woken(viewers))
    ensures forall k | Wanted(viewers, k) :: Wanted(Woken(viewers), k)
  {
    hide IsSms, ExtraTopic, SmsViewers, TopicViewers;
    SameCounts(viewers, Woken(viewers));
  }

  lemma ApplyKeeps(w: World, a: Action)
    requires Inv(w) && Enabled(w, a)
    ensures Inv(Apply(w, a))
  {
    match a {
      case Subscribe(id, interests) => SubscribeKeeps(w, id, interests);
      case Ask(id) => ViewerStepKeeps(w, id, w.viewers[id].(pc := Armed, woken := false));
      case Look(id) =>
        LookedOk(w.viewers[id], w.feed.readings);
        ViewerStepKeeps(w, id, Looked(w.viewers[id], w.feed.readings));
      case Resume(id) => ViewerStepKeeps(w, id, w.viewers[id].(pc := Top));
      case Leave(id) => LeaveKeeps(w, id);
      case Publish(news, sampledIn) => PublishKeeps(w, news, sampledIn);
      case Refresh => RefreshKeeps(w);
    }
  }

  lemma RefreshKeeps(w: World)
    requires Inv(w)
    ensures Inv(Apply(w, Refresh))
  {
    hide CountersExact, Wanted, ViewerOk;
    WokenKeeps(w.viewers, w.feed.readings, w.feed.readings);
    WokenCounts(w.feed, w.viewers, w.feed);
  }

  // ---------------------------------------------------------------- whole runs

  predicate Next(w: World, a: Action, w': World) {
    Counted(w.feed) && Enabled(w, a) && w' == Apply(w, a)
  }

  predicate Run(ws: seq<World>, actions: seq<Action>) {
    && |ws| == |actions| + 1 && ws[0] == START
    && forall i | 0 <= i < |actions| :: Next(ws[i], actions[i], ws[i + 1])
  }

  lemma StartHolds()
    ensures Inv(START)
  {
    assert SmsViewers(map[]) == {};
    assert forall i: nat :: TopicViewers(map[], i) == {};
  }

  lemma {:induction false} InvariantHolds(ws: seq<World>, actions: seq<Action>, n: nat)
    requires Run(ws, actions) && n < |ws|
    ensures Inv(ws[n])
  {
    hide Inv, Apply, Enabled;
    if n == 0 {
      StartHolds();
    } else {
      InvariantHolds(ws, actions, n - 1);
      var a := actions[n - 1];
      assert Next(ws[n - 1], a, ws[n - 1 + 1]);
      ApplyKeeps(ws[n - 1], a);
    }
  }

  /** In every reachable state the counters are the live subscriptions, and no reading is held that
      none of them may be sent. */
  lemma OnlyWantedReadings(ws: seq<World>, actions: seq<Action>, n: nat)
    requires Run(ws, actions) && n < |ws|
    ensures CountersExact(ws[n].feed, ws[n].viewers)
    ensures forall k | k in ws[n].feed.readings :: Wanted(ws[n].viewers, k)
  {
    InvariantHolds(ws, actions, n);
  }

  /** No change is missed: whenever a viewer waits and has not been notified, all the frames it was
      sent, folded, agree with every reading it may see; and it is never sent any other. */
  lemma WaitingIsUpToDate(ws: seq<World>, actions: seq<Action>, n: nat, id: int)
    requires Run(ws, actions) && n < |ws| && id in ws[n].viewers
    ensures var v := ws[n].viewers[id];
            && (v.pc == Waiting && !v.woken ==> UpToDate(v.shown, Entitled(ws[n].feed.readings, v.interests)))
            && (forall k | k in v.shown :: Includes(v.interests, k))
  {
    hide CountersExact, Wanted, Includes;
    InvariantHolds(ws, actions, n);
    assert ViewerOk(ws[n].viewers[id], ws[n].feed.readings);
  }

  /** A viewer is never sent a reading of a topic it did not ask for, nor messages unless it asked for
      them. */
  lemma OnlyWhatItAsked(ws: seq<World>, actions: seq<Action>, n: nat, id: int, name: string, topic: nat)
    requires Run(ws, actions) && n < |ws| && id in ws[n].viewers && topic < TOPICS
    requires name in ws[n].viewers[id].shown
    ensures var interests := ws[n].viewers[id].interests;
            && (name in {"sms", "sms_capacity"} ==> interests.sms)
            && (name in TOPIC_READINGS[topic].1 ==> topic in interests.extras)
  {
    hide Run, ExtraTopic;
    WaitingIsUpToDate(ws, actions, n, id);
    TopicExactly(name, topic);
  }

  /** A viewer that looks is sent something exactly if a reading it may see differs from what its last
      frame was made from, and then exactly these readings; otherwise it waits. */
  lemma LookExactly(v: Viewer, readings: Readings)
    ensures var looked := Looked(v, readings); var current := Entitled(readings, v.interests);
            && (looked.pc == Waiting <==> UpToDate(v.previous, current))
            && (looked.pc == Waiting ==> looked == v.(pc := Waiting))
            && (looked.pc != Waiting ==>
                  && looked.pc == Top && looked.previous == current
                  && forall k :: At(looked.shown, k) == if k in current && At(v.previous, k) != At(current, k)
                                                        then At(current, k) else At(v.shown, k))
  {
    hide Includes;
    var current := Entitled(readings, v.interests);
    var changes := Delta(v.previous, current);
    if UpToDate(v.previous, current) {
      assert changes == map[];
    } else {
      var k :| k in current && !(k in v.previous && v.previous[k] == current[k]);
      assert k in changes;
    }
  }

  /** A subscription is refused exactly when eight are live. */
  lemma SubscribeExactly(ws: seq<World>, actions: seq<Action>, n: nat)
    requires Run(ws, actions) && n < |actions| && actions[n].Subscribe?
    ensures actions[n].id in ws[n + 1].viewers <==> |ws[n].viewers| < MAX_STREAMS
  {
    hide Wanted, ViewerOk, Subscribed;
    InvariantHolds(ws, actions, n);
    assert Next(ws[n], actions[n], ws[n + 1]);
  }

  // ---------------------------------------------------------------- what is held

  /** Some live subscription may be sent the reading. */
  predicate Someone(viewers: map<int, Viewer>, name: string) {
    exists id | id in viewers :: Includes(viewers[id].interests, name)
  }

  /** The reading as the run has it: the last value published while someone wanted it, from when on
      someone always has. */
  function Held(ws: seq<World>, actions: seq<Action>, n: nat, name: string): Option<int>
    requires |ws| == |actions| + 1 && n <= |actions|
  {
    if n == 0 then None
    else
      var before, a := Held(ws, actions, n - 1, name), actions[n - 1];
      if a.Publish? && Someone(ws[n - 1].viewers, name) && Said(a.news, name).Some? then Said(a.news, name)
      else if a.Leave? && !Someone(ws[n].viewers, name) then None
      else before
  }

  function At(readings: Readings, name: string): Option<int> {
    if name in readings then Some(readings[name]) else None
  }

  lemma PrivateOnce(name: string)
    requires IsSms(name)
    ensures ExtraTopic(name).None?
  {}

  lemma Member(s: set<int>) returns (x: int)
    requires s != {}
    ensures x in s
  {
    if forall y :: y !in s {
      Empty(s);
    }
    x :| x in s;
  }

  lemma Empty(s: set<int>)
    requires forall y :: y !in s
    ensures s == {}
  {
    assert forall y :: y in s <==> y in {};
  }

  lemma WantedBy(viewers: map<int, Viewer>, name: string, id: int)
    requires id in viewers && Includes(viewers[id].interests, name)
    ensures Wanted(viewers, name)
  {
    hide IsSms, ExtraTopic;
    assert IsSms(name) ==> id in SmsViewers(viewers);
    assert ExtraTopic(name).Some? ==> id in TopicViewers(viewers, ExtraTopic(name).value);
  }

  /** Wanted by the counters' sets is wanted by someone. */
  lemma WantedIsSomeone(viewers: map<int, Viewer>, name: string)
    ensures Wanted(viewers, name) <==> Someone(viewers, name)
  {
    hide IsSms, ExtraTopic;
    if IsSms(name) {
      PrivateOnce(name);
    }
    if Wanted(viewers, name) {
      var ids := if IsSms(name) then SmsViewers(viewers)
                 else if ExtraTopic(name).Some? then TopicViewers(viewers, ExtraTopic(name).value)
                 else viewers.Keys;
      assert viewers.Keys != {} && ids != {};
      var id := Member(ids);
      assert Includes(viewers[id].interests, name);
    } else if id :| id in viewers && Includes(viewers[id].interests, name) {
      WantedBy(viewers, name, id);
    }
  }

  lemma AcceptsWanted(f: Feed, viewers: map<int, Viewer>, name: string)
    requires CountersExact(f, viewers)
    ensures f.clients > 0 && Accepts(f, name) <==> Wanted(viewers, name)
  {
    hide IsSms, ExtraTopic, SmsViewers, TopicViewers;
    assert |viewers| == 0 <==> viewers == map[];
    assert |SmsViewers(viewers)| == 0 <==> SmsViewers(viewers) == {};
    if ExtraTopic(name).Some? {
      var i := ExtraTopic(name).value;
      assert |TopicViewers(viewers, i)| == 0 <==> TopicViewers(viewers, i) == {};
    }
  }

  lemma PublishHeld(w: World, news: seq<(string, int)>, sampledIn: nat, name: string)
    requires Inv(w) && sampledIn <= w.period
    ensures At(Apply(w, Publish(news, sampledIn)).feed.readings, name)
         == if Someone(w.viewers, name) && Said(news, name).Some? then Said(news, name) else At(w.feed.readings, name)
  {
    hide Wanted, ViewerOk, IsSms, ExtraTopic, CountersExact, Updates, Accepts, Merged, Someone, Counted;
    CountersAreCounted(w);
    AcceptsWanted(w.feed, w.viewers, name);
    WantedIsSomeone(w.viewers, name);
    MergedAt(w.feed, news, name);
    if !Updates(w.feed, news) {
      NoUpdate(w.feed, news);
    }
  }

  lemma DroppedAt(f: Feed, a: map<int, Viewer>, id: int, name: string)
    requires CountersExact(f, a) && id in a && HoldsSlot(f, a[id].interests)
    requires name in f.readings ==> Wanted(a, name)
    ensures At(Dropped(f, a[id].interests).readings, name)
         == if Wanted(a - {id}, name) then At(f.readings, name) else None
  {
    hide IsSms, ExtraTopic, SmsViewers, TopicViewers;
    var rest := a - {id};
    OneMore(rest, a, id);
    if name in Dropped(f, a[id].interests).readings {
      LeaveWanted(f, a, id, name);
    }
  }

  lemma LeaveHeld(w: World, id: int, name: string)
    requires Inv(w) && id in w.viewers
    ensures var w' := Apply(w, Leave(id));
            At(w'.feed.readings, name) == if Someone(w'.viewers, name) then At(w.feed.readings, name) else None
  {
    hide CountersExact, Wanted, ViewerOk, IsSms, ExtraTopic, Someone;
    LiveHoldsSlot(w, id);
    DroppedAt(w.feed, w.viewers, id, name);
    WantedIsSomeone(w.viewers - {id}, name);
  }

  lemma StepHeld(w: World, a: Action, name: string)
    requires Inv(w) && Enabled(w, a) && !a.Publish? && !a.Leave?
    ensures Apply(w, a).feed.readings == w.feed.readings
  {
    hide ViewerOk, Wanted;
  }

  /** What is held is exactly what was last published for a reading while some live subscription
      wanted it, until another value is, or until nobody wants it any more. */
  lemma {:induction false} HeldExactly(ws: seq<World>, actions: seq<Action>, n: nat, name: string)
    requires Run(ws, actions) && n < |ws|
    ensures At(ws[n].feed.readings, name) == Held(ws, actions, n, name)
  {
    hide Inv, Apply, Someone, Said, At;
    if n == 0 {
      NothingHeld(name);
    } else {
      HeldExactly(ws, actions, n - 1, name);
      InvariantHolds(ws, actions, n - 1);
      var w, a := ws[n - 1], actions[n - 1];
      assert Next(w, a, ws[n - 1 + 1]);
      match a
      case Publish(news, sampledIn) => PublishHeld(w, news, sampledIn, name);
      case Leave(id) => LeaveHeld(w, id, name);
      case _ => StepHeld(w, a, name);
    }
  }

  lemma NothingHeld(name: string)
    ensures At(START.feed.readings, name) == None
  {}

  // ---------------------------------------------------------------- readings from before an idle period

  /** Every reading held was sampled since the last time nobody watched. */
  predicate AllFresh(w: World) {
    forall k | k in w.taken :: w.taken[k] == w.period
  }

  lemma FreshStep(w: World, a: Action)
    requires Inv(w) && Enabled(w, a) && AllFresh(w)
    requires a.Publish? ==> a.sampledIn == w.period
    ensures AllFresh(Apply(w, a))
  {
    hide Wanted, ViewerOk, IsSms, ExtraTopic, CountersExact, Updates, Merged, StillWanted;
    if a.Leave? {
      LiveHoldsSlot(w, a.id);
    }
    if a.Publish? {
      CountersAreCounted(w);
    }
  }

  /** The last value the news gives for a name. */
  function Said(news: seq<(string, int)>, name: string): Option<int> {
    if news == [] then None
    else if news[|news| - 1].0 == name then Some(news[|news| - 1].1)
    else Said(news[..|news| - 1], name)
  }

  /** Some wanted name ends with a value other than the one held. */
  predicate Differs(f: Feed, news: seq<(string, int)>, name: string)
    requires Counted(f)
  {
    && Accepts(f, name) && Said(news, name).Some?
    && !(name in f.readings && f.readings[name] == Said(news, name).value)
  }

  ghost predicate Novel(f: Feed, news: seq<(string, int)>) {
    Counted(f) && f.clients > 0 && exists name :: Differs(f, news, name)
  }

  lemma {:induction false} MergedAt(f: Feed, news: seq<(string, int)>, name: string)
    requires Counted(f)
    ensures var said := if Accepts(f, name) then Said(news, name) else None;
            && (name in Merged(f, news) <==> said.Some? || name in f.readings)
            && (name in Merged(f, news) ==>
                  Merged(f, news)[name] == if said.Some? then said.value else f.readings[name])
  {
    hide Accepts;
    if news != [] {
      MergedAt(f, news[..|news| - 1], name);
    }
  }

  lemma MergedNovel(f: Feed, news: seq<(string, int)>)
    requires Counted(f) && f.clients > 0
    ensures Merged(f, news) != f.readings <==> Novel(f, news)
  {
    hide Accepts, Merged;
    var after := Merged(f, news);
    if name :| Differs(f, news, name) {
      MergedAt(f, news, name);
    } else {
      forall name
        ensures name in after <==> name in f.readings
        ensures name in after && name in f.readings ==> after[name] == f.readings[name]
      {
        MergedAt(f, news, name);
        assert !Differs(f, news, name);
      }
      assert after.Keys == f.readings.Keys;
    }
  }

  /** A publication keeps that exactly if it was sampled since the last idle period or says nothing
      new of anything wanted: the feed itself does not check. */
  lemma PublishFresh(w: World, news: seq<(string, int)>, sampledIn: nat)
    requires Inv(w) && AllFresh(w) && sampledIn <= w.period
    ensures AllFresh(Apply(w, Publish(news, sampledIn))) <==> sampledIn == w.period || !Novel(w.feed, news)
  {
    hide Wanted, ViewerOk, IsSms, ExtraTopic, CountersExact, Updates, Includes, Accepts, Merged, Differs;
    CountersAreCounted(w);
    var w' := Apply(w, Publish(news, sampledIn));
    if w.feed.clients > 0 {
      MergedNovel(w.feed, news);
      if !Updates(w.feed, news) {
        NoUpdate(w.feed, news);
      }
    }
    if Novel(w.feed, news) && sampledIn != w.period {
      var name :| Differs(w.feed, news, name);
      NovelIsTaken(w, news, sampledIn, name);
    }
  }

  /** Every publication so far was sampled since the last time nobody watched, or said nothing new. */
  ghost predicate TimelyNews(ws: seq<World>, actions: seq<Action>, n: nat)
    requires |ws| == |actions| + 1 && n <= |actions|
  {
    forall i | 0 <= i < n && actions[i].Publish? ::
      actions[i].sampledIn == ws[i].period || !Novel(ws[i].feed, actions[i].news)
  }

  lemma StepFresh(w: World, a: Action)
    requires Inv(w) && Counted(w.feed) && Enabled(w, a) && AllFresh(w)
    ensures AllFresh(Apply(w, a)) <==> (a.Publish? ==> a.sampledIn == w.period || !Novel(w.feed, a.news))
  {
    hide Inv, Apply, Novel;
    if a.Publish? {
      PublishFresh(w, a.news, a.sampledIn);
    } else {
      FreshStep(w, a);
    }
  }

  /** Over a whole run: every reading ever held was sampled since the last idle period if and only if
      every publication was, or said nothing new of anything wanted. */
  lemma {:induction false} FreshExactly(ws: seq<World>, actions: seq<Action>, n: nat)
    requires Run(ws, actions) && n < |ws|
    ensures (forall m | 0 <= m <= n :: AllFresh(ws[m])) <==> TimelyNews(ws, actions, n)
  {
    hide Inv, Apply, Enabled, Novel, AllFresh;
    if n == 0 {
      NothingTaken();
    } else {
      FreshExactly(ws, actions, n - 1);
      InvariantHolds(ws, actions, n - 1);
      var a := actions[n - 1];
      assert Next(ws[n - 1], a, ws[n - 1 + 1]);
      if AllFresh(ws[n - 1]) {
        StepFresh(ws[n - 1], a);
      }
    }
  }

  lemma NothingTaken()
    ensures AllFresh(START)
  {}

  /** Every publication so far was sampled since the last time nobody watched. */
  ghost predicate Timely(ws: seq<World>, actions: seq<Action>, n: nat)
    requires |ws| == |actions| + 1 && n <= |actions|
  {
    forall i | 0 <= i < n && actions[i].Publish? :: actions[i].sampledIn == ws[i].period
  }

  /** Then no viewer is given a reading sampled before an idle period. */
  lemma FreshAfterIdle(ws: seq<World>, actions: seq<Action>, n: nat)
    requires Run(ws, actions) && n < |ws| && Timely(ws, actions, n)
    ensures forall k | k in ws[n].taken :: ws[n].taken[k] == ws[n].period
  {
    hide Run, Novel;
    FreshExactly(ws, actions, n);
    assert AllFresh(ws[n]);
  }

  /** A value that differs dates from its own sample. */
  lemma NovelIsTaken(w: World, news: seq<(string, int)>, sampledIn: nat, name: string)
    requires Inv(w) && sampledIn <= w.period && w.feed.clients > 0 && Counted(w.feed)
    requires Differs(w.feed, news, name)
    ensures var w' := Apply(w, Publish(news, sampledIn)); name in w'.taken && w'.taken[name] == sampledIn
  {
    hide Wanted, ViewerOk, IsSms, ExtraTopic, CountersExact, Updates, Includes, Accepts, Merged, Inv;
    MergedAt(w.feed, news, name);
    if !Updates(w.feed, news) {
      NoUpdate(w.feed, news);
    }
  }

  /** A run in which a viewer is sent a reading sampled before it came, while another viewer that has
      left was watching: the publication comes after both. */
  lemma StaleAfterIdle() returns (ws: seq<World>, actions: seq<Action>)
    ensures Run(ws, actions) && |ws| == 7
    ensures ws[6].feed.clients == 1 && 2 in ws[6].viewers && "device" in ws[6].viewers[2].shown
    ensures "device" in ws[6].taken && ws[6].taken["device"] < ws[6].period
  {
    hide Next;
    var nothing := Interests(false, {});
    actions := [Subscribe(1, nothing), Leave(1), Subscribe(2, nothing), Publish([("device", 5)], 0), Ask(2), Look(2)];
    var w1 := World(Watched(map[], 0), map[1 := Fresh()], 0, map[]);
    var w2 := World(EMPTY, map[], 1, map[]);
    var w3 := World(Watched(map[], 0), map[2 := Fresh()], 1, map[]);
    var feed := Watched(map["device" := 5], 1);
    var w4 := World(feed, map[2 := Fresh()], 1, map["device" := 0]);
    var w5 := World(feed, map[2 := Fresh().(pc := Armed)], 1, map["device" := 0]);
    var shown := Fresh().(previous := map["device" := 5], shown := map["device" := 5]);
    var w6 := World(feed, map[2 := shown], 1, map["device" := 0]);
    ws := [START, w1, w2, w3, w4, w5, w6];
    Joined(START, 1, w1);
    LastLeaves(w1, w2);
    Joined(w2, 2, w3);
    Told(w3, w4);
    Asked(w4, w5);
    Sent(w5, w6);
  }

  function Watched(readings: Readings, generation: nat): Feed {
    Feed(1, 0, EMPTY.extraClients, readings, generation)
  }

  function Fresh(): Viewer {
    Viewer(Interests(false, {}), Top, false, map[], map[])
  }

  lemma Joined(w: World, id: int, w': World)
    requires w == World(EMPTY, map[], w.period, map[])
    requires w' == World(Watched(map[], 0), map[id := Fresh()], w.period, map[])
    ensures Next(w, Subscribe(id, Interests(false, {})), w')
  {
    hide Inv;
    assert Subscribed(EMPTY, Interests(false, {})).extraClients == EMPTY.extraClients;
    assert Woken(map[]) == map[];
  }

  lemma LastLeaves(w: World, w': World)
    requires w == World(Watched(map[], 0), map[1 := Fresh()], 0, map[])
    requires w' == World(EMPTY, map[], 1, map[])
    ensures Next(w, Leave(1), w')
  {
    hide Inv;
    var nothing := Interests(false, {});
    assert HoldsSlot(w.feed, nothing);
    assert Dropped(w.feed, nothing).extraClients == EMPTY.extraClients;
    assert w.viewers - {1} == map[];
    assert Dropped(w.feed, nothing) == EMPTY;
  }

  lemma Told(w: World, w': World)
    requires w == World(Watched(map[], 0), map[2 := Fresh()], 1, map[])
    requires w' == World(Watched(map["device" := 5], 1), map[2 := Fresh()], 1, map["device" := 0])
    ensures Next(w, Publish([("device", 5)], 0), w')
  {
    hide Inv;
    var news: seq<(string, int)> := [("device", 5)];
    assert news[..0] == [];
    assert Accepts(w.feed, "device");
    assert Merged(w.feed, []) == map[] && !Updates(w.feed, []);
    assert Merged(w.feed, news) == map["device" := 5] && Updates(w.feed, news);
    assert Woken(map[2 := Fresh()]) == map[2 := Fresh()];
    assert NowTaken(map[], map[], map["device" := 5], 0) == map["device" := 0];
  }

  lemma Asked(w: World, w': World)
    requires w == World(w.feed, map[2 := Fresh()], 1, w.taken) && Counted(w.feed)
    requires w' == World(w.feed, map[2 := Fresh().(pc := Armed)], 1, w.taken)
    ensures Next(w, Ask(2), w')
  {
    hide Inv;
  }

  lemma Sent(w: World, w': World)
    requires w == World(Watched(map["device" := 5], 1), map[2 := Fresh().(pc := Armed)], 1, w.taken)
    requires w' == w.(viewers := map[2 := Fresh().(previous := map["device" := 5], shown := map["device" := 5])])
    ensures Next(w, Look(2), w')
  {
    hide Inv;
    var v := w.viewers[2];
    var readings: Readings := map["device" := 5];
    assert Includes(v.interests, "device");
    assert Entitled(readings, v.interests) == readings;
    var changes := Delta(map[], readings);
    assert "device" in changes;
    assert changes == readings;
    assert v.shown + changes == readings;
  }
}
