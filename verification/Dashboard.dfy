/** The live dashboard feed (zte-agent/src/dashboard.rs): reference-counted subscriptions, shared
    readings, and viewers that are sent what changed. Values are numbers; a subscription's topics are
    a set of indices. */
module Dashboard {
  import opened Wrappers

  const MAX_STREAMS := 8
  const TOPICS := 13

  type Readings = map<string, int>

  datatype Interests = Interests(sms: bool, extras: set<nat>)

  predicate IsSms(name: string) {
    name == "sms" || name == "sms_capacity"
  }

  function ExtraTopic(name: string): (r: Option<nat>)
    ensures r.Some? ==> r.value < TOPICS
  {
    match name
    case "operators" => Some(0)
    case "forwarding" => Some(1)
    case "resources" => Some(2)
    case "neighbors" => Some(3)
    case "sweep" => Some(3)
    case "speedtest" => Some(4)
    case "at_port" => Some(5)
    case "lan_config" => Some(6)
    case "firewall_config" => Some(6)
    case "upnp_config" => Some(6)
    case "port_rules" => Some(6)
    case "qos_config" => Some(6)
    case "client_details" => Some(7)
    case "esim_status" => Some(8)
    case "battery_details" => Some(9)
    case "https_status" => Some(10)
    case "dns_cache" => Some(11)
    case "ota_status" => Some(12)
    case _ => None
  }

  /** The topics a page can ask for, in the order of their bits, and the readings of each. */
  const TOPIC_READINGS: seq<(string, set<string>)> := [
    ("operators", {"operators"}),
    ("forwarding", {"forwarding"}),
    ("health", {"resources"}),
    ("radio", {"neighbors", "sweep"}),
    ("speedtest", {"speedtest"}),
    ("terminal", {"at_port"}),
    ("routing", {"lan_config", "firewall_config", "upnp_config", "port_rules", "qos_config"}),
    ("clients", {"client_details"}),
    ("esim", {"esim_status"}),
    ("power", {"battery_details"}),
    ("https", {"https_status"}),
    ("dns", {"dns_cache"}),
    ("ota", {"ota_status"})
  ]

  /** A reading belongs to the one topic that lists it. */
  lemma TopicExactly(name: string, i: nat)
    requires i < TOPICS
    ensures |TOPIC_READINGS| == TOPICS
    ensures ExtraTopic(name) == Some(i) <==> name in TOPIC_READINGS[i].1
  {}

  /** Whether a viewer may be sent a reading. */
  predicate Includes(interests: Interests, name: string) {
    && (IsSms(name) ==> interests.sms)
    && (ExtraTopic(name).Some? ==> ExtraTopic(name).value in interests.extras)
  }

  datatype Feed = Feed(clients: nat, smsClients: nat, extraClients: seq<nat>, readings: Readings, generation: nat)

  const EMPTY := Feed(0, 0, [0, 0, 0, 0, 0, 0, 0, 0, 0, 0, 0, 0, 0], map[], 0)

  // ---------------------------------------------------------------- the shared state

  predicate Counted(f: Feed) {
    |f.extraClients| == TOPICS
  }

  /** What a live subscription guarantees of the counters it is in. */
  predicate HoldsSlot(f: Feed, interests: Interests) {
    && Counted(f) && f.clients > 0 && (interests.sms ==> f.smsClients > 0)
    && forall i | 0 <= i < TOPICS && i in interests.extras :: f.extraClients[i] > 0
  }

  function Subscribed(f: Feed, interests: Interests): Feed
    requires Counted(f)
  {
    if f.clients >= MAX_STREAMS then f
    else
      f.(clients := f.clients + 1,
         smsClients := if interests.sms then f.smsClients + 1 else f.smsClients,
         extraClients := seq(TOPICS, i requires 0 <= i < TOPICS =>
                               if i in interests.extras then f.extraClients[i] + 1 else f.extraClients[i]))
  }

  /** Whether someone else still wants a reading when a subscription ends. */
  predicate StillWanted(f: Feed, interests: Interests, name: string)
    requires HoldsSlot(f, interests)
  {
    && !(IsSms(name) && interests.sms && f.smsClients == 1)
    && !(ExtraTopic(name).Some? && ExtraTopic(name).value in interests.extras
         && f.extraClients[ExtraTopic(name).value] == 1)
  }

  function Dropped(f: Feed, interests: Interests): Feed
    requires HoldsSlot(f, interests)
  {
    f.(clients := f.clients - 1,
       smsClients := if interests.sms then f.smsClients - 1 else f.smsClients,
       extraClients := seq(TOPICS, i requires 0 <= i < TOPICS =>
                             if i in interests.extras then f.extraClients[i] - 1 else f.extraClients[i]),
       readings := if f.clients == 1 then map[]
                   else map k | k in f.readings && StillWanted(f, interests, k) :: f.readings[k])
  }

  /** Private readings are taken only while someone wants them. */
  predicate Accepts(f: Feed, name: string)
    requires Counted(f)
  {
    && !(IsSms(name) && f.smsClients == 0)
    && !(ExtraTopic(name).Some? && f.extraClients[ExtraTopic(name).value] == 0)
  }

  /** The readings after some news, later news for a name winning. */
  function Merged(f: Feed, news: seq<(string, int)>): (r: Readings)
    requires Counted(f)
  {
    if news == [] then f.readings
    else
      var before, (name, value) := Merged(f, news[..|news| - 1]), news[|news| - 1];
      if Accepts(f, name) then before[name := value] else before
  }

  /** Whether any accepted piece of news differed from what was held when it came. */
  predicate Updates(f: Feed, news: seq<(string, int)>)
    requires Counted(f)
  {
    news != []
    && (|| Updates(f, news[..|news| - 1])
        || var (before, (name, value)) := (Merged(f, news[..|news| - 1]), news[|news| - 1]);
           Accepts(f, name) && !(name in before && before[name] == value))
  }

  function Published(f: Feed, news: seq<(string, int)>): Feed
    requires Counted(f)
  {
    if f.clients == 0 || !Updates(f, news) then f
    else f.(readings := Merged(f, news), generation := f.generation + 1)
  }

  class Shared {
    var clients: nat
    var smsClients: nat
    var extraClients: array<nat>
    var readings: Readings
    var generation: nat

    ghost function Value(): Feed
      reads this, extraClients
    {
      Feed(clients, smsClients, extraClients[..], readings, generation)
    }

    constructor ()
      ensures Value() == EMPTY && fresh(extraClients)
    {
      clients, smsClients, readings, generation := 0, 0, map[], 0;
      extraClients := new nat[TOPICS](_ => 0);
      new;
      assert extraClients[..] == EMPTY.extraClients;
    }

    /** A slot, unless all streams are taken; tells whether viewers were woken. */
    method Subscribe(interests: Interests) returns (ok: bool)
      requires Counted(Value())
      modifies this, extraClients
      ensures extraClients == old(extraClients)
      ensures Value() == Subscribed(old(Value()), interests) && (ok <==> old(clients) < MAX_STREAMS)
    {
      ghost var was := Value();
      if clients >= MAX_STREAMS {
        return false;
      }
      clients := clients + 1;
      if interests.sms {
        smsClients := smsClients + 1;
      }
      for index := 0 to TOPICS
        invariant extraClients == old(extraClients) && extraClients.Length == TOPICS
        invariant Value()
               == was.(clients := was.clients + 1, smsClients := smsClients, extraClients := extraClients[..])
        invariant smsClients == if interests.sms then was.smsClients + 1 else was.smsClients
        invariant forall i | 0 <= i < index ::
                    extraClients[i] == if i in interests.extras then was.extraClients[i] + 1 else was.extraClients[i]
        invariant forall i | index <= i < TOPICS :: extraClients[i] == was.extraClients[i]
      {
        if index in interests.extras {
          extraClients[index] := extraClients[index] + 1;
        }
      }
      assert extraClients[..] == Subscribed(was, interests).extraClients;
      return true;
    }

    /** The end of a subscription: readings nobody else wants go, and with the last viewer all. */
    method Drop(interests: Interests)
      requires HoldsSlot(Value(), interests)
      modifies this, extraClients
      ensures extraClients == old(extraClients)
      ensures Value() == Dropped(old(Value()), interests)
    {
      hide IsSms, ExtraTopic, KeptBelow, StillWanted;
      ghost var was := Value();
      clients := clients - 1;
      if interests.sms {
        smsClients := smsClients - 1;
        if smsClients == 0 {
          readings := map k | k in readings && !IsSms(k) :: readings[k];
        }
      }
      KeptNone(was, interests);
      for index := 0 to TOPICS
        invariant extraClients == old(extraClients) && extraClients.Length == TOPICS && generation == was.generation
        invariant clients == was.clients - 1
        invariant smsClients == if interests.sms then was.smsClients - 1 else was.smsClients
        invariant forall i | 0 <= i < index ::
                    extraClients[i] == if i in interests.extras then was.extraClients[i] - 1 else was.extraClients[i]
        invariant forall i | index <= i < TOPICS :: extraClients[i] == was.extraClients[i]
        invariant readings == KeptBelow(was, interests, index)
      {
        if index in interests.extras {
          extraClients[index] := extraClients[index] - 1;
          if extraClients[index] == 0 {
            readings := map k | k in readings && ExtraTopic(k) != Some(index) :: readings[k];
          }
        }
        KeptStep(was, interests, index);
      }
      assert extraClients[..] == Dropped(was, interests).extraClients;
      KeptAll(was, interests);
      if clients == 0 {
        readings := map[];
      }
    }

    /** Takes what is wanted; tells whether anything changed, which wakes the viewers. */
    method Publish(news: seq<(string, int)>) returns (updated: bool)
      requires Counted(Value())
      modifies this
      ensures extraClients == old(extraClients)
      ensures Value() == Published(old(Value()), news)
      ensures updated <==> old(clients) > 0 && Updates(old(Value()), news)
    {
      hide IsSms, ExtraTopic;
      ghost var was := Value();
      updated := false;
      if clients == 0 {
        return;
      }
      for k := 0 to |news|
        invariant extraClients == old(extraClients) && Value() == was.(readings := readings)
        invariant readings == Merged(was, news[..k]) && (updated <==> Updates(was, news[..k]))
      {
        assert news[..k + 1][..k] == news[..k];
        var (name, value) := news[k];
        var topic := ExtraTopic(name);
        if !(IsSms(name) && smsClients == 0) && !(topic.Some? && extraClients[topic.value] == 0) {
          if name in readings && readings[name] == value {
            assert readings[name := value] == readings;
          } else {
            readings := readings[name := value];
            updated := true;
          }
        }
      }
      assert news[..|news|] == news;
      if updated {
        generation := generation + 1;
      } else {
        NoUpdate(was, news);
      }
    }
  }

  /** Readings kept after the topics below an index were looked at. */
  ghost function KeptBelow(f: Feed, interests: Interests, index: nat): Readings
    requires HoldsSlot(f, interests) && index <= TOPICS
  {
    map k | && k in f.readings
            && !(IsSms(k) && interests.sms && f.smsClients == 1)
            && !(ExtraTopic(k).Some? && ExtraTopic(k).value < index && ExtraTopic(k).value in interests.extras
                 && f.extraClients[ExtraTopic(k).value] == 1)
         :: f.readings[k]
  }

  lemma KeptNone(f: Feed, interests: Interests)
    requires HoldsSlot(f, interests)
    ensures KeptBelow(f, interests, 0)
            == if interests.sms && f.smsClients == 1 then map k | k in f.readings && !IsSms(k) :: f.readings[k]
               else f.readings
  {
    hide IsSms, ExtraTopic;
  }

  lemma KeptStep(f: Feed, interests: Interests, index: nat)
    requires HoldsSlot(f, interests) && index < TOPICS
    ensures var kept := KeptBelow(f, interests, index);
            KeptBelow(f, interests, index + 1)
            == if index in interests.extras && f.extraClients[index] == 1
               then map k | k in kept && ExtraTopic(k) != Some(index) :: kept[k]
               else kept
  {
    hide IsSms, ExtraTopic;
  }

  lemma KeptAll(f: Feed, interests: Interests)
    requires HoldsSlot(f, interests)
    ensures KeptBelow(f, interests, TOPICS) == map k | k in f.readings && StillWanted(f, interests, k) :: f.readings[k]
  {
    hide IsSms, ExtraTopic;
  }

  lemma {:induction false} NoUpdate(f: Feed, news: seq<(string, int)>)
    requires Counted(f) && !Updates(f, news)
    ensures Merged(f, news) == f.readings
  {
    hide Accepts;
    if news != [] {
      NoUpdate(f, news[..|news| - 1]);
    }
  }

  /** Piece `k` of the news changed what was held when it came. */
  predicate Changes(f: Feed, news: seq<(string, int)>, k: nat)
    requires Counted(f)
  {
    k < |news| && Merged(f, news[..k + 1]) != Merged(f, news[..k])
  }

  lemma LastUpdates(f: Feed, news: seq<(string, int)>)
    requires Counted(f) && news != []
    ensures Updates(f, news) <==> Updates(f, news[..|news| - 1]) || Changes(f, news, |news| - 1)
  {
    hide Accepts;
    assert news[..|news| - 1 + 1] == news;
    var before, name, value := Merged(f, news[..|news| - 1]), news[|news| - 1].0, news[|news| - 1].1;
    if Accepts(f, name) {
      assert Merged(f, news) == before[name := value];
      assert name in before && before[name] == value ==> before[name := value] == before;
    }
  }

  lemma ChangesBefore(f: Feed, news: seq<(string, int)>, n: nat, k: nat)
    requires Counted(f) && k < n <= |news|
    ensures Changes(f, news[..n], k) <==> Changes(f, news, k)
  {
    hide Merged;
    assert news[..n][..k] == news[..k] && news[..n][..k + 1] == news[..k + 1];
  }

  /** Viewers are woken exactly if some piece of the news changed what was held. */
  lemma {:induction false} UpdatesExactly(f: Feed, news: seq<(string, int)>)
    requires Counted(f)
    ensures Updates(f, news) <==> exists k: nat :: Changes(f, news, k)
  {
    hide Merged;
    if news != [] {
      hide Updates;
      var n := |news| - 1;
      UpdatesExactly(f, news[..n]);
      LastUpdates(f, news);
      forall k: nat | k < n
        ensures Changes(f, news[..n], k) <==> Changes(f, news, k)
      {
        ChangesBefore(f, news, n, k);
      }
      if k: nat :| Changes(f, news, k) {
        assert k < n || k == n;
      }
    }
  }
}
