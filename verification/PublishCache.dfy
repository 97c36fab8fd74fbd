/**
 The cache that keeps unchanged retained MQTT values from being published again, checked
 against what the broker really retains.
 */
module PublishCache {
  import opened Clock

  type Text = seq<bv8>

  /** A 32-bit hash value. */
  datatype Hash32 = Hash32(bits: bv32)

  datatype Entry = Entry(value: Hash32, sentMs: u32)

  type Cache = map<Hash32, Entry>

  /** The 32-bit FNV-1a hash of a string, byte by byte from the front. */
  function Fnv1a(s: Text): Hash32 {
    if s == [] then Hash32(2166136261) else Mix(Fnv1a(s[..|s| - 1]), s[|s| - 1])
  }

  function Mix(h: Hash32, b: bv8): Hash32 {
    Hash32((h.bits ^ (b as bv32)) * 16777619)
  }

  /** No two of the strings in use share a hash. */
  ghost predicate Distinct(used: set<Text>) {
    forall a, b :: a in used && b in used && Fnv1a(a) == Fnv1a(b) ==> a == b
  }

  // ---- The cache ----------------------------------------------------------------------

  predicate ShouldPublish(cache: Cache, topic: Hash32, payload: Hash32, now: u32, minInterval: u32) {
    topic in cache ==>
      && cache[topic].value != payload
      && (minInterval == 0 || Since(now, cache[topic].sentMs) >= minInterval)
  }

  class MqttPublishDedup {
    var entries: Cache

    constructor ()
      ensures entries == map[]
    {
      entries := map[];
    }

    static method Hash(s: Text) returns (h: Hash32)
      ensures h == Fnv1a(s)
    {
      hide Mix;
      h := Hash32(2166136261);
      for i := 0 to |s|
        invariant h == Fnv1a(s[..i])
      {
        assert s[..i + 1][..i] == s[..i];
        h := Mix(h, s[i]);
      }
      assert s[..|s|] == s;
    }

    /** Whether to send, recording the send; otherwise the cache is unchanged. */
    method Offer(topic: Text, payload: Text, now: u32, minInterval: u32) returns (send: bool)
      modifies this
      ensures send == ShouldPublish(old(entries), Fnv1a(topic), Fnv1a(payload), now, minInterval)
      ensures entries == if send then old(entries)[Fnv1a(topic) := Entry(Fnv1a(payload), now)] else old(entries)
    {
      var key := Hash(topic);
      var value := Hash(payload);
      if key !in entries {
        entries := entries[key := Entry(value, now)];
        return true;
      }
      var e := entries[key];
      if e.value == value {
        return false;
      }
      if minInterval != 0 && Since(now, e.sentMs) < minInterval {
        return false;
      }
      entries := entries[key := Entry(value, now)];
      return true;
    }

    method Forget(topic: Text)
      modifies this
      ensures entries == old(entries) - {Fnv1a(topic)}
    {
      var key := Hash(topic);
      entries := entries - {key};
    }

    method Reset()
      modifies this
      ensures entries == map[]
    {
      entries := map[];
    }
  }

  /** The published values of 32-bit FNV-1a for "", "a" and "foobar". */
  lemma FnvVectors()
    ensures Fnv1a([]).bits == 0x811C9DC5
    ensures Fnv1a([0x61]).bits == 0xE40C292C
    ensures Fnv1a([0x66, 0x6F, 0x6F, 0x62, 0x61, 0x72]).bits == 0xBF9CF968
  {
    var f, fo, foo := [0x66], [0x66, 0x6F], [0x66, 0x6F, 0x6F];
    var foob, fooba, foobar := foo + [0x62], foo + [0x62, 0x61], foo + [0x62, 0x61, 0x72];
    assert [0x61] == [] + [0x61] && f == [] + [0x66] && fo == f + [0x6F] && foo == fo + [0x6F];
    assert fooba == foob + [0x61] && foobar == fooba + [0x72] == [0x66, 0x6F, 0x6F, 0x62, 0x61, 0x72];
    Appended([], 0x61);
    Appended([], 0x66);
    Appended(f, 0x6F);
    Appended(fo, 0x6F);
    Appended(foo, 0x62);
    Appended(foob, 0x61);
    Appended(fooba, 0x72);
  }

  lemma Appended(s: Text, b: bv8)
    ensures Fnv1a(s + [b]) == Mix(Fnv1a(s), b)
  {
    assert (s + [b])[..|s|] == s;
    hide Mix;
  }

  /**
   A cached topic is sent exactly when its payload's hash is another and the interval since it was sent has
   passed.
   */
  lemma OfferIsSentExactly(cache: Cache, topic: Hash32, payload: Hash32, sentAt: nat, at: nat, minInterval: u32)
    requires topic in cache ==> cache[topic].sentMs == At(sentAt) && sentAt <= at < sentAt + U32
    ensures ShouldPublish(cache, topic, payload, At(at), minInterval)
      <==> topic !in cache || (cache[topic].value != payload && at - sentAt >= minInterval)
  {
    if topic in cache {
      SinceIsElapsed(at, sentAt);
    }
    hide At, Since;
  }

  // ---- The publisher and the broker ---------------------------------------------------

  /**
   A publish that the client reports as sent reaches the broker; one it reports as failed
   may have reached it or not. A reconnect finds whatever the broker kept, and the
   publisher resets the cache then and periodically.
   */
  datatype Event =
    | Publish(topic: Text, payload: Text, at: nat, minInterval: u32, sent: bool, reached: bool)
    | Reconnect(kept: map<Text, Text>)
    | Refresh

  datatype World = World(cache: Cache, broker: map<Text, Text>)

  predicate Sends(w: World, e: Event)
    requires e.Publish?
  {
    ShouldPublish(w.cache, Fnv1a(e.topic), Fnv1a(e.payload), At(e.at), e.minInterval)
  }

  function Step(w: World, e: Event): World {
    match e
    case Publish(topic, payload, at, _, sent, reached) =>
      if !Sends(w, e) then w
      else if sent then
        World(w.cache[Fnv1a(topic) := Entry(Fnv1a(payload), At(at))], w.broker[topic := payload])
      else
        World(w.cache[Fnv1a(topic) := Entry(Fnv1a(payload), At(at))] - {Fnv1a(topic)},
              if reached then w.broker[topic := payload] else w.broker)
    case Reconnect(kept) => World(map[], kept)
    case Refresh => w.(cache := map[])
  }

  predicate Uses(e: Event, used: set<Text>) {
    match e
    case Publish(topic, payload, _, _, _, _) => topic in used && payload in used
    case Reconnect(kept) => kept.Values <= used
    case Refresh => true
  }

  /** Every cached entry is the hash of what the broker retains for its topic. */
  ghost predicate Agrees(w: World, used: set<Text>) {
    && (forall t :: t in w.broker ==> w.broker[t] in used)
    && forall t :: t in used && Fnv1a(t) in w.cache ==> t in w.broker && w.cache[Fnv1a(t)].value == Fnv1a(w.broker[t])
  }

  lemma StepAgrees(w: World, e: Event, used: set<Text>)
    requires Distinct(used) && Agrees(w, used) && Uses(e, used)
    ensures Agrees(Step(w, e), used)
  {
    hide Fnv1a, At, Since, ShouldPublish;
    var v := Step(w, e);
    forall t | t in v.broker ensures v.broker[t] in used {
      if e.Reconnect? {
        assert e.kept[t] in e.kept.Values;
      }
    }
    forall t | t in used && Fnv1a(t) in v.cache
      ensures t in v.broker && v.cache[Fnv1a(t)].value == Fnv1a(v.broker[t])
    {
      if e.Publish? && Sends(w, e) {
        assert t == e.topic || Fnv1a(t) != Fnv1a(e.topic);
      }
    }
  }

  function After(w: World, events: seq<Event>): World {
    if events == [] then w else Step(After(w, events[..|events| - 1]), events[|events| - 1])
  }

  /** Through failed publishes, reconnects and refreshes, the cache never claims a value the broker does not retain. */
  lemma {:induction false} CacheAgreesWithBroker(w: World, events: seq<Event>, used: set<Text>)
    requires Distinct(used) && Agrees(w, used) && (forall e :: e in events ==> Uses(e, used))
    ensures Agrees(After(w, events), used)
  {
    if events != [] {
      CacheAgreesWithBroker(w, events[..|events| - 1], used);
      StepAgrees(After(w, events[..|events| - 1]), events[|events| - 1], used);
    }
  }

  /**
   Offered without a minimum interval, a payload is retained afterwards unless its publish
   failed; a value the broker is known to hold is not sent again, and any other is.
   */
  lemma OfferedIsRetained(w: World, e: Event, used: set<Text>)
    requires Distinct(used) && Agrees(w, used) && Uses(e, used) && e.Publish? && e.minInterval == 0
    ensures !Sends(w, e) || e.sent ==> e.topic in Step(w, e).broker && Step(w, e).broker[e.topic] == e.payload
    ensures Fnv1a(e.topic) in w.cache ==> (Sends(w, e) <==> w.broker[e.topic] != e.payload)
    ensures !Sends(w, e) ==> Step(w, e) == w
  {
    hide Fnv1a, At, Since;
  }

  /** With a minimum interval, only the interval can hold a changed value back. */
  lemma HeldBackOnlyByInterval(w: World, e: Event, used: set<Text>)
    requires Distinct(used) && Agrees(w, used) && Uses(e, used) && e.Publish? && !Sends(w, e)
    requires w.broker[e.topic] != e.payload
    ensures Since(At(e.at), w.cache[Fnv1a(e.topic)].sentMs) < e.minInterval
  {
    hide Fnv1a, At;
  }

  /** After a failed publish the next offer of the topic is sent, whatever its payload. */
  lemma FailedIsResent(w: World, failed: Event, between: seq<Event>, next: Event, used: set<Text>)
    requires Distinct(used) && failed.Publish? && Sends(w, failed) && !failed.sent
    requires next.Publish? && next.topic == failed.topic && failed.topic in used
    requires forall e :: e in between ==> Uses(e, used) && (e.Publish? ==> e.topic != failed.topic)
    ensures Sends(After(Step(w, failed), between), next)
  {
    StaysForgotten(Step(w, failed), between, failed.topic, used);
  }

  lemma {:induction false} StaysForgotten(w: World, events: seq<Event>, topic: Text, used: set<Text>)
    requires Distinct(used) && topic in used && Fnv1a(topic) !in w.cache
    requires forall e :: e in events ==> Uses(e, used) && (e.Publish? ==> e.topic != topic)
    ensures Fnv1a(topic) !in After(w, events).cache
  {
    hide Fnv1a, At, Since;
    if events != [] {
      StaysForgotten(w, events[..|events| - 1], topic, used);
      assert events[|events| - 1] in events;
    }
  }

  /** And so is the next offer of every topic after a reconnect or a refresh. */
  lemma ResetIsResent(w: World, reset: Event, between: seq<Event>, next: Event, used: set<Text>)
    requires Distinct(used) && !reset.Publish? && next.Publish? && next.topic in used
    requires forall e :: e in between ==> Uses(e, used) && (e.Publish? ==> e.topic != next.topic)
    ensures Sends(After(Step(w, reset), between), next)
  {
    StaysForgotten(Step(w, reset), between, next.topic, used);
  }
}
