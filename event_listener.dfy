/** The event listener (core/event_listener.go): it subscribes to the broker
    with a handler that invalidates (topic, key) through the cache service
    and throws the result away. The consumption loop is run to the end of a
    finite sequence of read results; the handler calls happen in the order
    the loop makes them. `fault(i)` is the backend error the i-th
    invalidation runs into, if any. */
module Listener {
  import opened Base
  import opened Strategy
  import opened CacheAdapter
  import opened Service
  import opened Connection
  import opened Broker

  /** The store after invalidating the physical key of each event in turn. */
  function InvalidateAll(store: Store, s: VersionedKeyStrategy, events: seq<Event>,
                         fault: nat -> Option<Error>): Store
    decreases |events|
  {
    if events == [] then store
    else
      var last := events[|events| - 1];
      Del(InvalidateAll(store, s, events[..|events| - 1], fault), GenerateKey(s, last.topic, last.key),
          fault(|events| - 1))
  }

  lemma InvalidateAllSnoc(store: Store, s: VersionedKeyStrategy, events: seq<Event>, e: Event,
                          fault: nat -> Option<Error>)
    ensures InvalidateAll(store, s, events + [e], fault)
            == Del(InvalidateAll(store, s, events, fault), GenerateKey(s, e.topic, e.key), fault(|events|))
  {
    assert (events + [e])[..|events|] == events;
  }

  class EventListener {
    const broker: KafkaBroker
    const cache: CacheService

    constructor (b: KafkaBroker, c: CacheService)
      ensures broker == b && cache == c
    {
      broker := b;
      cache := c;
    }

    /** The subscription handler: Invalidate(topic, key), its error discarded. */
    method HandleEvent(topic: string, key: string, fault: Option<Error>)
      modifies cache.cache
      ensures cache.cache.store == Del(old(cache.cache.store), GenerateKey(cache.strategy, topic, key), fault)
    {
      var discarded := cache.Invalidate(topic, key, fault);
    }

    /** Start: subscribe (its error discarded) and handle every event the loop
        delivers; `deliver` is the broker's handler argument, DeliveredAsWritten
        for the program as written. */
    method Start(results: seq<ReadResult<Delivery>>, deliver: Delivery -> Event, fault: nat -> Option<Error>)
      modifies cache.cache
      ensures cache.cache.store
              == InvalidateAll(old(cache.cache.store), cache.strategy, SubscribedEvents(results, deliver), fault)
    {
      var discarded, exited, events := broker.Subscribe(results, deliver);
      ghost var initial := cache.cache.store;
      for i := 0 to |events|
        invariant cache.cache.store == InvalidateAll(initial, cache.strategy, events[..i], fault)
      {
        InvalidateAllSnoc(initial, cache.strategy, events[..i], events[i], fault);
        assert events[..i] + [events[i]] == events[..i + 1];
        HandleEvent(events[i].topic, events[i].key, fault(i));
      }
      assert events[..|events|] == events;
    }
  }

  /** After an event is handled without a backend error, Get on it is a miss;
      handling it again leaves the same store. */
  lemma HandledEventMisses(store: Store, s: VersionedKeyStrategy, e: Event, again: Option<Error>)
    ensures var k := GenerateKey(s, e.topic, e.key);
            Lookup(Del(store, k, None), k, None) == ("", None)
            && Del(Del(store, k, None), k, again) == Del(store, k, None)
  {
  }

  /** The physical keys the events name. */
  function PhysicalKeys(s: VersionedKeyStrategy, events: seq<Event>): (ks: set<string>)
    ensures forall i :: 0 <= i < |events| ==> GenerateKey(s, events[i].topic, events[i].key) in ks
    decreases |events|
  {
    if events == [] then {}
    else
      var last := events[|events| - 1];
      PhysicalKeys(s, events[..|events| - 1]) + {GenerateKey(s, last.topic, last.key)}
  }

  /** Every key in PhysicalKeys is the physical key of one of the events. */
  lemma {:induction false} PhysicalKeysAreNamed(s: VersionedKeyStrategy, events: seq<Event>, k: string)
    requires k in PhysicalKeys(s, events)
    ensures exists i :: 0 <= i < |events| && k == GenerateKey(s, events[i].topic, events[i].key)
    decreases |events|
  {
    var n := |events| - 1;
    if k != GenerateKey(s, events[n].topic, events[n].key) {
      PhysicalKeysAreNamed(s, events[..n], k);
      var i :| 0 <= i < n && k == GenerateKey(s, events[..n][i].topic, events[..n][i].key);
      assert events[..n][i] == events[i];
    }
  }

  /** With no backend errors, handling the events removes exactly the keys
      they name and leaves every other entry as it was. */
  lemma {:induction false} InvalidateAllRemovesNamedKeys(store: Store, s: VersionedKeyStrategy, events: seq<Event>,
                                                         fault: nat -> Option<Error>)
    requires forall i :: 0 <= i < |events| ==> fault(i) == None
    ensures InvalidateAll(store, s, events, fault) == store - PhysicalKeys(s, events)
    decreases |events|
  {
    if events != [] {
      var prefix := events[..|events| - 1];
      var last := events[|events| - 1];
      InvalidateAllRemovesNamedKeys(store, s, prefix, fault);
      var k := GenerateKey(s, last.topic, last.key);
      assert (store - PhysicalKeys(s, prefix)) - {k} == store - (PhysicalKeys(s, prefix) + {k});
    }
  }

  /** Handling events none of which names `k` leaves the entry at `k` as it was. */
  lemma {:induction false} InvalidateAllKeepsUnnamed(store: Store, s: VersionedKeyStrategy, events: seq<Event>,
                                                     fault: nat -> Option<Error>, k: string)
    requires forall i :: 0 <= i < |events| ==> GenerateKey(s, events[i].topic, events[i].key) != k
    ensures var r := InvalidateAll(store, s, events, fault);
            (k in r <==> k in store) && (k in store ==> r[k] == store[k])
    decreases |events|
  {
    if events != [] {
      InvalidateAllKeepsUnnamed(store, s, events[..|events| - 1], fault, k);
    }
  }

  /** Delivery end to end, as corrected: when a peer's listener consumes a read
      of `key` published to `topic` and the loop has not exited, and no
      invalidation fails, the peer's entry for (topic, key) is gone. */
  lemma PeerInvalidatesPublishedKey(store: Store, s: VersionedKeyStrategy, brokers: seq<string>,
                                    topic: string, key: string, results: seq<ReadResult<Delivery>>,
                                    fault: nat -> Option<Error>)
    requires Run(SubscribeMaxFails, Initial(), results).Running?
    requires Read(Delivery(Writer(brokers, topic).topic, Published(key))) in results
    requires forall i: nat :: fault(i) == None
    ensures GenerateKey(s, topic, key) !in InvalidateAll(store, s, SubscribedEvents(results, Delivered), fault)
  {
    var d := Delivery(Writer(brokers, topic).topic, Published(key));
    var i :| 0 <= i < |results| && results[i] == Read(d);
    ReadMessageInMessages(results, i);
    HandledAreMessages(SubscribeMaxFails, Initial(), results);
    var handled := Run(SubscribeMaxFails, Initial(), results).state.handled;
    assert handled == Messages(results);
    var j :| 0 <= j < |handled| && handled[j] == d;
    var events := SubscribedEvents(results, Delivered);
    assert events[j] == Event(topic, key);
    InvalidateAllRemovesNamedKeys(store, s, events, fault);
  }

  /** When every successful read carries `key`, so does every message. */
  lemma {:induction false} MessagesCarryKey(results: seq<ReadResult<Delivery>>, key: string)
    requires forall i :: 0 <= i < |results| && results[i].Read? ==> results[i].msg.message.value == key
    ensures forall m :: m in Messages(results) ==> m.message.value == key
    decreases |results|
  {
    if results != [] {
      MessagesCarryKey(results[1..], key);
    }
  }

  /** As written, every event of a subscription whose reads all carry `key` is ("", key). */
  lemma AsWrittenEventsAreEmptyTopic(key: string, results: seq<ReadResult<Delivery>>)
    requires forall i :: 0 <= i < |results| && results[i].Read? ==> results[i].msg.message.value == key
    ensures forall e :: e in SubscribedEvents(results, DeliveredAsWritten) ==> e == Event("", key)
  {
    var o := Run(SubscribeMaxFails, Initial(), results);
    HandledAreMessages(SubscribeMaxFails, Initial(), results);
    if o.Running? {
      MessagesCarryKey(results, key);
    } else {
      MessagesCarryKey(results[..o.at], key);
    }
    var handled := o.state.handled;
    forall m | m in handled
      ensures m.message.value == key
    {
    }
  }

  /** As written, the handler is given the reader's configured topic, the empty
      string: a peer's listener that reads only messages carrying `key` deletes
      the entry of ("", key), and the entry of (topic, key) for any nonempty
      topic survives as it was, stale. */
  lemma AsWrittenPeerKeepsStaleEntry(store: Store, s: VersionedKeyStrategy, topic: string, key: string,
                                     results: seq<ReadResult<Delivery>>, fault: nat -> Option<Error>)
    requires topic != ""
    requires forall i :: 0 <= i < |results| && results[i].Read? ==> results[i].msg.message.value == key
    ensures var k := GenerateKey(s, topic, key);
            var r := InvalidateAll(store, s, SubscribedEvents(results, DeliveredAsWritten), fault);
            (k in r <==> k in store) && (k in store ==> r[k] == store[k])
  {
    var events := SubscribedEvents(results, DeliveredAsWritten);
    AsWrittenEventsAreEmptyTopic(key, results);
    EmptyTopicDiffers(s, topic, key);
    forall j | 0 <= j < |events|
      ensures GenerateKey(s, events[j].topic, events[j].key) != GenerateKey(s, topic, key)
    {
      assert events[j] in events;
    }
    InvalidateAllKeepsUnnamed(store, s, events, fault, GenerateKey(s, topic, key));
  }
}
