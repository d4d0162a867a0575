/** The Kafka event broker (core/event_broker/kafka_broker.go): one writer
    per topic kept in a map, created from the configured topics and lazily on
    the first publish to a new topic; publishing a key as both the message
    key and value; subscribing through the consumption loop; closing the
    reader and then the writers, stopping at the first failure.

    Kafka itself is an oracle: whether a write or a close fails is a
    function the caller passes in, and what the reader returns is a finite
    sequence of read results. */
module Broker {
  import opened Base
  import Config
  import opened Connection

  /** A writer is fixed by the broker addresses and its topic (kafkaWriter). */
  datatype Writer = Writer(brokers: seq<string>, topic: string)

  /** The payload of a published message. */
  datatype Message = Message(key: string, value: string)

  /** A message as the reader returns it: the topic it was read from and its payload. */
  datatype Delivery = Delivery(topic: string, message: Message)

  /** What the subscription handler receives. */
  datatype Event = Event(topic: string, key: string)

  /** The failure limit Subscribe gives the consumption loop. */
  const SubscribeMaxFails: nat := 5

  /** The message PublishTo builds: the key is both its key and its value. */
  function Published(key: string): (m: Message)
    ensures m.key == key && m.value == key
  {
    Message(key, key)
  }

  /** The topic of the reader's own configuration. The reader is built with
      GroupTopics and no Topic, so this is the empty string. */
  const ReaderConfigTopic: string := ""

  /** The handler argument as the source computes it: the reader's configured
      topic, not the topic the message came from. */
  function DeliveredAsWritten(d: Delivery): (e: Event)
    ensures e.topic == ReaderConfigTopic && e.key == d.message.value
  {
    Event(ReaderConfigTopic, d.message.value)
  }

  /** The handler argument as intended: the topic the message was read from
      and the key it carries. */
  function Delivered(d: Delivery): (e: Event)
    ensures e.topic == d.topic && e.key == d.message.value
  {
    Event(d.topic, d.message.value)
  }

  /** A message published to topic `t` reaches the handler as the event
      (t, key) as corrected, and as ("", key) as written. */
  lemma PublishedKeyDelivered(brokers: seq<string>, topic: string, key: string)
    ensures Delivered(Delivery(Writer(brokers, topic).topic, Published(key))) == Event(topic, key)
    ensures DeliveredAsWritten(Delivery(Writer(brokers, topic).topic, Published(key))) == Event("", key)
  {
  }

  /** The handler's arguments for each message read, in order; `deliver` is
      how the argument is taken from a message (DeliveredAsWritten or Delivered). */
  function Events(ds: seq<Delivery>, deliver: Delivery -> Event): (es: seq<Event>)
    ensures |es| == |ds| && forall i :: 0 <= i < |ds| ==> es[i] == deliver(ds[i])
  {
    seq(|ds|, i requires 0 <= i < |ds| => deliver(ds[i]))
  }

  /** The events the handler receives when the reader returns `results`. */
  function SubscribedEvents(results: seq<ReadResult<Delivery>>, deliver: Delivery -> Event): seq<Event>
  {
    Events(Run(SubscribeMaxFails, Initial(), results).state.handled, deliver)
  }

  /** The writers the constructor creates: one per configured topic. */
  method InitialWriters(brokers: seq<string>, topics: seq<string>) returns (w: map<string, Writer>)
    ensures forall t :: t in w <==> t in topics
    ensures forall t :: t in w ==> w[t] == Writer(brokers, t)
  {
    w := map[];
    for i := 0 to |topics|
      invariant forall t :: t in w <==> t in topics[..i]
      invariant forall t :: t in w ==> w[t] == Writer(brokers, t)
    {
      w := w[topics[i] := Writer(brokers, topics[i])];
    }
  }

  class KafkaBroker {
    var writers: map<string, Writer>
    const brokers: seq<string>

    /** Every writer in the map writes to the topic it is filed under. */
    predicate Valid()
      reads this
    {
      forall t :: t in writers ==> writers[t] == Writer(brokers, t)
    }

    /** NewKafkaBroker. Topic provisioning, the reader and its startup probe are
        not modelled; the source reads `cfg.Brokers[0]` for every topic, so a
        topic list needs a broker address. */
    constructor (cfg: Config.KafkaConfig)
      requires |cfg.topics| > 0 ==> |cfg.brokers| > 0
      ensures Valid() && brokers == cfg.brokers
      ensures forall t :: t in writers <==> t in cfg.topics
    {
      brokers := cfg.brokers;
      new;
      writers := InitialWriters(cfg.brokers, cfg.topics);
    }

    /** Some topic that has a writer, or "default" when there is none;
        which one is left open, as Go's map iteration order is. */
    method DefaultTopic() returns (t: string)
      ensures |writers| == 0 ==> t == "default"
      ensures |writers| > 0 ==> t in writers
    {
      if |writers| == 0 {
        return "default";
      }
      t :| t in writers;
    }

    /** Publishes `key` to `topic`, creating and keeping the topic's writer when
        it has none; the write error, if any, is returned unchanged. */
    method PublishTo(topic: string, key: string, write: (Writer, Message) -> Option<Error>) returns (err: Option<Error>)
      requires Valid()
      modifies this
      ensures Valid() && topic in writers
      ensures topic in old(writers) ==> writers == old(writers)
      ensures topic !in old(writers) ==> writers == old(writers)[topic := Writer(brokers, topic)]
      ensures err == write(writers[topic], Published(key))
      ensures writers[topic].topic == topic
    {
      var writer: Writer;
      if topic in writers {
        writer := writers[topic];
      } else {
        writer := Writer(brokers, topic);
        writers := writers[topic := writer];
      }
      err := write(writer, Published(key));
    }

    /** Publishes `key` to DefaultTopic(); the `topic` argument is not used. */
    method Publish(topic: string, key: string, write: (Writer, Message) -> Option<Error>) returns (err: Option<Error>)
      requires Valid()
      modifies this
      ensures Valid()
      ensures |old(writers)| == 0 ==>
                writers == map["default" := Writer(brokers, "default")]
                && err == write(Writer(brokers, "default"), Published(key))
      ensures |old(writers)| > 0 ==>
                writers == old(writers)
                && exists t :: t in writers && err == write(writers[t], Published(key))
    {
      var t := DefaultTopic();
      err := PublishTo(t, key, write);
    }

    /** Starts the consumption loop with the failure limit 5 and a handler that
        receives `deliver` of every message read; always returns nil. The
        program as written passes DeliveredAsWritten. `exited` reports
        whether the loop took the fatal path. */
    method Subscribe(results: seq<ReadResult<Delivery>>, deliver: Delivery -> Event)
      returns (err: Option<Error>, exited: bool, events: seq<Event>)
      ensures err == None
      ensures exited == Run(SubscribeMaxFails, Initial(), results).Exited?
      ensures events == SubscribedEvents(results, deliver)
    {
      var o := RunMessageLoop(SubscribeMaxFails, results);
      events := Events(o.state.handled, deliver);
      return None, o.Exited?, events;
    }

    /** Closes the reader, then the writers one at a time, stopping at the first
        failure. `closed` lists the topics whose writer was closed, in order. */
    method Close(readerClose: Option<Error>, writerClose: Writer -> Option<Error>)
      returns (err: Option<Error>, closed: seq<string>)
      ensures readerClose.Some? ==> err == readerClose && closed == []
      ensures forall i :: 0 <= i < |closed| ==> closed[i] in writers
      ensures forall i, j :: 0 <= i < j < |closed| ==> closed[i] != closed[j]
      ensures forall i :: 0 <= i < |closed| - 1 ==> writerClose(writers[closed[i]]).None?
      ensures readerClose.None? && err.Some? ==>
                |closed| > 0 && err == writerClose(writers[closed[|closed| - 1]])
      ensures readerClose.None? && err.None? ==>
                forall t :: t in writers <==> t in closed
      ensures readerClose.None? ==>
                (err.None? <==> forall t :: t in writers ==> writerClose(writers[t]).None?)
    {
      if readerClose.Some? {
        return readerClose, [];
      }
      closed := [];
      var todo := writers.Keys;
      while todo != {}
        invariant forall t :: t in todo <==> t in writers && t !in closed
        invariant forall i :: 0 <= i < |closed| ==> closed[i] in writers && writerClose(writers[closed[i]]).None?
        invariant forall i, j :: 0 <= i < j < |closed| ==> closed[i] != closed[j]
        decreases todo
      {
        var t :| t in todo;
        closed := closed + [t];
        var e := writerClose(writers[t]);
        if e.Some? {
          return e, closed;
        }
        todo := todo - {t};
      }
      return None, closed;
    }
  }
}
