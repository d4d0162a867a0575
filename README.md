# Cache-invalidation middleware: a Dafny model of its coordination core

This project models the coordination logic of a cache-invalidation middleware
written in Go. Processes read, write and invalidate entries in a shared Redis
cache. They tell each other about invalidations over Kafka. The modelled parts
are:

- the versioned key strategy, which turns a logical `(topic, key)` into the
  physical key `topic + ":" + key + delimiter + decimal(version)`
  (`strategy.dfy`, module `Strategy`);
- the Redis adapter (`redis_adapter.dfy`, module `CacheAdapter`). This covers
  how GET replies become `(value, error)` returns, what SET and DEL do to the
  backend's contents, and the bounded connect-retry loop;
- the cache service, which composes strategy and adapter
  (`cache_service.dfy`, module `Service`);
- the consumption loop, with its fail count and `ready` flag
  (`connection.dfy`, module `Connection`);
- the Kafka broker's writer map, publishing, subscription and close order
  (`kafka_broker.dfy`, module `Broker`);
- the event listener, which invalidates locally what peers publish
  (`event_listener.dfy`, module `Listener`);
- the duplicate-log suppressor (`suppress_logger.dfy`, module `Suppress`);
- the backend selectors (`adapter_factory.dfy`, module `Factory`);
- the configuration records (`config.dfy`) and Go's `error` as
  `Option<Error>` (`base.dfy`).

Redis and Kafka are oracles. Whether a GET, SET, DEL, ping, write or close
fails is a parameter. The Redis server is a map from physical key to entry (the
value and the TTL it was written with), held by the `RedisAdapter` class. What
the Kafka reader returns is a finite sequence of read results. Time in the
suppressor is an integer number of nanoseconds passed in by the caller.
`os.Exit(1)` becomes a terminal state (`Exited`, `ConnectFatal`, or a `null`
adapter). Go interfaces (interface/interfaces.go) become the concrete classes
and datatypes, because each interface has exactly one implementation.

In these points the model follows the code, where one might expect otherwise:
- a miss is returned as `("", nil)`, not as a separate found flag;
- `Publish` ignores its topic argument and publishes to an arbitrary
  existing topic, or to `"default"`;
- `PublishTo` does not re-check the map after taking the write lock;
- `Close` stops at the first failure.

## Model

| member | source | states |
|---|---|---|
| `Strategy.NewVersionedKeyStrategy` | core/strategy/strategy_versioned.go:14-19 | the delimiter and default version are copied from the configuration unchanged |
| `Strategy.GenerateKey` | core/strategy/strategy_versioned.go:21-23 | the physical key splits at fixed places into `topic + ":"`, the key, the delimiter and the rendered version, and its length is the sum of theirs |
| `Strategy.ComputeTTL` | core/strategy/strategy_versioned.go:25-27 | the effective TTL equals the requested one for every integer, zero and negatives included |
| `Strategy.NatDigits` | core/strategy/strategy_versioned.go:29-31 | a natural number renders as a nonempty string of decimal digits with no leading zero |
| `Strategy.ToString` | core/strategy/strategy_versioned.go:29-31 | `%d` rendering: nonempty, and it starts with `-` exactly for negative numbers |
| `Strategy.NatDigitsRoundTrip` | core/strategy/strategy_versioned.go:29-31 | reading the digits of `n` back gives `n` |
| `Strategy.ToStringRoundTrip` | core/strategy/strategy_versioned.go:29-31 | parsing a rendered integer gives the integer back |
| `Strategy.ToStringInjective` | core/strategy/strategy_versioned.go:29-31 | two integers with the same rendering are equal |
| `Strategy.VersionReadBack` | core/strategy/strategy_versioned.go:21-31 | the version can be parsed back from the end of every physical key |
| `Strategy.VersionSensitive` | core/strategy/strategy_versioned.go:21-31 | with the same delimiter, two different versions give different physical keys for every (topic, key) |
| `Strategy.TopicKeySplitCollides` | core/strategy/strategy_versioned.go:22 | the key is not injective in (topic, key): ("a:b", "c") and ("a", "b:c") give the same physical key |
| `Strategy.EmptyTopicDiffers` | core/strategy/strategy_versioned.go:22 | a nonempty topic never shares a physical key with the empty topic for the same key |
| `CacheAdapter.GetReply` | core/cache_adapter/redis_adapter.go:60 | the backend's GET reply: the injected error if any, otherwise a hit exactly when the key is stored, carrying the stored value, and `redis.Nil` exactly when it is not |
| `CacheAdapter.MapReply` | core/cache_adapter/redis_adapter.go:61-70 | `redis.Nil` becomes `("", nil)`, any other error `("", err)`, a hit `(value, nil)` |
| `CacheAdapter.Lookup` | core/cache_adapter/redis_adapter.go:58-71 | Get returns the backend error unchanged, and otherwise the stored value or `""` on a miss |
| `CacheAdapter.Put` | core/cache_adapter/redis_adapter.go:73-82 | a successful SET stores the entry at the key; a failed one changes nothing; other keys keep their entries |
| `CacheAdapter.Del` | core/cache_adapter/redis_adapter.go:84-93 | a successful DEL removes the key, present or not; a failed one changes nothing; other keys keep their entries |
| `CacheAdapter.EmptyValueLooksLikeMiss` | core/cache_adapter/redis_adapter.go:61-70 | a stored empty string and an absent key give the same result `("", nil)` |
| `CacheAdapter.LookupAfterPut` | core/cache_adapter/redis_adapter.go:58-82 | Get after a successful Set at the same key returns the value with no error |
| `CacheAdapter.LookupAfterDel` | core/cache_adapter/redis_adapter.go:58-93 | Get after a successful Invalidate is a miss, and a second Invalidate leaves the same store |
| `CacheAdapter.ConnectAttempts` | core/cache_adapter/redis_adapter.go:36-55 | at most 3 pings; it connects at the first successful one, and is fatal with fail count 3 exactly when all three fail |
| `CacheAdapter.RedisAdapter.constructor` | core/cache_adapter/redis_adapter.go:44-48 | the adapter keeps the configured TTL and sees the server's current contents |
| `CacheAdapter.RedisAdapter.Get` | core/cache_adapter/redis_adapter.go:58-71 | on a hit, the stored value with nil; on a miss, `""` with nil; on another error, `""` with that error; the store is not changed |
| `CacheAdapter.RedisAdapter.Set` | core/cache_adapter/redis_adapter.go:73-82 | writes with the caller's `ttlSeconds`, not the configured `ttl`; the backend error is returned unchanged, nil on success |
| `CacheAdapter.RedisAdapter.Invalidate` | core/cache_adapter/redis_adapter.go:84-93 | deletes the key; the backend error is returned unchanged, nil on success, also for an absent key |
| `CacheAdapter.NewRedisAdapter` | core/cache_adapter/redis_adapter.go:24-56 | an adapter is returned exactly when one of the first three pings succeeds; otherwise the process exits and no adapter exists |
| `Service.CacheService.constructor` | core/cache_service.go:12-14 | the adapter and strategy are fixed at construction (they are constants afterwards) |
| `Service.CacheService.Get` | core/cache_service.go:16-19 | queries the adapter at exactly GenerateKey(topic, key) and returns its result unchanged |
| `Service.CacheService.Set` | core/cache_service.go:21-25 | writes the value at GenerateKey(topic, key) with TTL ComputeTTL(ttl); returns the adapter error unchanged |
| `Service.CacheService.Invalidate` | core/cache_service.go:27-30 | deletes exactly GenerateKey(topic, key); returns the adapter error unchanged |
| `Service.SetThenGet` | core/cache_service.go:16-25 | Set then Get on the same (topic, key) returns the value, stored with the requested TTL |
| `Service.InvalidateIdempotent` | core/cache_service.go:16-30 | Invalidate then Get is a miss; a second Invalidate leaves the same store |
| `Service.OtherKeysUnchanged` | core/cache_service.go:21-30 | Set and Invalidate, failed or not, leave every other physical key's entry as it was |
| `Service.VersionBumpMisses` | core/cache_service.go:16-25 | after changing only the version, Get misses an entry written under the old version, and that entry is still in the backend |
| `Connection.Step` | infrautil/connection.go:28-48 | a failure raises the count by exactly 1 and is fatal exactly when the count reaches `maxFails`; a success resets the count to 0, sets `ready` and hands the message on; `ready` never turns false |
| `Connection.RunMessageLoop` | infrautil/connection.go:18-50 | the loop's result is the fold of the step over the reads; a fatal exit happens at a read index with the count at or above `maxFails` |
| `Connection.ReadMessageInMessages` | infrautil/connection.go:41-48 | the message of every successful read is among the messages the handler gets |
| `Connection.FailCountBelowMax` | infrautil/connection.go:25-38 | starting below `maxFails`, the count stays below it while the loop runs, and the exit happens at a failed read with the count exactly `maxFails` |
| `Connection.HandledAreMessages` | infrautil/connection.go:29-48 | the handler gets each successful read's message once, in read order, up to the fatal read, and nothing for failures |
| `Connection.ReadyOnFirstSuccess` | infrautil/connection.go:26-44 | `ready` is true at the end exactly when it was true at the start or some consumed read succeeded |
| `Connection.ExitIffFailureRunFrom` | infrautil/connection.go:29-46 | from a count `c`, the loop exits exactly when `c` plus the leading failures reach `maxFails`, or `maxFails` failures occur in a row |
| `Connection.ExitIffFailureRun` | infrautil/connection.go:29-46 | from the start, the loop exits exactly when `maxFails` reads fail in a row; failures do not accumulate across a success |
| `Connection.RecoversBelowMax` | infrautil/connection.go:29-46 | fewer failures than the remaining budget followed by a success: no exit, the count is 0, ready, and the message handled |
| `Connection.ExitsAtMax` | infrautil/connection.go:29-36 | `maxFails` failures in a row from a zero count: the fatal path is taken once, at the last of them, and no later read is consumed |
| `Suppress.Decide` | infrautil/logger.go:22-28 | a call is suppressed exactly when the message repeats the last one, something was logged before, and less than the interval has passed since; when suppressed the state is unchanged, otherwise it becomes (msg, now) |
| `Suppress.SuppressLogger.constructor` | infrautil/logger.go:14-16 | the zero state: empty last message and no last time, standing for Go's zero `time.Time` |
| `Suppress.SuppressLogger.ShouldLog` | infrautil/logger.go:18-29 | decides as `Decide`; `lastMsg`/`lastAt` become (msg, now) when it returns true and stay as they were when it returns false |
| `Suppress.NewMessageLogged` | infrautil/logger.go:23 | a message different from the last one is always logged |
| `Suppress.FirstMessageLogged` | infrautil/logger.go:14-23 | from the zero state, the first message is logged, the empty one included, because the time elapsed since the zero `time.Time` is never below an interval |
| `Suppress.RepeatsWithinIntervalDropped` | infrautil/logger.go:22-28 | after a message is logged at `t`, all its repeats before `t + interval` are dropped and the state stays |
| `Suppress.ImmediateRepeatDropped` | infrautil/logger.go:22-28 | with a positive interval, a message repeated at the same instant is dropped the second time, whatever the first call decided |
| `Broker.Published` | core/event_broker/kafka_broker.go:154-157 | the published message carries the key as both its key and its value |
| `Broker.DeliveredAsWritten` | core/event_broker/kafka_broker.go:172-175 | as written, the handler receives the reader's configured topic (empty) and the message value |
| `Broker.Delivered` | core/event_broker/kafka_broker.go:172-175 | as corrected (see Findings), the handler receives the topic the message was read from and its value |
| `Broker.PublishedKeyDelivered` | core/event_broker/kafka_broker.go:154-175 | a key published through a topic's writer reaches the handler as exactly (topic, key) as corrected, and as ("", key) as written |
| `Broker.InitialWriters` | core/event_broker/kafka_broker.go:29-34 | one writer per configured topic and no other, each for its own topic |
| `Broker.KafkaBroker.constructor` | core/event_broker/kafka_broker.go:26-71 | the writer map holds exactly the configured topics, each writer for its own topic |
| `Broker.KafkaBroker.DefaultTopic` | core/event_broker/kafka_broker.go:131-139 | some topic in the writer map when it is nonempty (which one is unspecified), `"default"` otherwise |
| `Broker.KafkaBroker.PublishTo` | core/event_broker/kafka_broker.go:141-165 | afterwards the topic has a writer even when the write fails; an existing writer is reused and the map is unchanged; otherwise exactly one writer is added; other topics keep theirs; the write error is returned unchanged |
| `Broker.KafkaBroker.Publish` | core/event_broker/kafka_broker.go:127-139 | ignores its topic argument and publishes to DefaultTopic(): with no writers, a `"default"` writer is created and used; otherwise some existing writer is used and the map is unchanged |
| `Broker.KafkaBroker.Subscribe` | core/event_broker/kafka_broker.go:167-177 | always returns nil; runs the consumption loop with limit 5 and hands the handler `deliver` of each successfully read message, in order; the code as written is the instance `deliver == DeliveredAsWritten` |
| `Broker.KafkaBroker.Close` | core/event_broker/kafka_broker.go:179-193 | the reader is closed first, and if that fails no writer is closed; writers are closed one at a time, each at most once, stopping at the first failure, which is returned; nil exactly when every writer closed |
| `Listener.EventListener.constructor` | core/event_listener.go:13-18 | the listener keeps the broker and the service it was given |
| `Listener.EventListener.HandleEvent` | core/event_listener.go:22-24 | handling (topic, key) invalidates exactly GenerateKey(topic, key) through the service; its error is discarded |
| `Listener.EventListener.Start` | core/event_listener.go:21-25 | the subscription error is discarded; the store ends as the delivered events' invalidations applied in delivery order, for the same `deliver` as Subscribe |
| `Listener.HandledEventMisses` | core/event_listener.go:23 | after a handled event, Get on it is a miss, and handling the same event again leaves the same store |
| `Listener.PhysicalKeys` | core/event_listener.go:23 | the physical key of every event is in the set of keys the events name |
| `Listener.PhysicalKeysAreNamed` | core/event_listener.go:23 | every key in that set is the physical key of one of the events |
| `Listener.InvalidateAllRemovesNamedKeys` | core/event_listener.go:21-25 | with no backend errors, handling the events removes exactly the keys they name and leaves every other entry untouched |
| `Listener.InvalidateAllKeepsUnnamed` | core/event_listener.go:21-25 | handling events none of which names a physical key leaves that key's entry as it was, present or absent |
| `Listener.PeerInvalidatesPublishedKey` | core/event_listener.go:21-25 | as corrected: when a peer's listener reads a key published to a topic, its loop has not exited and no invalidation fails, the peer's entry for (topic, key) is gone |
| `Listener.AsWrittenEventsAreEmptyTopic` | core/event_broker/kafka_broker.go:172-175 | as written, every event the handler receives has the empty topic and the key the messages carry |
| `Listener.AsWrittenPeerKeepsStaleEntry` | core/event_broker/kafka_broker.go:172-175 | as written: a peer's listener that reads only messages carrying `key` deletes only the entry of ("", key), and its entry for (topic, key) with a nonempty topic is left as it was, stale |
| `Factory.NewCacheAdapter` | core/adapter_factory.go:14-21 | `"redis"` selects the Redis adapter with its configuration; any other type gives exactly `"unsupported cache type: " + type` and no adapter |
| `Factory.NewEventBroker` | core/adapter_factory.go:24-31 | `"kafka"` selects the Kafka broker; anything else gives `"unsupported event broker type: " + type` |
| `Factory.NewInvalidationStrategy` | core/adapter_factory.go:34-41 | `"versioned-key"` gives the versioned strategy built from the versioned settings; anything else gives `"unsupported invalidation strategy: " + strategy` |
| `Factory.ErrorsNameRejectedValue` | core/adapter_factory.go:14-41 | the rejected configuration value can be read back from each error message after its prefix |

## Findings

| source | as written | input that shows it | evidently intended | confidence | as-written member | corrected member |
|---|---|---|---|---|---|---|
| core/event_broker/kafka_broker.go:172-175 | The subscription handler is called with `k.reader.Config().Topic`. The reader is built at lines 37-52 with `GroupTopics` only, so that topic is the empty string. | Topic `"orders"`, key `"42"` is published. The peer's listener invalidates `GenerateKey("", "42")`, so the entry at `GenerateKey("orders", "42")` stays stale. | The handler receives the topic the message was read from (the message's own topic). The peer then invalidates `GenerateKey("orders", "42")`. | medium: it depends on the Kafka client leaving `Topic` unset for group readers; not executed | `Broker.DeliveredAsWritten`, `Listener.AsWrittenPeerKeepsStaleEntry` | `Broker.Delivered`, `Listener.PeerInvalidatesPublishedKey` |

`Broker.KafkaBroker.Subscribe` and `Listener.EventListener.Start` take the
handler argument as a parameter `deliver`. The code as written is the instance
`DeliveredAsWritten`, for which `Listener.AsWrittenPeerKeepsStaleEntry` holds;
the corrected code is the instance `Delivered`, for which
`Listener.PeerInvalidatesPublishedKey` holds.

## Left out

- Redis and Kafka I/O is not modelled. Pings, GET/SET/DEL, writes, reads and closes are oracles passed in as parameters.
- TTL expiry by the backend is not modelled; an entry stays until it is deleted.
- A failed SET or DEL is modelled as leaving the store unchanged. The real server may have applied it before the error.
- `createTopicIfNotExists` (core/event_broker/kafka_broker.go:81-125) is not modelled. Topic provisioning is Kafka administration.
- The startup `FetchMessage` probe (core/event_broker/kafka_broker.go:54-63) is not modelled. It may take one message from the group and discard it, so that message never reaches the handler; the read results given to `Subscribe` start after it. `LogConnectionResult` only logs.
- The reader's tuning parameters are not modelled, and neither is `reader.Close` beyond its error.
- Logging, `time.Sleep` and `os.Exit` are not modelled. Logging and sleeping have no effect on the modelled state. The exit is a terminal state.
- Concurrency is not modelled: the broker's `RWMutex`, the suppressor's `Mutex` and the goroutine started by `Subscribe` are all sequential here. So "one writer per topic under concurrent first use" is neither claimed nor modelled. The code does not re-check the map after taking the write lock.
- Connection.RunMessageLoop: the source loop never ends, because it reads forever. The model runs it over a finite sequence of read results and reports `Running` when they run out.
- Broker.KafkaBroker.Subscribe: the handler runs after the loop over the delivered messages instead of inside it. The messages, their order and the store effects are the same, because the reads do not depend on the handler.
- Writers are values fixed by broker addresses and topic. Pointer identity of `*kafka.Writer` is not modelled, so "reused" shows as "the map is unchanged".
- Go's random map iteration order in `defaultTopic` and `Close` is modelled as an unspecified choice. The contracts hold for every order.
- Integers are unbounded. The 64-bit `int` of versions, TTLs and times is not bounded here. The saturation of `time.Time.Sub` between two recorded instants and the overflow of `time.Duration(ttlSeconds)*time.Second` are not modelled.
- Factory.NewCacheAdapter, Factory.NewEventBroker: they return the selected backend and its configuration. Running its constructor is `CacheAdapter.NewRedisAdapter` or `Broker.KafkaBroker.constructor`.
- Broker.KafkaBroker.Subscribe: the handler argument is the parameter `deliver` rather than fixed. The program as written is `deliver == DeliveredAsWritten`, whose empty topic makes peers delete the wrong entry (see Findings).
- Listener.EventListener.Start: it inherits `deliver` from Subscribe. Its store result for the code as written is the instance `DeliveredAsWritten`; `Delivered` gives the corrected behaviour.
- Broker.KafkaBroker.constructor: it requires a broker address whenever topics are configured, because the source indexes `cfg.Brokers[0]` for every topic and would panic.
- The HTTP handlers, `main.go`, YAML configuration loading and the zap logger setup are not part of this model.
