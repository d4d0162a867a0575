/** The Redis cache adapter (core/cache_adapter/redis_adapter.go): how the
    backend's replies become the adapter's (value, error) returns, the
    effect of SET and DEL on the backend's contents, and the bounded
    connect-retry loop of the constructor. The Redis server is modelled by
    its contents, a map from physical key to entry; whether a command
    fails is an oracle passed in by the caller. */
module CacheAdapter {
  import opened Base
  import Config

  /** What the backend holds under a physical key: the value and the TTL it was written with. */
  datatype Entry = Entry(value: string, ttlSeconds: int)

  type Store = map<string, Entry>

  /** The reply of the backend's GET: a value, `redis.Nil` for an absent key, or another error. */
  datatype Reply = Hit(value: string) | Nil | Failure(err: Error)

  /** The backend's GET reply on `store`; `fault` is the error the call runs into, if any. */
  function GetReply(store: Store, key: string, fault: Option<Error>): (r: Reply)
    ensures fault.Some? ==> r == Failure(fault.value)
    ensures fault.None? ==> (r.Hit? <==> key in store)
    ensures r.Hit? ==> key in store && r.value == store[key].value
    ensures fault.None? && key !in store ==> r == Nil
  {
    match fault
    case Some(e) => Failure(e)
    case None => if key in store then Hit(store[key].value) else Nil
  }

  /** How Get turns a reply into its return: a miss is not an error. */
  function MapReply(reply: Reply): (r: (string, Option<Error>))
    ensures reply.Nil? ==> r == ("", None)
    ensures reply.Failure? ==> r == ("", Some(reply.err))
    ensures reply.Hit? ==> r == (reply.value, None)
  {
    match reply
    case Nil => ("", None)
    case Failure(e) => ("", Some(e))
    case Hit(v) => (v, None)
  }

  /** The adapter's Get on `store`. */
  function Lookup(store: Store, key: string, fault: Option<Error>): (r: (string, Option<Error>))
    ensures r.1 == fault
    ensures r.0 == (if fault.None? && key in store then store[key].value else "")
  {
    MapReply(GetReply(store, key, fault))
  }

  /** The store after the adapter's Set: written on success, untouched on failure. */
  function Put(store: Store, key: string, e: Entry, fault: Option<Error>): (r: Store)
    ensures fault.Some? ==> r == store
    ensures fault.None? ==> key in r && r[key] == e
    ensures forall k :: k != key ==> (k in r <==> k in store) && (k in r ==> r[k] == store[k])
  {
    if fault.None? then store[key := e] else store
  }

  /** The store after the adapter's Invalidate: `key` removed on success, untouched on failure. */
  function Del(store: Store, key: string, fault: Option<Error>): (r: Store)
    ensures fault.Some? ==> r == store
    ensures fault.None? ==> key !in r
    ensures forall k :: k != key ==> (k in r <==> k in store) && (k in r ==> r[k] == store[k])
  {
    if fault.None? then store - {key} else store
  }

  /** A miss and a stored empty string cannot be told apart by the caller. */
  lemma EmptyValueLooksLikeMiss(store: Store, key: string)
    requires key in store && store[key].value == ""
    ensures Lookup(store, key, None) == Lookup(store - {key}, key, None) == ("", None)
  {
  }

  /** After a successful Set, Get at the same key returns the value written. */
  lemma LookupAfterPut(store: Store, key: string, value: string, ttlSeconds: int)
    ensures Lookup(Put(store, key, Entry(value, ttlSeconds), None), key, None) == (value, None)
  {
  }

  /** After a successful Invalidate, Get at the same key is a miss, and a second
      successful Invalidate changes nothing. */
  lemma LookupAfterDel(store: Store, key: string)
    ensures Lookup(Del(store, key, None), key, None) == ("", None)
    ensures Del(Del(store, key, None), key, None) == Del(store, key, None)
  {
  }

  // ---------------------------------------------------------------------------
  // Connecting: at most MaxPings pings, stop at the first that succeeds

  const MaxPings: nat := 3

  datatype ConnectOutcome = Connected(attempt: nat) | ConnectFatal(failCount: nat)

  /** The retry loop of NewRedisAdapter; `ping(i)` is whether the i-th ping
      (counting from 1) succeeds. The two-second sleeps are not modelled. */
  method ConnectAttempts(ping: nat -> bool) returns (o: ConnectOutcome)
    ensures o.Connected? ==> 1 <= o.attempt <= MaxPings && ping(o.attempt)
    ensures o.Connected? ==> forall j :: 1 <= j < o.attempt ==> !ping(j)
    ensures o.ConnectFatal? ==> o.failCount == MaxPings
    ensures o.ConnectFatal? ==> forall j :: 1 <= j <= MaxPings ==> !ping(j)
  {
    var failCount := 0;
    var i := 1;
    while i <= MaxPings
      invariant 1 <= i <= MaxPings + 1
      invariant failCount == i - 1
      invariant forall j :: 1 <= j < i ==> !ping(j)
    {
      if ping(i) {
        return Connected(i);
      }
      failCount := failCount + 1;
      i := i + 1;
    }
    return ConnectFatal(failCount);
  }

  /** A connected Redis adapter. `store` is what the server holds; `ttl` is
      the configured default, which the adapter keeps and never reads. */
  class RedisAdapter {
    var store: Store
    const ttl: int

    constructor (ttlSeconds: int, backend: Store)
      ensures store == backend && ttl == ttlSeconds
    {
      store := backend;
      ttl := ttlSeconds;
    }

    /** GET: the stored value on a hit, ("", nil) on a miss, ("", err) on any other error. */
    method Get(key: string, fault: Option<Error>) returns (val: string, err: Option<Error>)
      ensures (val, err) == Lookup(store, key, fault)
      ensures fault.Some? ==> val == "" && err == fault
      ensures fault.None? && key !in store ==> val == "" && err == None
      ensures fault.None? && key in store ==> val == store[key].value && err == None
    {
      var reply := GetReply(store, key, fault);
      match reply
      case Nil =>
        return "", None;
      case Failure(e) =>
        return "", Some(e);
      case Hit(v) =>
        return v, None;
    }

    /** SET with the caller's TTL (not the configured `ttl`); the backend error is returned as is. */
    method Set(key: string, value: string, ttlSeconds: int, fault: Option<Error>) returns (err: Option<Error>)
      modifies this
      ensures err == fault
      ensures store == Put(old(store), key, Entry(value, ttlSeconds), fault)
    {
      if fault.Some? {
        return fault;
      }
      store := store[key := Entry(value, ttlSeconds)];
      return None;
    }

    /** DEL; deleting an absent key is not an error. */
    method Invalidate(key: string, fault: Option<Error>) returns (err: Option<Error>)
      modifies this
      ensures err == fault
      ensures store == Del(old(store), key, fault)
    {
      if fault.Some? {
        return fault;
      }
      store := store - {key};
      return None;
    }
  }

  /** NewRedisAdapter: an adapter on the first successful ping; `null` stands
      for the process exit after MaxPings failed pings. */
  method NewRedisAdapter(cfg: Config.RedisConfig, ping: nat -> bool, backend: Store) returns (a: RedisAdapter?)
    ensures a != null <==> exists j :: 1 <= j <= MaxPings && ping(j)
    ensures a != null ==> fresh(a) && a.store == backend && a.ttl == cfg.ttlSeconds
  {
    var o := ConnectAttempts(ping);
    if o.ConnectFatal? {
      return null;
    }
    a := new RedisAdapter(cfg.ttlSeconds, backend);
  }
}
