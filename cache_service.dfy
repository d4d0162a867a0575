/** The cache orchestration service (core/cache_service.go): every operation
    derives the physical key with the strategy and hands it to the adapter,
    returning the adapter's result unchanged, with no retry and no state of
    its own. */
module Service {
  import opened Base
  import opened Strategy
  import opened CacheAdapter

  class CacheService {
    const cache: RedisAdapter
    const strategy: VersionedKeyStrategy

    constructor (c: RedisAdapter, s: VersionedKeyStrategy)
      ensures cache == c && strategy == s
    {
      cache := c;
      strategy := s;
    }

    /** Reads the adapter at exactly GenerateKey(topic, key); changes nothing. */
    method Get(topic: string, key: string, fault: Option<Error>) returns (val: string, err: Option<Error>)
      ensures (val, err) == Lookup(cache.store, GenerateKey(strategy, topic, key), fault)
    {
      var actualKey := GenerateKey(strategy, topic, key);
      val, err := cache.Get(actualKey, fault);
    }

    /** Writes `val` at GenerateKey(topic, key) with TTL ComputeTTL(ttl). */
    method Set(topic: string, key: string, val: string, ttl: int, fault: Option<Error>) returns (err: Option<Error>)
      modifies cache
      ensures err == fault
      ensures cache.store == Put(old(cache.store), GenerateKey(strategy, topic, key),
                                 Entry(val, ComputeTTL(strategy, ttl)), fault)
    {
      var actualKey := GenerateKey(strategy, topic, key);
      var effectiveTTL := ComputeTTL(strategy, ttl);
      err := cache.Set(actualKey, val, effectiveTTL, fault);
    }

    /** Deletes exactly GenerateKey(topic, key). */
    method Invalidate(topic: string, key: string, fault: Option<Error>) returns (err: Option<Error>)
      modifies cache
      ensures err == fault
      ensures cache.store == Del(old(cache.store), GenerateKey(strategy, topic, key), fault)
    {
      var actualKey := GenerateKey(strategy, topic, key);
      err := cache.Invalidate(actualKey, fault);
    }
  }

  /** Set then Get on the same (topic, key): the value comes back, with the requested TTL. */
  lemma SetThenGet(store: Store, s: VersionedKeyStrategy, topic: string, key: string, val: string, ttl: int)
    ensures var after := Put(store, GenerateKey(s, topic, key), Entry(val, ComputeTTL(s, ttl)), None);
            Lookup(after, GenerateKey(s, topic, key), None) == (val, None)
            && after[GenerateKey(s, topic, key)].ttlSeconds == ttl
  {
  }

  /** Invalidate then Get is a miss; a second Invalidate leaves the same store. */
  lemma InvalidateIdempotent(store: Store, s: VersionedKeyStrategy, topic: string, key: string)
    ensures var k := GenerateKey(s, topic, key);
            Lookup(Del(store, k, None), k, None) == ("", None)
            && Del(Del(store, k, None), k, None) == Del(store, k, None)
  {
  }

  /** Set and Invalidate leave the entry at any other physical key as it was. */
  lemma OtherKeysUnchanged(store: Store, s: VersionedKeyStrategy, topic: string, key: string,
                           other: string, e: Entry, fault: Option<Error>)
    requires other != GenerateKey(s, topic, key)
    ensures Lookup(Put(store, GenerateKey(s, topic, key), e, fault), other, None) == Lookup(store, other, None)
    ensures Lookup(Del(store, GenerateKey(s, topic, key), fault), other, None) == Lookup(store, other, None)
  {
  }

  /** After a version change, Get reports a miss for an entry written under the old version:
      the old entry stays in the backend but is no longer reachable. */
  lemma VersionBumpMisses(store: Store, current: VersionedKeyStrategy, bumped: VersionedKeyStrategy,
                          topic: string, key: string, val: string, ttl: int)
    requires current.delimiter == bumped.delimiter && current.defaultVersion != bumped.defaultVersion
    requires GenerateKey(bumped, topic, key) !in store
    ensures var after := Put(store, GenerateKey(current, topic, key), Entry(val, ComputeTTL(current, ttl)), None);
            GenerateKey(current, topic, key) in after
            && Lookup(after, GenerateKey(bumped, topic, key), None) == ("", None)
  {
    VersionSensitive(current, bumped, topic, key);
  }
}
