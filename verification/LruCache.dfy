/** LRUCacheService. Its asynchronous methods are written as they run when nothing interleaves. */
module LruCache {
  import opened Options
  import opened Collections
  import opened KeyLists
  import opened CacheTables
  import opened Capacity

  class LRUCacheService<V> {
    const maxSize: int
    const defaultTtl: int
    const enableMetrics: bool

    var cache: map<Key, Entry<V>>
    var accessOrder: map<Key, nat>
    var currentTime: nat

    var hits: nat
    var misses: nat
    var totalOperations: nat
    var evictions: nat

    ghost function Model(): Tables<V>
      reads this
    {
      Tables(cache, accessOrder, currentTime)
    }

    ghost predicate Valid()
      reads this
    {
      Coherent(Model()) && hits + misses == totalOperations
    }

    constructor (maxSize: int, defaultTtl: int, enableMetrics: bool)
      ensures Valid() && Model() == Empty()
      ensures this.maxSize == maxSize && this.defaultTtl == defaultTtl && this.enableMetrics == enableMetrics
    {
      this.maxSize, this.defaultTtl, this.enableMetrics := maxSize, defaultTtl, enableMetrics;
      cache, accessOrder, currentTime := map[], map[], 0;
      hits, misses, totalOperations, evictions := 0, 0, 0, 0;
    }

    method Get(key: Key, now: int) returns (answer: Answer<V>)
      requires Valid()
      modifies this
      ensures Valid()
      ensures answer == Found(old(Model()), key, now)
      ensures Model() == Lookup(old(Model()), key, now)
      ensures hits == old(hits) + (if enableMetrics && answer.Hit? then 1 else 0)
      ensures misses == old(misses) + (if enableMetrics && answer.Miss? then 1 else 0)
      ensures evictions == old(evictions) + (if key in old(cache) && answer.Miss? then 1 else 0)
    {
      hide Coherent;
      LookupCoherent(Model(), key, now);
      if key !in cache {
        RecordMiss();
        return Miss;
      }
      if Expired(cache[key], now) {
        var _ := Delete(key);
        RecordMiss();
        return Miss;
      }
      UpdateAccessOrder(key, now);
      RecordHit();
      return Hit(cache[key].value);
    }

    method Set(key: Key, value: V, ttl: Option<int>, now: int)
      requires Valid() && CanTrim(Model(), maxSize)
      modifies this
      ensures Valid()
      ensures var t := if ttl.Some? then ttl.value else defaultTtl;
        Model() == Store(Trim(old(Model()), maxSize), key, NewEntry(value, t, now), now)
      ensures |cache| <= maxSize
      ensures hits == old(hits) && misses == old(misses)
    {
      var effectiveTtl := if ttl.Some? then ttl.value else defaultTtl;
      var entry := NewEntry(value, effectiveTtl, now);
      TrimIsTrimL(Model(), maxSize);
      EnsureCapacity();
      Commit(key, entry, now);
    }

    /** The part of `set` that follows the wait for capacity. */
    method Commit(key: Key, entry: Entry<V>, now: int)
      requires Valid()
      modifies this`cache, this`accessOrder, this`currentTime
      ensures Valid()
      ensures Model() == Store(old(Model()), key, entry, now)
      ensures |cache| <= |old(cache)| + 1
    {
      StoreCoherent(Model(), key, entry, now);
      cache := cache[key := entry];
      UpdateAccessOrder(key, now);
    }

    method Delete(key: Key) returns (existed: bool)
      requires Valid()
      modifies this
      ensures Valid()
      ensures existed == (key in old(cache))
      ensures Model() == Drop(old(Model()), key)
      ensures evictions == old(evictions) + (if existed then 1 else 0)
      ensures hits == old(hits) && misses == old(misses) && totalOperations == old(totalOperations)
    {
      hide Coherent;
      DropCoherent(Model(), {key});
      existed := key in cache;
      DropAbsent(Model(), key);
      if existed {
        cache := cache - {key};
        accessOrder := accessOrder - {key};
        evictions := evictions + 1;
      }
    }

    method Clear()
      requires Valid()
      modifies this
      ensures Valid()
      ensures Model() == Empty()
      ensures hits == old(hits) && misses == old(misses) && evictions == old(evictions)
    {
      cache := map[];
      accessOrder := map[];
      currentTime := 0;
    }

    method Has(key: Key, now: int) returns (present: bool)
      requires Valid()
      modifies this
      ensures Valid()
      ensures present == Found(old(Model()), key, now).Hit?
      ensures Model() == Probe(old(Model()), key, now)
    {
      hide Coherent;
      if key !in cache {
        return false;
      }
      if Expired(cache[key], now) {
        var _ := Delete(key);
        return false;
      }
      return true;
    }

    method EnsureCapacity()
      requires Valid() && CanTrim(Model(), maxSize)
      modifies this
      ensures Valid()
      ensures Model() == Trim(old(Model()), maxSize)
      ensures |cache| < maxSize
      ensures hits == old(hits) && misses == old(misses)
    {
      while |cache| >= maxSize
        invariant Valid() && CanTrim(Model(), maxSize)
        invariant Trim(Model(), maxSize) == Trim(old(Model()), maxSize)
        invariant hits == old(hits) && misses == old(misses)
        decreases |cache|
      {
        EvictKeepsCanTrim(Model(), maxSize);
        EvictLRU();
      }
    }

    method EvictLRU()
      requires Valid()
      modifies this
      ensures Valid()
      ensures Model() == EvictOldest(old(Model()))
      ensures evictions == old(evictions) + (if Model() == old(Model()) then 0 else 1)
      ensures hits == old(hits) && misses == old(misses)
    {
      EvictCoherent(Model());
      hide Coherent;
      assert DistinctTimes(accessOrder) by {
        CoherentTimes(Model());
      }
      var oldestKey := FindOldest(accessOrder);
      if oldestKey.Some? && oldestKey.value != "" {
        cache := cache - {oldestKey.value};
        accessOrder := accessOrder - {oldestKey.value};
        evictions := evictions + 1;
      }
    }

    /** The minimum scan of evictLRU, over the entries in any order. */
    static method FindOldest(order: map<Key, nat>) returns (oldest: Option<Key>)
      requires DistinctTimes(order)
      ensures oldest == if order == map[] then None else Some(Oldest(order))
    {
      var remaining := order.Keys;
      oldest := None;
      var oldestTime := 0;
      while remaining != {}
        invariant remaining <= order.Keys
        invariant oldest.None? ==> remaining == order.Keys
        invariant oldest.Some? ==> oldest.value in order && order[oldest.value] == oldestTime
        invariant oldest.Some? ==> forall x :: x in order && x !in remaining ==> oldestTime <= order[x]
        decreases remaining
      {
        var key :| key in remaining;
        remaining := remaining - {key};
        if oldest.None? || order[key] < oldestTime {
          oldest, oldestTime := Some(key), order[key];
        }
      }
      if oldest.Some? {
        assert IsOldest(order, oldest.value);
      }
    }

    method CleanupExpired(now: int)
      requires Valid()
      modifies this
      ensures Valid()
      ensures Model() == Sweep(old(Model()), now)
      ensures evictions == old(evictions) + |ExpiredKeys(old(cache), now)|
    {
      var expiredKeys := FindExpired(cache, now);
      DropCoherent(Model(), expiredKeys);
      RemoveExpired(expiredKeys);
    }

    static method FindExpired(cache: map<Key, Entry<V>>, now: int) returns (expiredKeys: set<Key>)
      ensures expiredKeys == ExpiredKeys(cache, now)
    {
      expiredKeys := {};
      var remaining := cache.Keys;
      while remaining != {}
        invariant remaining <= cache.Keys
        invariant expiredKeys == ExpiredKeys(cache, now) - remaining
        decreases remaining
      {
        var key :| key in remaining;
        remaining := remaining - {key};
        if now > cache[key].expiry {
          expiredKeys := expiredKeys + {key};
        }
      }
    }

    method RemoveExpired(expiredKeys: set<Key>)
      modifies this`cache, this`accessOrder, this`evictions
      ensures Model() == DropAll(old(Model()), expiredKeys)
      ensures evictions == old(evictions) + |expiredKeys|
    {
      var doomed := expiredKeys;
      ghost var gone: set<Key> := {};
      while doomed != {}
        invariant gone + doomed == expiredKeys && gone * doomed == {}
        invariant cache == old(cache) - gone && accessOrder == old(accessOrder) - gone
        invariant evictions == old(evictions) + |gone|
        decreases doomed
      {
        var key :| key in doomed;
        doomed := doomed - {key};
        MinusTwice(old(cache), gone, {key});
        MinusTwice(old(accessOrder), gone, {key});
        gone := gone + {key};
        cache := cache - {key};
        accessOrder := accessOrder - {key};
        evictions := evictions + 1;
      }
    }

    method UpdateAccessOrder(key: Key, now: int)
      requires key in cache
      modifies this`cache, this`accessOrder, this`currentTime
      ensures Model() == Touch(old(Model()), key, now)
    {
      cache := cache[key := Used(cache[key], now)];
      currentTime := currentTime + 1;
      accessOrder := accessOrder[key := currentTime];
    }

    method RecordHit()
      modifies this`hits, this`totalOperations
      ensures hits == old(hits) + (if enableMetrics then 1 else 0)
      ensures totalOperations == old(totalOperations) + (if enableMetrics then 1 else 0)
    {
      if enableMetrics {
        hits, totalOperations := hits + 1, totalOperations + 1;
      }
    }

    method RecordMiss()
      modifies this`misses, this`totalOperations
      ensures misses == old(misses) + (if enableMetrics then 1 else 0)
      ensures totalOperations == old(totalOperations) + (if enableMetrics then 1 else 0)
    {
      if enableMetrics {
        misses, totalOperations := misses + 1, totalOperations + 1;
      }
    }
  }
}
