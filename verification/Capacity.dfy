/** The eviction loop of LRUCacheService: when it stops, and what it leaves. */
module Capacity {
  import opened KeyLists
  import opened CacheTables
  import opened RecencyList

  /** One eviction on the list: the last key goes unless it is empty. */
  function EvictLast(order: seq<Key>): seq<Key> {
    if order == [] || order[|order| - 1] == "" then order else order[..|order| - 1]
  }

  ghost predicate CanTrimList(order: seq<Key>, maxSize: int) {
    |order| < maxSize || (maxSize >= 1 && "" !in order[maxSize - 1..])
  }

  ghost predicate CanTrim<V>(t: Tables<V>, maxSize: int) {
    CanTrimList(Recency(t.accessOrder), maxSize)
  }

  lemma EvictLastKeepsCanTrim(order: seq<Key>, maxSize: int)
    requires |order| >= maxSize
    ensures CanTrimList(EvictLast(order), maxSize) == CanTrimList(order, maxSize)
    ensures CanTrimList(order, maxSize) ==> |EvictLast(order)| == |order| - 1
    ensures CanTrimList(order, maxSize) ==> Take(EvictLast(order), maxSize - 1) == Take(order, maxSize - 1)
  {
    if order != [] && maxSize >= 1 {
      var n := |order| - 1;
      assert order == order[..n] + [order[n]];
      assert order[maxSize - 1..] == order[..n][maxSize - 1..] + [order[n]];
    }
  }

  lemma EvictedOrder<V>(t: Tables<V>)
    requires DistinctTimes(t.accessOrder)
    ensures Recency(EvictOldest(t).accessOrder) == EvictLast(Recency(t.accessOrder))
  {
    var order, keys := t.accessOrder, Recency(t.accessOrder);
    RecencyIsRecency(order);
    if order != map[] {
      OldestIsLast(order, keys);
      RecencyUnique(order - {Oldest(order)}, keys[..|keys| - 1]);
    }
  }

  lemma EvictOldestList<V>(t: Tables<V>)
    requires Coherent(t)
    ensures Coherent(EvictOldest(t))
    ensures Recency(EvictOldest(t).accessOrder) == EvictLast(Recency(t.accessOrder))
    ensures EvictOldest(t).currentTime == t.currentTime
    ensures |Recency(t.accessOrder)| == |t.cache|
    ensures |Recency(EvictOldest(t).accessOrder)| == |EvictOldest(t).cache|
  {
    EvictedOrder(t);
    EvictCoherent(t);
    hide Coherent, Recency, Oldest;
    AbsWellFormed(t);
    AbsWellFormed(EvictOldest(t));
  }

  lemma EvictKeepsCanTrim<V>(t: Tables<V>, maxSize: int)
    requires Coherent(t) && |t.cache| >= maxSize
    ensures Coherent(EvictOldest(t))
    ensures CanTrim(EvictOldest(t), maxSize) == CanTrim(t, maxSize)
    ensures CanTrim(t, maxSize) ==> |EvictOldest(t).cache| < |t.cache|
  {
    EvictOldestList(t);
    EvictLastKeepsCanTrim(Recency(t.accessOrder), maxSize);
  }

  /** What the loop of ensureCapacity leaves when it stops. */
  ghost function Trim<V>(t: Tables<V>, maxSize: int): Tables<V>
    requires Coherent(t) && CanTrim(t, maxSize)
    decreases |t.cache|
  {
    if |t.cache| < maxSize then t
    else
      EvictKeepsCanTrim(t, maxSize);
      Trim(EvictOldest(t), maxSize)
  }

  /** The cache is its restriction to the listed keys. */
  lemma EntriesRestrict<V>(t: Tables<V>, order: seq<Key>)
    requires Coherent(t)
    ensures forall k :: k in Restrict(Abs(t), order).entries <==> k in t.cache && k in order
    ensures order == Recency(t.accessOrder) ==> Restrict(Abs(t), order).entries == t.cache
  {
    AbsWellFormed(t);
  }

  lemma RestrictAgrees<V>(a: Lru<V>, b: Lru<V>, kept: seq<Key>)
    requires forall k :: k in kept ==> k in a.entries && k in b.entries && a.entries[k] == b.entries[k]
    ensures Restrict(a, kept) == Restrict(b, kept)
  {
  }

  lemma EvictRestrict<V>(t: Tables<V>, kept: seq<Key>)
    requires Coherent(t) && forall k :: k in kept ==> k in EvictLast(Recency(t.accessOrder))
    ensures Restrict(Abs(EvictOldest(t)), kept) == Restrict(Abs(t), kept)
  {
    EvictOldestList(t);
    hide Coherent, Recency, NoDuplicates, EvictLast;
    AbsWellFormed(EvictOldest(t));
    RestrictAgrees(Abs(EvictOldest(t)), Abs(t), kept);
  }

  lemma {:induction false} TrimIsTrimL<V>(t: Tables<V>, maxSize: int)
    requires Coherent(t) && CanTrim(t, maxSize)
    ensures maxSize >= 1
    ensures Coherent(Trim(t, maxSize)) && |Trim(t, maxSize).cache| < maxSize
    ensures Trim(t, maxSize).currentTime == t.currentTime
    ensures Abs(Trim(t, maxSize)) == TrimL(Abs(t), maxSize)
    decreases |t.cache|
  {
    EvictOldestList(t);
    var order := Recency(t.accessOrder);
    if |t.cache| < maxSize {
      EntriesRestrict(t, order);
    } else {
      EvictKeepsCanTrim(t, maxSize);
      EvictLastKeepsCanTrim(order, maxSize);
      TrimIsTrimL(EvictOldest(t), maxSize);
      var kept := Take(order, maxSize - 1);
      EvictRestrict(t, kept);
    }
  }

  /** Without the empty key nothing stops the loop. */
  lemma NonEmptyKeysCanTrim<V>(t: Tables<V>, maxSize: int)
    requires Coherent(t) && "" !in t.cache && maxSize >= 1
    ensures CanTrim(t, maxSize)
  {
    AbsWellFormed(t);
  }

  lemma TrimDropsOnly<V>(t: Tables<V>, maxSize: int)
    requires Coherent(t) && CanTrim(t, maxSize)
    ensures forall k :: k in Trim(t, maxSize).cache ==> k in t.cache && Trim(t, maxSize).cache[k] == t.cache[k]
  {
    TrimIsTrimL(t, maxSize);
    assert Trim(t, maxSize).cache == TrimL(Abs(t), maxSize).entries;
  }

  /** `set` on the maps is `set` on the list. */
  lemma SetRefines<V>(t: Tables<V>, key: Key, value: V, ttl: int, now: int, maxSize: int)
    requires Coherent(t) && CanTrim(t, maxSize)
    ensures maxSize >= 1
    ensures Abs(Store(Trim(t, maxSize), key, NewEntry(value, ttl, now), now)) == SetL(Abs(t), key, value, ttl, now, maxSize)
  {
    TrimIsTrimL(t, maxSize);
    AbsStore(Trim(t, maxSize), key, NewEntry(value, ttl, now), now);
  }

  /** For a list that fits, `set` is a textbook least-recently-used insertion exactly when it does not store
      again, at full capacity, a key other than the oldest: then one key more than needed is lost. */
  lemma SetIsTextbookExactlyWhen(order: seq<Key>, key: Key, maxSize: int)
    requires NoDuplicates(order) && maxSize >= 1 && |order| <= maxSize
    ensures
      var textbook := ToFront(if key in order then order else Take(order, maxSize - 1), key);
      ToFront(Take(order, maxSize - 1), key) == textbook
      <==> !(|order| == maxSize && key in order[..maxSize - 1])
  {
    if |order| == maxSize && key in order {
      var kept := order[..maxSize - 1];
      assert order == kept + [order[maxSize - 1]];
      WithoutConcat(kept, [order[maxSize - 1]], {key});
      if key in kept {
        assert Without([order[maxSize - 1]], {key}) == [order[maxSize - 1]];
      }
    }
  }

  ghost function EvictTimes<V>(t: Tables<V>, n: nat): Tables<V>
    decreases n
  {
    if n == 0 then t else EvictTimes(EvictOldest(t), n - 1)
  }

  /** The loop of ensureCapacity ends if and only if the cache has room, or maxSize is positive and the
      empty key, which evictLRU never removes, is not among the keys that have to go. */
  lemma EnsureCapacityStopsExactlyWhen<V>(t: Tables<V>, maxSize: int)
    requires Coherent(t)
    ensures (exists n: nat :: |EvictTimes(t, n).cache| < maxSize) <==> CanTrim(t, maxSize)
  {
    if CanTrim(t, maxSize) {
      var n := LoopStops(t, maxSize);
    }
    if n: nat :| |EvictTimes(t, n).cache| < maxSize {
      LoopStopsOnlyIf(t, maxSize, n);
    }
  }

  lemma {:induction false} LoopStops<V>(t: Tables<V>, maxSize: int) returns (n: nat)
    requires Coherent(t) && CanTrim(t, maxSize)
    ensures EvictTimes(t, n) == Trim(t, maxSize)
    ensures |EvictTimes(t, n).cache| < maxSize
    decreases |t.cache|
  {
    hide Coherent, EvictOldest, CanTrimList;
    if |t.cache| < maxSize {
      n := 0;
    } else {
      EvictKeepsCanTrim(t, maxSize);
      var m := LoopStops(EvictOldest(t), maxSize);
      n := m + 1;
    }
  }

  lemma RoomCanTrim(order: seq<Key>, maxSize: int)
    requires |order| < maxSize
    ensures CanTrimList(order, maxSize)
  {
  }

  lemma {:induction false} LoopStopsOnlyIf<V>(t: Tables<V>, maxSize: int, n: nat)
    requires Coherent(t) && |EvictTimes(t, n).cache| < maxSize
    ensures CanTrim(t, maxSize)
    decreases n
  {
    hide Coherent, EvictOldest, Recency, CanTrimList;
    EvictOldestList(t);
    if |t.cache| < maxSize {
      RoomCanTrim(Recency(t.accessOrder), maxSize);
    } else {
      EvictKeepsCanTrim(t, maxSize);
      LoopStopsOnlyIf(EvictOldest(t), maxSize, n - 1);
    }
  }

  /** One set of the empty key into a new cache of size one: the next set would never get past its loop. */
  lemma EmptyKeyHoldsTheLoop<V>(value: V, ttl: int, now: int)
    ensures var t := Store(Empty(), "", NewEntry(value, ttl, now), now);
      Coherent(t) && !CanTrim(t, 1) && forall n: nat :: |EvictTimes(t, n).cache| >= 1
  {
    var t := Store(Empty(), "", NewEntry(value, ttl, now), now);
    StoreCoherent(Empty<V>(), "", NewEntry(value, ttl, now), now);
    AbsStore(Empty<V>(), "", NewEntry(value, ttl, now), now);
    AbsEmpty<V>();
    assert Recency(t.accessOrder) == [""];
    EnsureCapacityStopsExactlyWhen(t, 1);
  }
}
