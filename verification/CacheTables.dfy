/** Sequences of keys without repetitions, most recent first. */
module KeyLists {
  type Key = string

  ghost predicate NoDuplicates(keys: seq<Key>) {
    forall i, j :: 0 <= i < j < |keys| ==> keys[i] != keys[j]
  }

  ghost function Elements(keys: seq<Key>): set<Key> {
    set k | k in keys
  }

  /** The list without the keys of `gone`. */
  function Without(keys: seq<Key>, gone: set<Key>): seq<Key> {
    if keys == [] then []
    else (if keys[0] in gone then [] else [keys[0]]) + Without(keys[1..], gone)
  }

  /** The first `n` keys, or all of them when there are fewer. */
  function Take(keys: seq<Key>, n: nat): seq<Key> {
    if |keys| <= n then keys else keys[..n]
  }

  /** The list with `key` moved, or added, to the most recent position. */
  function ToFront(keys: seq<Key>, key: Key): seq<Key> {
    [key] + Without(keys, {key})
  }

  lemma {:induction false} WithoutElements(keys: seq<Key>, gone: set<Key>)
    ensures forall x :: x in Without(keys, gone) <==> x in keys && x !in gone
    ensures |Without(keys, gone)| <= |keys|
  {
    if keys != [] {
      WithoutElements(keys[1..], gone);
      assert forall x :: x in keys <==> x == keys[0] || x in keys[1..];
    }
  }

  lemma {:induction false} WithoutAbsent(keys: seq<Key>, gone: set<Key>)
    requires forall k :: k in keys ==> k !in gone
    ensures Without(keys, gone) == keys
  {
    if keys != [] {
      WithoutAbsent(keys[1..], gone);
    }
  }

  lemma {:induction false} WithoutNoDuplicates(keys: seq<Key>, gone: set<Key>)
    requires NoDuplicates(keys)
    ensures NoDuplicates(Without(keys, gone))
  {
    if keys != [] {
      WithoutNoDuplicates(keys[1..], gone);
      WithoutElements(keys[1..], gone);
      assert keys[0] !in keys[1..];
    }
  }

  /** Removing keys from a concatenation removes them from both parts. */
  lemma {:induction false} WithoutConcat(a: seq<Key>, b: seq<Key>, gone: set<Key>)
    ensures Without(a + b, gone) == Without(a, gone) + Without(b, gone)
  {
    if a == [] {
      assert a + b == b;
    } else {
      var first := if a[0] in gone then [] else [a[0]];
      calc {
        Without(a + b, gone);
        { assert (a + b)[1..] == a[1..] + b; }
        first + Without(a[1..] + b, gone);
        { WithoutConcat(a[1..], b, gone); }
        first + (Without(a[1..], gone) + Without(b, gone));
        (first + Without(a[1..], gone)) + Without(b, gone);
        Without(a, gone) + Without(b, gone);
      }
    }
  }

  lemma {:induction false} WithoutTwice(keys: seq<Key>, gone: set<Key>, more: set<Key>)
    ensures Without(Without(keys, gone), more) == Without(keys, gone + more)
  {
    if keys != [] {
      WithoutTwice(keys[1..], gone, more);
      if keys[0] !in gone {
        assert Without(keys, gone)[1..] == Without(keys[1..], gone);
      } else {
        assert Without(keys, gone) == Without(keys[1..], gone);
      }
    }
  }

  lemma WithoutMiddle(a: seq<Key>, key: Key, b: seq<Key>)
    requires key !in a && key !in b
    ensures Without(a + [key] + b, {key}) == a + b
  {
    calc {
      Without(a + [key] + b, {key});
      { WithoutConcat(a + [key], b, {key}); WithoutAbsent(b, {key}); }
      Without(a + [key], {key}) + b;
      { WithoutConcat(a, [key], {key}); WithoutAbsent(a, {key}); }
      a + Without([key], {key}) + b;
      { assert Without([key], {key}) == []; }
      a + [] + b;
      a + b;
    }
  }

  lemma {:induction false} WithoutOne(keys: seq<Key>, key: Key)
    requires NoDuplicates(keys) && key in keys
    ensures |Without(keys, {key})| == |keys| - 1
  {
    if keys[0] == key {
      assert key !in keys[1..];
      WithoutAbsent(keys[1..], {key});
    } else {
      WithoutOne(keys[1..], key);
    }
  }

  lemma NoDuplicatesSize(keys: seq<Key>)
    requires NoDuplicates(keys)
    ensures |Elements(keys)| == |keys|
  {
    if keys != [] {
      NoDuplicatesSize(keys[1..]);
      assert Elements(keys) == {keys[0]} + Elements(keys[1..]);
      assert keys[0] !in keys[1..];
    }
  }
}

/**
 * The state LRUCacheService keeps: a map of entries, a map of access times and a logical clock
 * that together stand in for a recency list. Date.now() is a parameter, read once per synchronous step.
 */
module CacheTables {
  import opened Collections
  import opened KeyLists

  datatype Entry<V> = Entry(value: V, expiry: int, createdAt: int, lastAccessed: int, accessCount: nat)

  datatype Tables<V> = Tables(cache: map<Key, Entry<V>>, accessOrder: map<Key, nat>, currentTime: nat)

  function Empty<V>(): Tables<V> {
    Tables(map[], map[], 0)
  }

  predicate Expired<V>(entry: Entry<V>, now: int) {
    now > entry.expiry
  }

  function NewEntry<V>(value: V, ttl: int, now: int): Entry<V> {
    Entry(value, now + ttl, now, now, 0)
  }

  function Used<V>(entry: Entry<V>, now: int): Entry<V> {
    entry.(lastAccessed := now, accessCount := entry.accessCount + 1)
  }

  /** updateAccessOrder: stamps the entry and gives the key the newest logical time. */
  function Touch<V>(t: Tables<V>, key: Key, now: int): Tables<V>
    requires key in t.cache
  {
    Tables(t.cache[key := Used(t.cache[key], now)],
           t.accessOrder[key := t.currentTime + 1],
           t.currentTime + 1)
  }

  function DropAll<V>(t: Tables<V>, gone: set<Key>): Tables<V> {
    t.(cache := t.cache - gone, accessOrder := t.accessOrder - gone)
  }

  function Drop<V>(t: Tables<V>, key: Key): Tables<V> {
    DropAll(t, {key})
  }

  /** The last step of `set`: the entry is stored and becomes the most recent one. */
  function Store<V>(t: Tables<V>, key: Key, entry: Entry<V>, now: int): Tables<V> {
    Touch(t.(cache := t.cache[key := entry]), key, now)
  }

  function ExpiredKeys<V>(entries: map<Key, Entry<V>>, now: int): set<Key> {
    set k | k in entries && Expired(entries[k], now)
  }

  /** cleanupExpired: every expired entry goes. */
  function Sweep<V>(t: Tables<V>, now: int): Tables<V> {
    DropAll(t, ExpiredKeys(t.cache, now))
  }

  function Lookup<V>(t: Tables<V>, key: Key, now: int): Tables<V> {
    if key !in t.cache then t
    else if Expired(t.cache[key], now) then Drop(t, key)
    else Touch(t, key, now)
  }

  /** What `get` answers; absence stands for null. */
  datatype Answer<V> = Miss | Hit(value: V)

  function Found<V>(t: Tables<V>, key: Key, now: int): Answer<V> {
    if key in t.cache && !Expired(t.cache[key], now) then Hit(t.cache[key].value) else Miss
  }

  function Probe<V>(t: Tables<V>, key: Key, now: int): Tables<V> {
    if key in t.cache && Expired(t.cache[key], now) then Drop(t, key) else t
  }

  ghost predicate DistinctTimes(order: map<Key, nat>) {
    forall a, b :: a in order && b in order && a != b ==> order[a] != order[b]
  }

  /** Both maps have the same keys and access times are distinct and not in the future. */
  ghost predicate Coherent<V>(t: Tables<V>) {
    && t.cache.Keys == t.accessOrder.Keys
    && DistinctTimes(t.accessOrder)
    && forall k :: k in t.accessOrder ==> t.accessOrder[k] <= t.currentTime
  }

  ghost predicate IsOldest(order: map<Key, nat>, key: Key) {
    key in order && forall x :: x in order ==> order[key] <= order[x]
  }

  lemma {:induction false} OldestExists(order: map<Key, nat>)
    requires order != map[]
    ensures exists k :: IsOldest(order, k)
    decreases |order|
  {
    var k :| k in order;
    var rest := order - {k};
    assert order.Keys == rest.Keys + {k};
    if rest == map[] {
      assert rest.Keys == {};
      assert IsOldest(order, k);
    } else {
      OldestExists(rest);
      var o :| IsOldest(rest, o);
      assert IsOldest(order, if order[k] <= order[o] then k else o);
    }
  }

  ghost function Oldest(order: map<Key, nat>): (key: Key)
    requires order != map[]
    ensures IsOldest(order, key)
  {
    OldestExists(order);
    var k :| IsOldest(order, k);
    k
  }

  /** evictLRU: the oldest key goes, unless it is the empty string, which the truth test skips. */
  ghost function EvictOldest<V>(t: Tables<V>): Tables<V> {
    if t.accessOrder == map[] || Oldest(t.accessOrder) == "" then t
    else Drop(t, Oldest(t.accessOrder))
  }

  // ---------- Coherence is kept by every step ----------

  lemma DropCoherent<V>(t: Tables<V>, gone: set<Key>)
    requires Coherent(t)
    ensures Coherent(DropAll(t, gone))
    ensures |DropAll(t, gone).cache| <= |t.cache|
  {
    assert (t.cache - gone).Keys == t.cache.Keys - gone;
    SubsetSize(t.cache.Keys - gone, t.cache.Keys);
  }

  lemma CoherentTimes<V>(t: Tables<V>)
    requires Coherent(t)
    ensures DistinctTimes(t.accessOrder)
  {
  }

  lemma DropAbsent<V>(t: Tables<V>, key: Key)
    requires Coherent(t)
    ensures key !in t.cache ==> Drop(t, key) == t
  {
    if key !in t.cache {
      assert t.cache - {key} == t.cache && t.accessOrder - {key} == t.accessOrder;
    }
  }

  lemma StoreCoherent<V>(t: Tables<V>, key: Key, entry: Entry<V>, now: int)
    requires Coherent(t)
    ensures Coherent(Store(t, key, entry, now))
    ensures |Store(t, key, entry, now).cache| <= |t.cache| + 1
  {
    var s := Store(t, key, entry, now);
    assert s.cache.Keys == t.cache.Keys + {key} == s.accessOrder.Keys;
  }

  lemma LookupCoherent<V>(t: Tables<V>, key: Key, now: int)
    requires Coherent(t)
    ensures Coherent(Lookup(t, key, now)) && |Lookup(t, key, now).cache| <= |t.cache|
    ensures Coherent(Probe(t, key, now)) && |Probe(t, key, now).cache| <= |t.cache|
  {
    DropCoherent(t, {key});
    if key in t.cache {
      TouchCoherent(t, key, now);
    }
    hide Coherent, Touch;
  }

  lemma TouchCoherent<V>(t: Tables<V>, key: Key, now: int)
    requires Coherent(t) && key in t.cache
    ensures Coherent(Touch(t, key, now)) && |Touch(t, key, now).cache| == |t.cache|
  {
    assert Touch(t, key, now).cache.Keys == t.cache.Keys;
  }

  lemma EvictCoherent<V>(t: Tables<V>)
    requires Coherent(t)
    ensures Coherent(EvictOldest(t))
    ensures |EvictOldest(t).cache| <= |t.cache|
  {
    if t.accessOrder != map[] {
      DropCoherent(t, {Oldest(t.accessOrder)});
    }
  }
}
