/**
 * The recency list that the two maps and the clock of LRUCacheService stand for,
 * and the list form of every cache operation.
 */
module RecencyList {
  import opened KeyLists
  import opened CacheTables

  // ---------- The list hidden in the access times ----------

  /** `keys` lists exactly the keys of `order`, newest access first. */
  ghost predicate IsRecency(order: map<Key, nat>, keys: seq<Key>) {
    && (forall k :: k in keys <==> k in order)
    && (forall i, j :: 0 <= i < j < |keys| ==> order[keys[i]] > order[keys[j]])
  }

  ghost function Recency(order: map<Key, nat>): seq<Key>
    decreases |order|
  {
    if order == map[] then [] else
      var k := Oldest(order);
      assert order.Keys == (order - {k}).Keys + {k};
      Recency(order - {k}) + [k]
  }

  /** The oldest key goes to the end. */
  lemma OldestAppended(order: map<Key, nat>, keys: seq<Key>, key: Key)
    requires DistinctTimes(order) && IsOldest(order, key) && IsRecency(order - {key}, keys)
    ensures IsRecency(order, keys + [key])
  {
    var longer := keys + [key];
    forall i, j | 0 <= i < j < |longer| ensures longer[i] in order && longer[j] in order && order[longer[i]] > order[longer[j]] {
      assert longer[i] in keys;
      if j < |keys| {
        assert longer[j] in keys;
      }
    }
    forall k ensures k in longer <==> k in order {
      assert k in longer <==> k in keys || k == key;
    }
  }

  lemma {:induction false} RecencyIsRecency(order: map<Key, nat>)
    requires DistinctTimes(order)
    ensures IsRecency(order, Recency(order))
    decreases |order|
  {
    if order == map[] {
      assert order.Keys == {};
    } else {
      var k := Oldest(order);
      var rest := order - {k};
      assert order.Keys == rest.Keys + {k};
      RecencyIsRecency(rest);
      hide IsRecency;
      OldestAppended(order, Recency(rest), k);
    }
  }

  lemma IsRecencyNoDuplicates(order: map<Key, nat>, keys: seq<Key>)
    requires IsRecency(order, keys)
    ensures NoDuplicates(keys) && |keys| == |order|
  {
    forall i, j | 0 <= i < j < |keys| ensures keys[i] != keys[j] {
      assert order[keys[i]] > order[keys[j]];
    }
    NoDuplicatesSize(keys);
    assert Elements(keys) == order.Keys;
  }

  lemma IsRecencyTail(order: map<Key, nat>, keys: seq<Key>)
    requires IsRecency(order, keys) && keys != []
    ensures IsRecency(order - {keys[0]}, keys[1..])
  {
    IsRecencyNoDuplicates(order, keys);
    assert keys[0] !in keys[1..];
    forall k ensures k in keys <==> k == keys[0] || k in keys[1..] {
    }
  }

  lemma IsRecencyInit(order: map<Key, nat>, keys: seq<Key>)
    requires IsRecency(order, keys) && keys != []
    ensures IsOldest(order, keys[|keys| - 1])
    ensures IsRecency(order - {keys[|keys| - 1]}, keys[..|keys| - 1])
  {
    IsRecencyNoDuplicates(order, keys);
    var n := |keys| - 1;
    var last := keys[n];
    forall k ensures k in keys[..n] <==> k in order - {last} {
      if k in keys && k != last {
        var i :| 0 <= i < |keys| && keys[i] == k;
        assert keys[..n][i] == k;
      }
      assert last !in keys[..n];
    }
    assert IsOldest(order, last);
    assert forall i :: 0 <= i < n ==> keys[..n][i] == keys[i];
  }

  /** The minimum scan finds the last key of any list in recency order, and the rest is one without that key. */
  lemma OldestIsLast(order: map<Key, nat>, keys: seq<Key>)
    requires IsRecency(order, keys) && keys != []
    ensures order != map[] && Oldest(order) == keys[|keys| - 1]
    ensures IsRecency(order - {Oldest(order)}, keys[..|keys| - 1])
    ensures keys == keys[..|keys| - 1] + [Oldest(order)]
  {
    IsRecencyInit(order, keys);
    OldestUnique(order, keys, keys[|keys| - 1]);
  }

  /** The access times determine the list: there is only one. */
  lemma {:induction false} RecencyUnique(order: map<Key, nat>, keys: seq<Key>)
    requires IsRecency(order, keys)
    ensures keys == Recency(order)
    decreases |keys|
  {
    if keys == [] {
      assert order == map[];
    } else {
      OldestIsLast(order, keys);
      RecencyUnique(order - {Oldest(order)}, keys[..|keys| - 1]);
    }
  }

  lemma OldestUnique(order: map<Key, nat>, keys: seq<Key>, key: Key)
    requires IsRecency(order, keys) && IsOldest(order, key)
    ensures order != map[] && Oldest(order) == key
  {
    var o := Oldest(order);
    assert o in keys && key in keys;
    var i :| 0 <= i < |keys| && keys[i] == o;
    var j :| 0 <= j < |keys| && keys[j] == key;
  }

  /** A key newer than all others goes to the front. */
  lemma NewestInFront(order: map<Key, nat>, key: Key, keys: seq<Key>)
    requires key in order && IsRecency(order - {key}, keys) && forall x :: x in keys ==> order[key] > order[x]
    ensures IsRecency(order, [key] + keys)
  {
    var longer := [key] + keys;
    forall i, j | 0 <= i < j < |longer| ensures longer[i] in order && longer[j] in order && order[longer[i]] > order[longer[j]] {
      assert longer[j] == keys[j - 1] && keys[j - 1] in keys;
    }
    forall k ensures k in longer <==> k in order {
      assert k in longer <==> k == key || k in keys;
    }
  }

  lemma FirstIsNewest(order: map<Key, nat>, keys: seq<Key>)
    requires IsRecency(order, keys) && keys != []
    ensures keys[0] in order && forall x :: x in keys[1..] ==> x in order && order[keys[0]] > order[x]
  {
    assert keys[0] in keys;
    forall x | x in keys[1..] ensures x in order && order[keys[0]] > order[x] {
      var i :| 0 <= i < |keys[1..]| && keys[1..][i] == x;
      assert keys[i + 1] == x && x in keys;
    }
  }

  lemma EmptyRecency(order: map<Key, nat>, gone: set<Key>)
    requires IsRecency(order, [])
    ensures IsRecency(order - gone, [])
  {
  }

  lemma WithoutFirst(keys: seq<Key>, gone: set<Key>)
    requires keys != []
    ensures Without(keys, gone) == if keys[0] in gone then Without(keys[1..], gone) else [keys[0]] + Without(keys[1..], gone)
  {
  }

  lemma {:induction false} IsRecencyWithout(order: map<Key, nat>, keys: seq<Key>, gone: set<Key>)
    requires IsRecency(order, keys)
    ensures IsRecency(order - gone, Without(keys, gone))
    decreases |keys|
  {
    if keys == [] {
      EmptyRecency(order, gone);
    } else {
      hide IsRecency, Without;
      var first := keys[0];
      IsRecencyTail(order, keys);
      IsRecencyWithout(order - {first}, keys[1..], gone);
      WithoutFirst(keys, gone);
      FirstIsNewest(order, keys);
      if first in gone {
        assert order - {first} - gone == order - gone;
      } else {
        assert order - {first} - gone == order - gone - {first};
        WithoutElements(keys[1..], gone);
        NewestInFront(order - gone, first, Without(keys[1..], gone));
      }
    }
  }

  // ---------- List form of the cache ----------

  datatype Lru<V> = Lru(order: seq<Key>, entries: map<Key, Entry<V>>)

  ghost function Abs<V>(t: Tables<V>): Lru<V> {
    Lru(Recency(t.accessOrder), t.cache)
  }

  ghost predicate WellFormed<V>(l: Lru<V>) {
    NoDuplicates(l.order) && forall k :: k in l.order <==> k in l.entries
  }

  function Restrict<V>(l: Lru<V>, order: seq<Key>): Lru<V> {
    Lru(order, map k | k in l.entries && k in order :: l.entries[k])
  }

  function DropL<V>(l: Lru<V>, gone: set<Key>): Lru<V> {
    Lru(Without(l.order, gone), l.entries - gone)
  }

  function TouchL<V>(l: Lru<V>, key: Key, now: int): Lru<V>
    requires key in l.entries
  {
    Lru(ToFront(l.order, key), l.entries[key := Used(l.entries[key], now)])
  }

  function GetL<V>(l: Lru<V>, key: Key, now: int): Lru<V> {
    if key !in l.entries then l
    else if Expired(l.entries[key], now) then DropL(l, {key})
    else TouchL(l, key, now)
  }

  function AnswerL<V>(l: Lru<V>, key: Key, now: int): Answer<V> {
    if key in l.entries && !Expired(l.entries[key], now) then Hit(l.entries[key].value) else Miss
  }

  function HasL<V>(l: Lru<V>, key: Key, now: int): Lru<V> {
    if key in l.entries && Expired(l.entries[key], now) then DropL(l, {key}) else l
  }

  /** What ensureCapacity leaves: room for one more, whether or not the key to store is present. */
  function TrimL<V>(l: Lru<V>, maxSize: nat): Lru<V>
    requires maxSize >= 1
  {
    Restrict(l, Take(l.order, maxSize - 1))
  }

  function StoreL<V>(l: Lru<V>, key: Key, entry: Entry<V>, now: int): Lru<V> {
    Lru(ToFront(l.order, key), l.entries[key := Used(entry, now)])
  }

  function SetL<V>(l: Lru<V>, key: Key, value: V, ttl: int, now: int, maxSize: nat): Lru<V>
    requires maxSize >= 1
  {
    StoreL(TrimL(l, maxSize), key, NewEntry(value, ttl, now), now)
  }

  function CleanupL<V>(l: Lru<V>, now: int): Lru<V> {
    DropL(l, ExpiredKeys(l.entries, now))
  }

  // ---------- Every map operation is its list operation ----------

  lemma AbsWellFormed<V>(t: Tables<V>)
    requires Coherent(t)
    ensures WellFormed(Abs(t)) && |Abs(t).order| == |t.cache|
  {
    RecencyIsRecency(t.accessOrder);
    IsRecencyNoDuplicates(t.accessOrder, Recency(t.accessOrder));
    assert |t.cache.Keys| == |t.accessOrder.Keys|;
  }

  lemma AbsEmpty<V>()
    ensures Abs(Empty<V>()) == Lru([], map[])
  {
    RecencyUnique(map[], []);
  }

  lemma AbsDrop<V>(t: Tables<V>, gone: set<Key>)
    requires Coherent(t)
    ensures Abs(DropAll(t, gone)) == DropL(Abs(t), gone)
  {
    RecencyIsRecency(t.accessOrder);
    IsRecencyWithout(t.accessOrder, Recency(t.accessOrder), gone);
    RecencyUnique(t.accessOrder - gone, Without(Recency(t.accessOrder), gone));
  }

  lemma RecencyMembers(order: map<Key, nat>, keys: seq<Key>)
    requires IsRecency(order, keys)
    ensures forall k :: k in keys <==> k in order
  {
  }

  /** Stamping a key with a time newer than all others moves it to the front. */
  lemma RecencyStamp(order: map<Key, nat>, key: Key, time: nat)
    requires DistinctTimes(order)
    requires forall k :: k in order ==> order[k] < time
    ensures Recency(order[key := time]) == ToFront(Recency(order), key)
  {
    var keys, stamped := Recency(order), order[key := time];
    RecencyIsRecency(order);
    RecencyMembers(order, keys);
    hide IsRecency, Recency, Without;
    IsRecencyWithout(order, keys, {key});
    WithoutElements(keys, {key});
    assert stamped - {key} == order - {key};
    NewestInFront(stamped, key, Without(keys, {key}));
    RecencyUnique(stamped, ToFront(keys, key));
  }

  lemma AbsTouch<V>(t: Tables<V>, key: Key, now: int)
    requires Coherent(t) && key in t.cache
    ensures Abs(Touch(t, key, now)) == TouchL(Abs(t), key, now)
  {
    RecencyStamp(t.accessOrder, key, t.currentTime + 1);
  }

  lemma AbsStore<V>(t: Tables<V>, key: Key, entry: Entry<V>, now: int)
    requires Coherent(t)
    ensures Abs(Store(t, key, entry, now)) == StoreL(Abs(t), key, entry, now)
  {
    RecencyStamp(t.accessOrder, key, t.currentTime + 1);
    assert t.cache[key := entry][key := Used(entry, now)] == t.cache[key := Used(entry, now)];
  }

  lemma AbsGet<V>(t: Tables<V>, key: Key, now: int)
    requires Coherent(t)
    ensures Abs(Lookup(t, key, now)) == GetL(Abs(t), key, now)
    ensures Abs(Probe(t, key, now)) == HasL(Abs(t), key, now)
  {
    if key in t.cache {
      AbsDrop(t, {key});
      if !Expired(t.cache[key], now) {
        AbsTouch(t, key, now);
      }
    }
  }
}
