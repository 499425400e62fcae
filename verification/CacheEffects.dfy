/** What each step of the cache does to the keys it holds, to their entries and to their recency. */
module CacheEffects {
  import opened KeyLists
  import opened CacheTables
  import opened InterleavedCache

  /** The least recent key of a coherent cache. */
  ghost predicate IsLeastRecent<V>(t: Tables<V>, key: Key) {
    key in t.accessOrder && forall x :: x in t.accessOrder && x != key ==> t.accessOrder[key] < t.accessOrder[x]
  }

  lemma LeastRecentIsOldest<V>(t: Tables<V>, key: Key)
    requires Coherent(t) && t.accessOrder != map[]
    ensures IsLeastRecent(t, key) <==> key == Oldest(t.accessOrder)
  {
  }

  lemma HeldAfterEviction<V>(t: Tables<V>, x: Key)
    requires Coherent(t)
    ensures x in EvictOldest(t).cache <==> x in t.cache && (x == "" || !IsLeastRecent(t, x))
  {
    if t.accessOrder != map[] {
      LeastRecentIsOldest(t, x);
      hide IsLeastRecent, DistinctTimes;
    } else {
      assert t.cache.Keys == {};
    }
  }

  /** Which keys are held after a step: a check that finds no room drops the least recent key, unless that is the empty
      one; a stored key comes in; expired keys go when they are asked for or swept. */
  lemma HeldNextExactlyWhen<V>(s: System<V>, e: Event<V>, maxSize: nat, x: Key)
    requires Coherent(s.tables) && Enabled(s, e.step)
    ensures var held := x in s.tables.cache;
      x in Next(s, e, maxSize).tables.cache <==>
      match e.step
      case BeginSet(_, _, _, _) => held && (|s.tables.cache| < maxSize || x == "" || !IsLeastRecent(s.tables, x))
      case ResumeSet(_) => held && (|s.tables.cache| < maxSize || x == "" || !IsLeastRecent(s.tables, x))
      case FinishSet(id) => held || x == s.tasks[id].key
      case Get(key) => held && (x != key || e.at <= s.tables.cache[x].expiry)
      case Has(key) => held && (x != key || e.at <= s.tables.cache[x].expiry)
      case Delete(key) => held && x != key
      case Clear => false
      case Cleanup => held && e.at <= s.tables.cache[x].expiry
  {
    hide IsLeastRecent, EvictOldest, Coherent;
    HeldAfterEviction(s.tables, x);
  }

  /** The key a step makes the most recent: the one stored, or the one that a get finds fresh. */
  function Freshened<V>(s: System<V>, e: Event<V>, key: Key): bool
    requires Enabled(s, e.step)
  {
    match e.step
    case FinishSet(id) => s.tasks[id].key == key
    case Get(k) => k == key && k in s.tables.cache && e.at <= s.tables.cache[k].expiry
    case _ => false
  }

  /** Recency: the freshened key is ahead of every other, and any two others stay as they were. */
  lemma RecencyNext<V>(s: System<V>, e: Event<V>, maxSize: nat, x: Key, y: Key)
    requires Coherent(s.tables) && Enabled(s, e.step) && x != y
    requires var t := Next(s, e, maxSize).tables; x in t.cache && y in t.cache
    ensures var t := Next(s, e, maxSize).tables;
      && x in t.accessOrder && y in t.accessOrder
      && (Freshened(s, e, y) ==> t.accessOrder[x] < t.accessOrder[y])
      && (!Freshened(s, e, x) && !Freshened(s, e, y) ==>
            && x in s.tables.accessOrder && y in s.tables.accessOrder
            && (t.accessOrder[x] < t.accessOrder[y] <==> s.tables.accessOrder[x] < s.tables.accessOrder[y]))
  {
    hide Coherent, EvictOldest, Lookup, Probe, DropAll, Store;
    KeysAgree(s.tables);
    FewerKept(s.tables, EvictOldest(s.tables));
    match e.step
    case FinishSet(id) => StoreFreshens(s.tables, s.tasks[id].key, s.tasks[id].entry, e.at);
    case Get(key) => LookupFreshens(s.tables, key, e.at);
    case Has(key) => ProbeKeeps(s.tables, key, e.at);
    case Delete(key) => DropKeeps(s.tables, {key});
    case Cleanup => DropKeeps(s.tables, ExpiredKeys(s.tables.cache, e.at));
    case _ =>
  }

  /** The access times of what stays are as they were. */
  ghost predicate SameTimes<V>(t: Tables<V>, u: Tables<V>) {
    forall k :: k in u.cache ==> k in t.accessOrder && k in u.accessOrder && u.accessOrder[k] == t.accessOrder[k]
  }

  lemma StoreFreshens<V>(t: Tables<V>, key: Key, entry: Entry<V>, now: int)
    requires t.cache.Keys == t.accessOrder.Keys && forall k :: k in t.accessOrder ==> t.accessOrder[k] <= t.currentTime
    ensures var u := Store(t, key, entry, now);
      && key in u.accessOrder
      && (forall k :: k in u.cache && k != key ==>
            k in t.accessOrder && k in u.accessOrder && u.accessOrder[k] == t.accessOrder[k] < u.accessOrder[key])
  {
  }

  lemma LookupFreshens<V>(t: Tables<V>, key: Key, now: int)
    requires t.cache.Keys == t.accessOrder.Keys && forall k :: k in t.accessOrder ==> t.accessOrder[k] <= t.currentTime
    ensures var u := Lookup(t, key, now);
      if key in t.cache && now <= t.cache[key].expiry then
        && key in u.accessOrder
        && (forall k :: k in u.cache && k != key ==>
              k in t.accessOrder && k in u.accessOrder && u.accessOrder[k] == t.accessOrder[k] < u.accessOrder[key])
      else SameTimes(t, u)
  {
  }

  lemma ProbeKeeps<V>(t: Tables<V>, key: Key, now: int)
    requires t.cache.Keys == t.accessOrder.Keys
    ensures SameTimes(t, Probe(t, key, now))
  {
  }

  lemma DropKeeps<V>(t: Tables<V>, gone: set<Key>)
    requires t.cache.Keys == t.accessOrder.Keys
    ensures SameTimes(t, DropAll(t, gone))
  {
  }

  lemma KeysAgree<V>(t: Tables<V>)
    requires Coherent(t)
    ensures t.cache.Keys == t.accessOrder.Keys && forall k :: k in t.accessOrder ==> t.accessOrder[k] <= t.currentTime
  {
  }

  lemma FewerKept<V>(t: Tables<V>, u: Tables<V>)
    requires Coherent(t) && u == EvictOldest(t)
    ensures SameTimes(t, u)
  {
    hide DistinctTimes, Oldest;
  }

  /** Entries: a stored one has the value and time-to-live of its set, from when that began; a get that finds it counts
      one access more; no other step changes it. */
  lemma EntryNext<V>(s: System<V>, e: Event<V>, maxSize: nat, x: Key)
    requires Enabled(s, e.step) && x in Next(s, e, maxSize).tables.cache
    ensures var now := Next(s, e, maxSize).tables.cache[x];
      if e.step.FinishSet? && s.tasks[e.step.id].key == x then
        now == s.tasks[e.step.id].entry.(lastAccessed := e.at, accessCount := s.tasks[e.step.id].entry.accessCount + 1)
      else
        && x in s.tables.cache
        && now ==
           if Freshened(s, e, x) then
             s.tables.cache[x].(lastAccessed := e.at, accessCount := s.tables.cache[x].accessCount + 1)
           else s.tables.cache[x]
  {
    hide Oldest;
  }

  /** Which sets are in flight after a step, and what they are about to store. */
  lemma FlightNext<V>(s: System<V>, e: Event<V>, maxSize: nat, id: nat)
    requires Enabled(s, e.step)
    ensures var t := Next(s, e, maxSize); var room := |s.tables.cache| < maxSize;
      match e.step
      case BeginSet(i, key, value, ttl) =>
        if i == id then id in t.tasks && t.tasks[id] == Task(key, Entry(value, e.at + ttl, e.at, e.at, 0), room)
        else (id in t.tasks <==> id in s.tasks) && (id in s.tasks ==> t.tasks[id] == s.tasks[id])
      case ResumeSet(i) =>
        && (id in t.tasks <==> id in s.tasks)
        && (id in s.tasks ==> t.tasks[id] == if i == id then s.tasks[id].(ready := room) else s.tasks[id])
      case FinishSet(i) => (id in t.tasks <==> id in s.tasks && i != id) && (id in t.tasks ==> t.tasks[id] == s.tasks[id])
      case _ => (id in t.tasks <==> id in s.tasks) && (id in s.tasks ==> t.tasks[id] == s.tasks[id])
  {
    hide EvictOldest, Lookup, Probe, DropAll;
  }

  /** What a get answers. */
  lemma FoundExactlyWhen<V>(t: Tables<V>, key: Key, now: int, value: V)
    ensures Found(t, key, now) == Hit(value) <==> key in t.cache && now <= t.cache[key].expiry && t.cache[key].value == value
    ensures Found(t, key, now) == Miss <==> key !in t.cache || now > t.cache[key].expiry
  {
  }
}
