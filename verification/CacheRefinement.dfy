/** Whole histories on the maps of LRUCacheService are histories of the recency list. */
module CacheRefinement {
  import opened KeyLists
  import opened CacheTables
  import opened RecencyList
  import opened Capacity
  import opened CacheHistory

  /** One operation on the maps, run to its end. */
  ghost function ApplyToMaps<V>(t: Tables<V>, e: Event<V>, maxSize: nat): Tables<V>
    requires Coherent(t) && CanTrim(t, maxSize)
  {
    match e.op
    case Get(k) => Lookup(t, k, e.at)
    case Set(k, v, ttl) => Store(Trim(t, maxSize), k, NewEntry(v, ttl, e.at), e.at)
    case Delete(k) => Drop(t, k)
    case Has(k) => Probe(t, k, e.at)
    case Clear => Empty()
    case Cleanup => Sweep(t, e.at)
  }

  predicate NonEmptyKeys<V>(h: seq<Event<V>>) {
    forall i :: 0 <= i < |h| && h[i].op.Set? ==> h[i].op.key != ""
  }

  ghost predicate Sound<V>(t: Tables<V>) {
    Coherent(t) && "" !in t.cache
  }

  lemma StoreRefines<V>(t: Tables<V>, key: Key, value: V, ttl: int, now: int, maxSize: nat)
    requires Sound(t) && CanTrim(t, maxSize) && key != ""
    ensures var stored := Store(Trim(t, maxSize), key, NewEntry(value, ttl, now), now);
      Sound(stored) && Abs(stored) == SetL(Abs(t), key, value, ttl, now, maxSize)
  {
    TrimIsTrimL(t, maxSize);
    TrimDropsOnly(t, maxSize);
    StoreCoherent(Trim(t, maxSize), key, NewEntry(value, ttl, now), now);
    SetRefines(t, key, value, ttl, now, maxSize);
  }

  lemma RemovalRefines<V>(t: Tables<V>, gone: set<Key>)
    requires Sound(t)
    ensures Sound(DropAll(t, gone)) && Abs(DropAll(t, gone)) == DropL(Abs(t), gone)
  {
    DropCoherent(t, gone);
    AbsDrop(t, gone);
  }

  lemma GetRefines<V>(t: Tables<V>, key: Key, now: int)
    requires Sound(t)
    ensures Sound(Lookup(t, key, now)) && Abs(Lookup(t, key, now)) == GetL(Abs(t), key, now)
    ensures Sound(Probe(t, key, now)) && Abs(Probe(t, key, now)) == HasL(Abs(t), key, now)
  {
    LookupCoherent(t, key, now);
    AbsGet(t, key, now);
    DropCoherent(t, {key});
  }

  /** Every operation on the maps is its list operation, and keeps the maps fit for the next one. */
  lemma ApplyRefines<V>(t: Tables<V>, e: Event<V>, maxSize: nat)
    requires Sound(t) && CanTrim(t, maxSize) && maxSize >= 1 && (e.op.Set? ==> e.op.key != "")
    ensures Sound(ApplyToMaps(t, e, maxSize))
    ensures Abs(ApplyToMaps(t, e, maxSize)) == Apply(Abs(t), e, maxSize)
  {
    hide Sound, Abs, Lookup, Probe, Store, Trim, DropAll, GetL, HasL, SetL, DropL;
    match e.op
    case Get(k) => GetRefines(t, k, e.at);
    case Set(k, v, ttl) => StoreRefines(t, k, v, ttl, e.at, maxSize);
    case Delete(k) => RemovalRefines(t, {k});
    case Has(k) => GetRefines(t, k, e.at);
    case Clear => EmptySound<V>();
    case Cleanup => SweepRefines(t, e.at);
  }

  lemma SweepRefines<V>(t: Tables<V>, now: int)
    requires Sound(t)
    ensures Sound(Sweep(t, now)) && Abs(Sweep(t, now)) == CleanupL(Abs(t), now)
  {
    RemovalRefines(t, ExpiredKeys(t.cache, now));
  }

  lemma EmptySound<V>()
    ensures Sound(Empty<V>()) && Abs(Empty<V>()) == Lru([], map[])
  {
    AbsEmpty<V>();
  }

  /** The maps after a history, from a new cache. */
  ghost function RunOnMaps<V>(h: seq<Event<V>>, maxSize: nat): (t: Tables<V>)
    requires maxSize >= 1 && NonEmptyKeys(h)
    ensures Sound(t) && CanTrim(t, maxSize)
  {
    if h == [] then
      EmptySound<V>();
      NonEmptyKeysCanTrim(Empty<V>(), maxSize);
      Empty()
    else
      var before := RunOnMaps(h[..|h| - 1], maxSize);
      ApplyRefines(before, h[|h| - 1], maxSize);
      NonEmptyKeysCanTrim(ApplyToMaps(before, h[|h| - 1], maxSize), maxSize);
      ApplyToMaps(before, h[|h| - 1], maxSize)
  }

  /** The maps after any history denote the recency list after it, and hold at most maxSize keys. */
  lemma {:induction false} RunRefines<V>(h: seq<Event<V>>, maxSize: nat)
    requires maxSize >= 1 && NonEmptyKeys(h)
    ensures Abs(RunOnMaps(h, maxSize)) == Run(h, maxSize)
    ensures |RunOnMaps(h, maxSize).cache| <= maxSize
  {
    hide Sound, ApplyToMaps, Apply, Abs;
    if h == [] {
      EmptySound<V>();
    } else {
      var n := |h| - 1;
      RunRefines(h[..n], maxSize);
      ApplyRefines(RunOnMaps(h[..n], maxSize), h[n], maxSize);
    }
    RunWellFormed(h, maxSize);
    SoundSize(RunOnMaps(h, maxSize));
  }

  lemma SoundSize<V>(t: Tables<V>)
    requires Sound(t)
    ensures |t.cache| == |Abs(t).order|
  {
    AbsWellFormed(t);
  }

  lemma FoundIsAnswer<V>(t: Tables<V>, key: Key, now: int)
    ensures Found(t, key, now) == AnswerL(Abs(t), key, now)
  {
  }

  /** Over any history, get on the maps answers only the latest set of the key. */
  lemma MapsAnswerLatestSet<V>(h: seq<Event<V>>, key: Key, now: int, maxSize: nat)
    requires maxSize >= 1 && NonEmptyKeys(h)
    requires Found(RunOnMaps(h, maxSize), key, now).Hit?
    ensures exists i: nat ::
      IsLatestSet(h, i, key) && now <= h[i].at + h[i].op.ttl && Found(RunOnMaps(h, maxSize), key, now) == Hit(h[i].op.value)
  {
    hide Found, AnswerL, Abs, Run, RunOnMaps;
    RunRefines(h, maxSize);
    FoundIsAnswer(RunOnMaps(h, maxSize), key, now);
    GetAnswersLatestSet(h, key, now, maxSize);
  }

  /** And it does answer it while few other keys were set or hit since, or none was set. */
  lemma MapsMustAnswer<V>(h: seq<Event<V>>, i: nat, j: nat, key: Key, now: int, maxSize: nat)
    requires maxSize >= 1 && NonEmptyKeys(h) && i <= j < |h|
    requires IsLatestSet(h, i, key) && Touches(h, j, key, maxSize)
    requires NotLater(h, now) && now <= h[i].at + h[i].op.ttl
    requires LeavesRoom(h, j + 1, key, maxSize)
    ensures Found(RunOnMaps(h, maxSize), key, now) == Hit(h[i].op.value)
  {
    hide Found, AnswerL, Abs, Run, RunOnMaps, LeavesRoom;
    RunRefines(h, maxSize);
    FoundIsAnswer(RunOnMaps(h, maxSize), key, now);
    GetMustAnswer(h, i, j, key, now, maxSize);
  }
}
