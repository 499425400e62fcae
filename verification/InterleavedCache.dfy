/**
 * LRUCacheService under every interleaving. `set` gives up control after each eviction and once more before
 * it stores, so another call may run between its capacity check and its store; the other operations touch
 * the maps in one synchronous step.
 */
module InterleavedCache {
  import opened Collections
  import opened KeyLists
  import opened CacheTables

  /** A `set` in flight; `ready` when it has passed its capacity check. */
  datatype Task<V> = Task(key: Key, entry: Entry<V>, ready: bool)

  datatype System<V> = System(tables: Tables<V>, tasks: map<nat, Task<V>>)

  datatype Step<V> =
    | BeginSet(id: nat, key: Key, value: V, ttl: int)
    | ResumeSet(id: nat)
    | FinishSet(id: nat)
    | Get(key: Key)
    | Has(key: Key)
    | Delete(key: Key)
    | Clear
    | Cleanup

  datatype Event<V> = Event(step: Step<V>, at: int)

  function Start<V>(): System<V> {
    System(Empty(), map[])
  }

  predicate Enabled<V>(s: System<V>, step: Step<V>) {
    match step
    case BeginSet(id, _, _, _) => id !in s.tasks
    case ResumeSet(id) => id in s.tasks && !s.tasks[id].ready
    case FinishSet(id) => id in s.tasks && s.tasks[id].ready
    case _ => true
  }

  /** One turn of the loop of ensureCapacity, up to the point where it gives up control. */
  ghost function CheckCapacity<V>(s: System<V>, id: nat, task: Task<V>, maxSize: nat): System<V> {
    if |s.tables.cache| < maxSize then s.(tasks := s.tasks[id := task.(ready := true)])
    else System(EvictOldest(s.tables), s.tasks[id := task.(ready := false)])
  }

  ghost function Next<V>(s: System<V>, e: Event<V>, maxSize: nat): System<V>
    requires Enabled(s, e.step)
  {
    match e.step
    case BeginSet(id, key, value, ttl) => CheckCapacity(s, id, Task(key, NewEntry(value, ttl, e.at), false), maxSize)
    case ResumeSet(id) => CheckCapacity(s, id, s.tasks[id], maxSize)
    case FinishSet(id) => System(Store(s.tables, s.tasks[id].key, s.tasks[id].entry, e.at), s.tasks - {id})
    case Get(key) => s.(tables := Lookup(s.tables, key, e.at))
    case Has(key) => s.(tables := Probe(s.tables, key, e.at))
    case Delete(key) => s.(tables := Drop(s.tables, key))
    case Clear => s.(tables := Empty())
    case Cleanup => s.(tables := Sweep(s.tables, e.at))
  }

  /** `events` can happen in this order from the empty cache with at most c sets in flight at any time. */
  ghost predicate Legal<V>(events: seq<Event<V>>, maxSize: nat, c: nat)
    decreases |events|, 0
  {
    events == [] ||
    var n := |events| - 1;
    && Legal(events[..n], maxSize, c)
    && Enabled(After(events[..n], maxSize, c), events[n].step)
    && |Next(After(events[..n], maxSize, c), events[n], maxSize).tasks| <= c
  }

  ghost function After<V>(events: seq<Event<V>>, maxSize: nat, c: nat): System<V>
    requires Legal(events, maxSize, c)
    decreases |events|, 1
  {
    if events == [] then Start()
    else Next(After(events[..|events| - 1], maxSize, c), events[|events| - 1], maxSize)
  }

  // ---------- Size and coherence ----------

  function ReadyTasks<V>(tasks: map<nat, Task<V>>): set<nat> {
    set id | id in tasks && tasks[id].ready
  }

  /** Every set that has passed its check may still add one entry. */
  ghost predicate WithinBound<V>(s: System<V>, maxSize: nat, c: nat) {
    Coherent(s.tables) && |s.tables.cache| + |ReadyTasks(s.tasks)| < maxSize + c
  }

  lemma CheckKeepsBound<V>(s: System<V>, id: nat, task: Task<V>, maxSize: nat, c: nat)
    requires WithinBound(s, maxSize, c) && id !in ReadyTasks(s.tasks)
    requires |CheckCapacity(s, id, task, maxSize).tasks| <= c
    ensures WithinBound(CheckCapacity(s, id, task, maxSize), maxSize, c)
  {
    var t := CheckCapacity(s, id, task, maxSize);
    if |s.tables.cache| < maxSize {
      SubsetSize(ReadyTasks(t.tasks), t.tasks.Keys);
    } else {
      EvictCoherent(s.tables);
      assert ReadyTasks(t.tasks) == ReadyTasks(s.tasks);
    }
  }

  lemma FinishKeepsBound<V>(s: System<V>, id: nat, at: int, maxSize: nat, c: nat)
    requires WithinBound(s, maxSize, c) && id in s.tasks && s.tasks[id].ready
    ensures WithinBound(Next(s, Event(FinishSet(id), at), maxSize), maxSize, c)
  {
    StoreCoherent(s.tables, s.tasks[id].key, s.tasks[id].entry, at);
    hide Coherent, Store;
    assert ReadyTasks(s.tasks - {id}) == ReadyTasks(s.tasks) - {id};
  }

  lemma NextKeepsBound<V>(s: System<V>, e: Event<V>, maxSize: nat, c: nat)
    requires WithinBound(s, maxSize, c) && Enabled(s, e.step) && c >= 1
    requires |Next(s, e, maxSize).tasks| <= c
    ensures WithinBound(Next(s, e, maxSize), maxSize, c)
  {
    hide Coherent, CheckCapacity, Lookup, Probe, DropAll, ReadyTasks;
    match e.step
    case BeginSet(id, key, value, ttl) =>
      NotReady(s.tasks, id);
      CheckKeepsBound(s, id, Task(key, NewEntry(value, ttl, e.at), false), maxSize, c);
    case ResumeSet(id) =>
      NotReady(s.tasks, id);
      CheckKeepsBound(s, id, s.tasks[id], maxSize, c);
    case FinishSet(id) => FinishKeepsBound(s, id, e.at, maxSize, c);
    case Get(key) => LookupCoherent(s.tables, key, e.at);
    case Has(key) => LookupCoherent(s.tables, key, e.at);
    case Delete(key) => DropCoherent(s.tables, {key});
    case Clear => EmptyCoherent<V>();
    case Cleanup => DropCoherent(s.tables, ExpiredKeys(s.tables.cache, e.at));
  }

  lemma NotReady<V>(tasks: map<nat, Task<V>>, id: nat)
    ensures id !in tasks || !tasks[id].ready ==> id !in ReadyTasks(tasks)
  {
  }

  lemma EmptyCoherent<V>()
    ensures Coherent(Empty<V>())
  {
  }

  /** In every reachable state the two maps agree, access times are distinct and in the past, and with at
      most c sets in flight the cache holds at most maxSize + c - 1 entries. */
  lemma {:induction false} CacheSafeInEveryRun<V>(events: seq<Event<V>>, maxSize: nat, c: nat)
    requires Legal(events, maxSize, c) && c >= 1
    ensures Coherent(After(events, maxSize, c).tables)
    ensures |After(events, maxSize, c).tables.cache| <= maxSize + c - 1
    ensures WithinBound(After(events, maxSize, c), maxSize, c)
    decreases |events|
  {
    hide Coherent, Next;
    if events == [] {
      EmptyCoherent<V>();
      assert ReadyTasks(Start<V>().tasks) == {};
    } else {
      var n := |events| - 1;
      CacheSafeInEveryRun(events[..n], maxSize, c);
      NextKeepsBound(After(events[..n], maxSize, c), events[n], maxSize, c);
    }
  }

  // ---------- The size bound is attained ----------

  /** The n-th of a sequence of distinct keys. */
  function Name(n: nat): Key {
    seq(n + 1, i => 'k')
  }

  lemma Extend<V>(events: seq<Event<V>>, e: Event<V>, maxSize: nat, c: nat)
    requires Legal(events, maxSize, c) && Enabled(After(events, maxSize, c), e.step)
    requires |Next(After(events, maxSize, c), e, maxSize).tasks| <= c
    ensures Legal(events + [e], maxSize, c)
    ensures After(events + [e], maxSize, c) == Next(After(events, maxSize, c), e, maxSize)
  {
    assert (events + [e])[..|events|] == events;
  }

  function Begin(id: nat, n: nat): Event<int> {
    Event(BeginSet(id, Name(n), 0, 0), 0)
  }

  function Passed(n: nat): Task<int> {
    Task(Name(n), NewEntry(0, 0, 0), true)
  }

  lemma BeginPasses(s: System<int>, id: nat, n: nat, maxSize: nat)
    requires id !in s.tasks && |s.tables.cache| < maxSize
    ensures Next(s, Begin(id, n), maxSize) == System(s.tables, s.tasks[id := Passed(n)])
  {
  }

  lemma FinishAdds(s: System<int>, id: nat, n: nat, maxSize: nat)
    requires id in s.tasks && s.tasks[id] == Passed(n) && Name(n) !in s.tables.cache
    ensures var t := Next(s, Event(FinishSet(id), 0), maxSize);
      && t.tasks == s.tasks - {id}
      && |t.tables.cache| == |s.tables.cache| + 1
      && t.tables.cache.Keys == s.tables.cache.Keys + {Name(n)}
  {
    assert s.tables.cache[Name(n) := Passed(n).entry].Keys == s.tables.cache.Keys + {Name(n)};
  }

  ghost predicate Unused(s: System<int>, from: nat, to: nat) {
    forall i :: from <= i < to ==> Name(i) !in s.tables.cache
  }

  lemma UnusedAfter(s: System<int>, t: System<int>, n: nat, from: nat, to: nat)
    requires Unused(s, from, to) && !(from <= n < to)
    requires t.tables.cache.Keys == s.tables.cache.Keys + {Name(n)}
    ensures Unused(t, from, to)
  {
    forall i | from <= i < to ensures Name(i) !in t.tables.cache {
      assert |Name(i)| == i + 1 && |Name(n)| == n + 1;
      assert Name(i) in t.tables.cache <==> Name(i) in t.tables.cache.Keys;
    }
  }

  /** n keys are stored by sets that nothing interrupts. */
  lemma {:induction false} FillTo(n: nat, limit: nat, maxSize: nat, c: nat) returns (events: seq<Event<int>>)
    requires n < maxSize && n <= limit && c >= 1
    ensures Legal(events, maxSize, c)
    ensures var s := After(events, maxSize, c);
      s.tasks == map[] && |s.tables.cache| == n && Unused(s, n, limit)
  {
    if n == 0 {
      events := [];
    } else {
      events := FillTo(n - 1, limit, maxSize, c);
      hide Next, Unused;
      var s := After(events, maxSize, c);
      BeginPasses(s, 0, n - 1, maxSize);
      Extend(events, Begin(0, n - 1), maxSize, c);
      events := events + [Begin(0, n - 1)];
      var s' := After(events, maxSize, c);
      UnusedHere(s, n - 1, limit);
      FinishAdds(s', 0, n - 1, maxSize);
      Extend(events, Event(FinishSet(0), 0), maxSize, c);
      events := events + [Event(FinishSet(0), 0)];
      UnusedFewer(s, n - 1, limit);
      UnusedAfter(s, After(events, maxSize, c), n - 1, n, limit);
      assert s'.tasks - {0} == map[];
    }
  }

  lemma UnusedHere(s: System<int>, n: nat, limit: nat)
    requires Unused(s, n, limit) && n < limit
    ensures Name(n) !in s.tables.cache
  {
  }

  lemma UnusedFewer(s: System<int>, n: nat, limit: nat)
    requires Unused(s, n, limit)
    ensures Unused(s, n + 1, limit)
    ensures limit >= 1 ==> Unused(s, n, limit - 1)
  {
  }

  /** j sets that have all passed their check. */
  ghost function Crowd(j: nat, base: nat): (tasks: map<nat, Task<int>>)
    ensures |tasks| == j && forall id :: id in tasks ==> id < j
  {
    if j == 0 then map[] else Crowd(j - 1, base)[j - 1 := Passed(base + j - 1)]
  }

  lemma CrowdGrows(j: nat, base: nat)
    ensures j !in Crowd(j, base) && Crowd(j + 1, base) == Crowd(j, base)[j := Passed(base + j)]
  {
  }

  lemma {:induction false} Gather(j: nat, maxSize: nat, c: nat) returns (events: seq<Event<int>>)
    requires maxSize >= 1 && 1 <= c && j <= c
    ensures Legal(events, maxSize, c)
    ensures var s := After(events, maxSize, c);
      s.tasks == Crowd(j, maxSize - 1) && |s.tables.cache| == maxSize - 1 && Unused(s, maxSize - 1, maxSize - 1 + c)
  {
    if j == 0 {
      events := FillTo(maxSize - 1, maxSize - 1 + c, maxSize, c);
    } else {
      hide Next, Unused, Crowd, Legal, After, Enabled;
      var earlier := Gather(j - 1, maxSize, c);
      var e := Begin(j - 1, maxSize - 1 + j - 1);
      OneGathers(After(earlier, maxSize, c), j - 1, maxSize);
      Extend(earlier, e, maxSize, c);
      events := earlier + [e];
    }
  }

  lemma OneGathers(s: System<int>, j: nat, maxSize: nat)
    requires maxSize >= 1 && s.tasks == Crowd(j, maxSize - 1) && |s.tables.cache| < maxSize
    ensures var e := Begin(j, maxSize - 1 + j);
      && Enabled(s, e.step)
      && var t := Next(s, e, maxSize);
      && t.tasks == Crowd(j + 1, maxSize - 1) && |t.tasks| == j + 1 && t.tables == s.tables
      && forall from: nat, to: nat :: Unused(s, from, to) ==> Unused(t, from, to)
  {
    hide Next, Crowd, Passed, Name;
    CrowdGrows(j, maxSize - 1);
    BeginPasses(s, j, maxSize - 1 + j, maxSize);
  }

  /** c sets that pass their check while there is room for one: all of them store. */
  lemma {:induction false} BoundIsReached(maxSize: nat, c: nat, left: nat) returns (events: seq<Event<int>>)
    requires maxSize >= 1 && c >= 1 && left <= c
    ensures Legal(events, maxSize, c)
    ensures var s := After(events, maxSize, c);
      && s.tasks == Crowd(left, maxSize - 1)
      && |s.tables.cache| == maxSize + c - 1 - left
      && Unused(s, maxSize - 1, maxSize - 1 + left)
    decreases c - left
  {
    if left == c {
      events := Gather(c, maxSize, c);
    } else {
      hide Next, Unused, Crowd, Legal, After, Enabled;
      var earlier := BoundIsReached(maxSize, c, left + 1);
      OneFinishes(After(earlier, maxSize, c), left, maxSize - 1 + left, maxSize);
      Extend(earlier, Event(FinishSet(left), 0), maxSize, c);
      events := earlier + [Event(FinishSet(left), 0)];
    }
  }

  lemma OneFinishes(s: System<int>, left: nat, n: nat, maxSize: nat)
    requires maxSize >= 1 && n == maxSize - 1 + left && s.tasks == Crowd(left + 1, maxSize - 1) && Unused(s, maxSize - 1, n + 1)
    ensures Enabled(s, FinishSet(left))
    ensures var t := Next(s, Event(FinishSet(left), 0), maxSize);
      t.tasks == Crowd(left, maxSize - 1) && |t.tables.cache| == |s.tables.cache| + 1 && Unused(t, maxSize - 1, n)
  {
    hide Next, Unused, Crowd, Name, Passed, Enabled;
    CrowdShrinks(s.tasks, left, maxSize - 1);
    FinishIsEnabled(s, left);
    UnusedLast(s, maxSize - 1, n);
    FinishStores(s, left, n, maxSize);
  }

  lemma FinishStores(s: System<int>, left: nat, n: nat, maxSize: nat)
    requires maxSize >= 1 && n == maxSize - 1 + left && left in s.tasks && s.tasks[left] == Passed(n)
    requires Name(n) !in s.tables.cache && Unused(s, maxSize - 1, n) && Enabled(s, FinishSet(left))
    ensures var t := Next(s, Event(FinishSet(left), 0), maxSize);
      t.tasks == s.tasks - {left} && |t.tables.cache| == |s.tables.cache| + 1 && Unused(t, maxSize - 1, n)
  {
    hide Next, Unused, Name, Passed, Enabled;
    FinishAdds(s, left, n, maxSize);
    UnusedAfter(s, Next(s, Event(FinishSet(left), 0), maxSize), n, maxSize - 1, n);
  }

  lemma CrowdShrinks(tasks: map<nat, Task<int>>, j: nat, base: nat)
    requires tasks == Crowd(j + 1, base)
    ensures j in tasks && tasks[j] == Passed(base + j) && tasks[j].ready
    ensures tasks - {j} == Crowd(j, base)
  {
  }

  lemma FinishIsEnabled(s: System<int>, id: nat)
    requires id in s.tasks && s.tasks[id].ready
    ensures Enabled(s, FinishSet(id))
  {
  }

  lemma UnusedLast(s: System<int>, from: nat, n: nat)
    requires Unused(s, from, n + 1) && from <= n
    ensures Name(n) !in s.tables.cache && Unused(s, from, n)
  {
  }

  // ---------- Where entries come from ----------

  /** What an entry keeps from the set that made it. */
  datatype Origin<V> = Origin(value: V, createdAt: int, expiry: int)

  function OriginOf<V>(entry: Entry<V>): Origin<V> {
    Origin(entry.value, entry.createdAt, entry.expiry)
  }

  ghost predicate InFlight<V>(tasks: map<nat, Task<V>>, key: Key, o: Origin<V>) {
    exists id :: id in tasks && tasks[id].key == key && OriginOf(tasks[id].entry) == o
  }

  /** An entry of this origin is cached under `key` or about to be. */
  ghost predicate Holds<V>(s: System<V>, key: Key, o: Origin<V>) {
    (key in s.tables.cache && OriginOf(s.tables.cache[key]) == o) || InFlight(s.tasks, key, o)
  }

  ghost predicate Makes<V>(e: Event<V>, key: Key, o: Origin<V>) {
    e.step.BeginSet? && e.step.key == key && o == Origin(e.step.value, e.at, e.at + e.step.ttl)
  }

  /** No step invents an entry. */
  lemma NextInvents<V>(s: System<V>, e: Event<V>, maxSize: nat, key: Key, o: Origin<V>)
    requires Enabled(s, e.step) && Holds(Next(s, e, maxSize), key, o)
    ensures Makes(e, key, o) || Holds(s, key, o)
  {
    var t := Next(s, e, maxSize);
    if InFlight(t.tasks, key, o) {
      var id :| id in t.tasks && t.tasks[id].key == key && OriginOf(t.tasks[id].entry) == o;
      if id in s.tasks {
        assert s.tasks[id].key == key && OriginOf(s.tasks[id].entry) == o;
      }
    } else if e.step.FinishSet? && s.tasks[e.step.id].key == key {
      assert InFlight(s.tasks, key, OriginOf(s.tasks[e.step.id].entry));
    }
  }

  lemma {:induction false} HeldWasBegun<V>(events: seq<Event<V>>, maxSize: nat, c: nat, key: Key, o: Origin<V>) returns (i: nat)
    requires Legal(events, maxSize, c) && Holds(After(events, maxSize, c), key, o)
    ensures i < |events| && Makes(events[i], key, o)
    decreases |events|
  {
    StartHoldsNothing(key, o);
    hide Next, Makes, Holds;
    var n := |events| - 1;
    NextInvents(After(events[..n], maxSize, c), events[n], maxSize, key, o);
    if Makes(events[n], key, o) {
      i := n;
    } else {
      i := HeldWasBegun(events[..n], maxSize, c, key, o);
    }
  }

  lemma StartHoldsNothing<V>(key: Key, o: Origin<V>)
    ensures !Holds(Start<V>(), key, o)
  {
  }

  // ---------- Which set a hit answers ----------

  /** The set in flight as `id` was begun at event i. */
  ghost predicate Begun<V>(events: seq<Event<V>>, i: nat, id: nat) {
    && i < |events| && events[i].step.BeginSet? && events[i].step.id == id
    && forall k :: i < k < |events| ==>
      events[k].step != FinishSet(id) && !(events[k].step.BeginSet? && events[k].step.id == id)
  }

  /** Event g stores an entry under `key`. */
  ghost predicate Finishes<V>(events: seq<Event<V>>, g: nat, key: Key) {
    g < |events| && events[g].step.FinishSet?
    && exists i: nat :: Begun(events[..g], i, events[g].step.id) && events[i].step.key == key
  }

  /** The set of `key` begun at event i finished at event f, none of that key finished after it, and the key was
      not deleted nor the cache cleared since. */
  ghost predicate FinishedLast<V>(events: seq<Event<V>>, i: nat, f: nat, key: Key) {
    && i < f < |events| && events[i].step.BeginSet? && events[i].step.key == key
    && events[f].step == FinishSet(events[i].step.id) && Begun(events[..f], i, events[i].step.id)
    && forall g :: f < g < |events| ==> !Finishes(events, g, key) && events[g].step != Delete(key) && events[g].step != Clear
  }

  lemma TaskBefore<V>(s: System<V>, e: Event<V>, maxSize: nat, id: nat)
    requires Enabled(s, e.step) && id in Next(s, e, maxSize).tasks
    ensures var task := Next(s, e, maxSize).tasks[id];
      if e.step.BeginSet? && e.step.id == id then
        task.key == e.step.key && OriginOf(task.entry) == Origin(e.step.value, e.at, e.at + e.step.ttl)
      else
        e.step != FinishSet(id) && id in s.tasks && task.key == s.tasks[id].key && task.entry == s.tasks[id].entry
  {
  }

  lemma {:induction false} TaskWasBegun<V>(events: seq<Event<V>>, maxSize: nat, c: nat, id: nat) returns (i: nat)
    requires Legal(events, maxSize, c) && id in After(events, maxSize, c).tasks
    ensures Begun(events, i, id)
    ensures var task := After(events, maxSize, c).tasks[id];
      task.key == events[i].step.key
      && OriginOf(task.entry) == Origin(events[i].step.value, events[i].at, events[i].at + events[i].step.ttl)
    decreases |events|
  {
    hide Next, Enabled;
    var n := |events| - 1;
    TaskBefore(After(events[..n], maxSize, c), events[n], maxSize, id);
    if events[n].step.BeginSet? && events[n].step.id == id {
      i := n;
    } else {
      i := TaskWasBegun(events[..n], maxSize, c, id);
    }
  }

  /** A cached entry was just stored, or was there before. */
  lemma EntryBefore<V>(s: System<V>, e: Event<V>, maxSize: nat, key: Key)
    requires Enabled(s, e.step) && key in Next(s, e, maxSize).tables.cache
    ensures var entry := Next(s, e, maxSize).tables.cache[key];
      if e.step.FinishSet? && s.tasks[e.step.id].key == key then OriginOf(entry) == OriginOf(s.tasks[e.step.id].entry)
      else
        e.step != Delete(key) && e.step != Clear
        && key in s.tables.cache && OriginOf(entry) == OriginOf(s.tables.cache[key])
  {
  }

  lemma {:induction false} EntryWasFinished<V>(events: seq<Event<V>>, maxSize: nat, c: nat, key: Key) returns (i: nat, f: nat)
    requires Legal(events, maxSize, c) && key in After(events, maxSize, c).tables.cache
    ensures FinishedLast(events, i, f, key)
    ensures OriginOf(After(events, maxSize, c).tables.cache[key])
      == Origin(events[i].step.value, events[i].at, events[i].at + events[i].step.ttl)
    decreases |events|
  {
    hide Next, Begun, OriginOf;
    var n := |events| - 1;
    var s, e := After(events[..n], maxSize, c), events[n];
    EntryBefore(s, e, maxSize, key);
    if e.step.FinishSet? && s.tasks[e.step.id].key == key {
      i := TaskWasBegun(events[..n], maxSize, c, e.step.id);
      f := n;
      BegunHere(events[..n], i, e.step.id);
    } else {
      i, f := EntryWasFinished(events[..n], maxSize, c, key);
      OtherFinishes(events, maxSize, c, key);
      StillLast(events, i, f, key);
    }
  }

  lemma BegunHere<V>(events: seq<Event<V>>, i: nat, id: nat)
    requires Begun(events, i, id)
    ensures i < |events| && events[i].step.BeginSet? && events[i].step.id == id
  {
  }

  lemma BegunOnce<V>(events: seq<Event<V>>, i: nat, j: nat, id: nat)
    requires Begun(events, i, id) && Begun(events, j, id)
    ensures i == j
  {
  }

  lemma FinishesEarlier<V>(events: seq<Event<V>>, n: nat, g: nat, key: Key)
    requires g < n <= |events|
    ensures Finishes(events[..n], g, key) <==> Finishes(events, g, key)
  {
    assert events[..n][..g] == events[..g] && events[..n][g] == events[g];
    assert forall i: nat :: i < g ==> events[..n][i] == events[i];
  }

  /** What finishes another key's set does not finish this one's. */
  lemma OtherFinishes<V>(events: seq<Event<V>>, maxSize: nat, c: nat, key: Key)
    requires events != [] && Legal(events, maxSize, c)
    requires var n := |events| - 1;
      events[n].step.FinishSet? ==> After(events[..n], maxSize, c).tasks[events[n].step.id].key != key
    ensures !Finishes(events, |events| - 1, key)
  {
    var n := |events| - 1;
    if Finishes(events, n, key) {
      var id := events[n].step.id;
      var j: nat :| Begun(events[..n], j, id) && events[j].step.key == key;
      var k := TaskWasBegun(events[..n], maxSize, c, id);
      BegunOnce(events[..n], j, k, id);
    }
  }

  lemma StillLast<V>(events: seq<Event<V>>, i: nat, f: nat, key: Key)
    requires events != [] && FinishedLast(events[..|events| - 1], i, f, key) && !Finishes(events, |events| - 1, key)
    requires var e := events[|events| - 1]; e.step != Delete(key) && e.step != Clear
    ensures FinishedLast(events, i, f, key)
  {
    hide Begun, Finishes;
    var n := |events| - 1;
    assert events[..n][..f] == events[..f];
    forall g | f < g < n ensures !Finishes(events, g, key) {
      FinishesEarlier(events, n, g, key);
    }
  }

  /** Under every interleaving a hit returns the value of the set of that key that was the last to finish, whichever
      began last, with the key neither deleted nor the cache cleared since, and begun at most its time-to-live ago. */
  lemma HitsAreFresh<V>(events: seq<Event<V>>, key: Key, now: int, maxSize: nat, c: nat) returns (i: nat, f: nat)
    requires Legal(events, maxSize, c) && Found(After(events, maxSize, c).tables, key, now).Hit?
    ensures FinishedLast(events, i, f, key)
    ensures Found(After(events, maxSize, c).tables, key, now) == Hit(events[i].step.value)
    ensures now <= events[i].at + events[i].step.ttl
  {
    i, f := EntryWasFinished(events, maxSize, c, key);
  }
}

/** A set in flight gets through, whatever runs beside it. */
module WaitingSets {
  import opened KeyLists
  import opened CacheTables
  import opened InterleavedCache

  /** `events` can happen in this order from `s`. */
  ghost predicate Possible<V>(s: System<V>, events: seq<Event<V>>, maxSize: nat)
    decreases |events|, 0
  {
    events == [] ||
    var n := |events| - 1;
    Possible(s, events[..n], maxSize) && Enabled(Later(s, events[..n], maxSize), events[n].step)
  }

  ghost function Later<V>(s: System<V>, events: seq<Event<V>>, maxSize: nat): System<V>
    requires Possible(s, events, maxSize)
    decreases |events|, 1
  {
    if events == [] then s else Next(Later(s, events[..|events| - 1], maxSize), events[|events| - 1], maxSize)
  }

  /** How often `id` takes a turn of its loop, and how many sets store. */
  function Turns<V>(events: seq<Event<V>>, id: nat): nat {
    if events == [] then 0
    else Turns(events[..|events| - 1], id) + if events[|events| - 1].step == ResumeSet(id) then 1 else 0
  }

  function Stores<V>(events: seq<Event<V>>): nat {
    if events == [] then 0
    else Stores(events[..|events| - 1]) + if events[|events| - 1].step.FinishSet? then 1 else 0
  }

  /** No empty key, which eviction would never remove, is held or about to be. */
  ghost predicate Evictable<V>(s: System<V>) {
    Coherent(s.tables) && "" !in s.tables.cache && forall id :: id in s.tasks ==> s.tasks[id].key != ""
  }

  ghost predicate Waits<V>(s: System<V>, id: nat) {
    id in s.tasks && !s.tasks[id].ready
  }

  lemma EvictionShrinks<V>(t: Tables<V>)
    requires Coherent(t) && "" !in t.cache && t.cache != map[]
    ensures |EvictOldest(t).cache| == |t.cache| - 1 && "" !in EvictOldest(t).cache && Coherent(EvictOldest(t))
  {
    EvictCoherent(t);
    var k := Oldest(t.accessOrder);
    assert (t.cache - {k}).Keys == t.cache.Keys - {k};
    assert |t.cache.Keys| == |t.cache|;
  }

  lemma CheckShrinks<V>(s: System<V>, id: nat, task: Task<V>, maxSize: nat)
    requires maxSize >= 1 && Evictable(s) && task.key != ""
    ensures var t := CheckCapacity(s, id, task, maxSize);
      && Evictable(t) && id in t.tasks
      && (if |s.tables.cache| < maxSize then t.tasks[id].ready && t.tables == s.tables
          else !t.tasks[id].ready && |t.tables.cache| == |s.tables.cache| - 1)
  {
    hide EvictOldest;
    if |s.tables.cache| >= maxSize {
      EvictionShrinks(s.tables);
    }
    hide Coherent;
  }

  lemma LookupEvictable<V>(t: Tables<V>, key: Key, at: int)
    requires Coherent(t) && "" !in t.cache
    ensures Coherent(Lookup(t, key, at)) && "" !in Lookup(t, key, at).cache && |Lookup(t, key, at).cache| <= |t.cache|
    ensures Coherent(Probe(t, key, at)) && "" !in Probe(t, key, at).cache && |Probe(t, key, at).cache| <= |t.cache|
  {
    LookupCoherent(t, key, at);
    hide Coherent;
  }

  lemma EvictableKept<V>(s: System<V>, e: Event<V>, maxSize: nat)
    requires maxSize >= 1 && Evictable(s) && Enabled(s, e.step) && (e.step.BeginSet? ==> e.step.key != "")
    ensures Evictable(Next(s, e, maxSize))
    ensures |Next(s, e, maxSize).tables.cache| <= |s.tables.cache| + if e.step.FinishSet? then 1 else 0
  {
    hide Coherent, CheckCapacity, DropAll, Empty, Lookup, Probe;
    match e.step
    case BeginSet(id, key, value, ttl) => CheckShrinks(s, id, Task(key, NewEntry(value, ttl, e.at), false), maxSize);
    case ResumeSet(id) => CheckShrinks(s, id, s.tasks[id], maxSize);
    case FinishSet(id) => StoreCoherent(s.tables, s.tasks[id].key, s.tasks[id].entry, e.at);
    case Get(key) => LookupEvictable(s.tables, key, e.at);
    case Has(key) => LookupEvictable(s.tables, key, e.at);
    case Delete(key) => DropEvictable(s.tables, {key});
    case Clear => ClearEvictable(s);
    case Cleanup => DropEvictable(s.tables, ExpiredKeys(s.tables.cache, e.at));
  }

  lemma DropEvictable<V>(t: Tables<V>, gone: set<Key>)
    requires Coherent(t) && "" !in t.cache
    ensures Coherent(DropAll(t, gone)) && "" !in DropAll(t, gone).cache && |DropAll(t, gone).cache| <= |t.cache|
  {
    DropCoherent(t, gone);
  }

  lemma ClearEvictable<V>(s: System<V>)
    requires Evictable(s)
    ensures Evictable(s.(tables := Empty()))
    ensures |Empty<V>().cache| == 0
  {
  }

  /** A waiting set goes on waiting until a turn of its own finds room. */
  lemma WaitedBefore<V>(s: System<V>, e: Event<V>, maxSize: nat, id: nat)
    requires maxSize >= 1 && Evictable(s) && Enabled(s, e.step) && (e.step.BeginSet? ==> e.step.id != id)
    requires Waits(Next(s, e, maxSize), id)
    ensures Waits(s, id)
    ensures e.step == ResumeSet(id) ==>
      |s.tables.cache| >= maxSize && |Next(s, e, maxSize).tables.cache| == |s.tables.cache| - 1
  {
    if e.step == ResumeSet(id) {
      CheckShrinks(s, id, s.tasks[id], maxSize);
    }
    hide Coherent, EvictOldest, Evictable;
  }

  lemma {:induction false} EvictableLater<V>(s: System<V>, events: seq<Event<V>>, maxSize: nat)
    requires maxSize >= 1 && Evictable(s) && Possible(s, events, maxSize)
    requires forall i :: 0 <= i < |events| && events[i].step.BeginSet? ==> events[i].step.key != ""
    ensures Evictable(Later(s, events, maxSize))
    decreases |events|
  {
    hide Evictable, Enabled, Next;
    if events != [] {
      var n := |events| - 1;
      EvictableLater(s, events[..n], maxSize);
      EvictableKept(Later(s, events[..n], maxSize), events[n], maxSize);
    }
  }

  /** Whatever else runs: a set that still waits has taken no more turns than the entries that were to go, those that
      other sets stored meanwhile included. So one that keeps getting its turn passes its check. */
  lemma {:induction false} WaitingIsBounded<V>(s: System<V>, events: seq<Event<V>>, maxSize: nat, id: nat)
    requires maxSize >= 1 && Evictable(s) && Possible(s, events, maxSize)
    requires forall i :: 0 <= i < |events| && events[i].step.BeginSet? ==> events[i].step.key != "" && events[i].step.id != id
    requires Waits(Later(s, events, maxSize), id)
    ensures |Later(s, events, maxSize).tables.cache| + Turns(events, id) <= |s.tables.cache| + Stores(events)
    ensures Turns(events, id) > 0 ==> Turns(events, id) <= |s.tables.cache| + Stores(events) - maxSize + 1
    ensures Enabled(Later(s, events, maxSize), ResumeSet(id))
    decreases |events|
  {
    hide Evictable, Next;
    if events != [] {
      var n := |events| - 1;
      var before := Later(s, events[..n], maxSize);
      EvictableLater(s, events[..n], maxSize);
      WaitedBefore(before, events[n], maxSize, id);
      EvictableKept(before, events[n], maxSize);
      WaitingIsBounded(s, events[..n], maxSize, id);
    }
  }

  function Alone<V>(id: nat, turns: nat, at: int): seq<Event<V>> {
    if turns == 0 then [] else Alone(id, turns - 1, at) + [Event(ResumeSet(id), at)]
  }

  lemma AloneLast<V>(id: nat, turns: nat, at: int)
    requires turns > 0
    ensures var events: seq<Event<V>> := Alone(id, turns, at);
      |events| > 0 && events[..|events| - 1] == Alone(id, turns - 1, at) && events[|events| - 1] == Event(ResumeSet(id), at)
  {
  }

  /** Left alone, a waiting set takes exactly that many turns: each evicts one entry, and the next one passes. */
  lemma {:induction false} AloneEvicts<V>(s: System<V>, maxSize: nat, id: nat, turns: nat, at: int)
    requires maxSize >= 1 && Evictable(s) && Waits(s, id)
    requires turns > 0 ==> turns <= |s.tables.cache| - maxSize + 1
    ensures Possible(s, Alone(id, turns, at), maxSize)
    ensures var t := Later(s, Alone(id, turns, at), maxSize);
      && Evictable(t) && Waits(t, id) && |t.tables.cache| == |s.tables.cache| - turns
      && (|t.tables.cache| < maxSize ==> !Waits(Next(t, Event(ResumeSet(id), at), maxSize), id))
    decreases turns
  {
    hide Evictable;
    if turns > 0 {
      AloneLast<V>(id, turns, at);
      AloneEvicts(s, maxSize, id, turns - 1, at);
      var before := Later(s, Alone(id, turns - 1, at), maxSize);
      NotEmptyKey(before, id);
      CheckShrinks(before, id, before.tasks[id], maxSize);
    }
    var t := Later(s, Alone(id, turns, at), maxSize);
    NotEmptyKey(t, id);
    CheckShrinks(t, id, t.tasks[id], maxSize);
  }

  lemma NotEmptyKey<V>(s: System<V>, id: nat)
    requires Evictable(s) && id in s.tasks
    ensures s.tasks[id].key != ""
  {
  }

  /** Every reachable state is such a one, as long as no empty key is set. */
  lemma {:induction false} ReachableIsEvictable<V>(events: seq<Event<V>>, maxSize: nat, c: nat)
    requires Legal(events, maxSize, c) && maxSize >= 1
    requires forall i :: 0 <= i < |events| && events[i].step.BeginSet? ==> events[i].step.key != ""
    ensures Evictable(After(events, maxSize, c))
    decreases |events|
  {
    if events == [] {
      EmptyCoherent<V>();
    } else {
      hide Evictable, Enabled, Next;
      var n := |events| - 1;
      ReachableIsEvictable(events[..n], maxSize, c);
      EvictableKept(After(events[..n], maxSize, c), events[n], maxSize);
    }
  }
}
