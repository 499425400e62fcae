/** What whole sequences of cache operations guarantee, for non-empty keys and maxSize >= 1. */
module CacheHistory {
  import opened Collections
  import opened KeyLists
  import opened CacheTables
  import opened RecencyList
  import opened Strings

  datatype Op<V> =
    | Get(key: Key)
    | Set(key: Key, value: V, ttl: int)
    | Delete(key: Key)
    | Has(key: Key)
    | Clear
    | Cleanup

  datatype Event<V> = Event(op: Op<V>, at: int)

  function Apply<V>(l: Lru<V>, e: Event<V>, maxSize: nat): Lru<V>
    requires maxSize >= 1
  {
    match e.op
    case Get(k) => GetL(l, k, e.at)
    case Set(k, v, ttl) => SetL(l, k, v, ttl, e.at, maxSize)
    case Delete(k) => DropL(l, {k})
    case Has(k) => HasL(l, k, e.at)
    case Clear => Lru([], map[])
    case Cleanup => CleanupL(l, e.at)
  }

  function Run<V>(h: seq<Event<V>>, maxSize: nat): Lru<V>
    requires maxSize >= 1
  {
    if h == [] then Lru([], map[])
    else Apply(Run(h[..|h| - 1], maxSize), h[|h| - 1], maxSize)
  }

  // ---------- Shape ----------

  lemma DropWellFormed<V>(l: Lru<V>, gone: set<Key>)
    requires WellFormed(l)
    ensures WellFormed(DropL(l, gone))
  {
    WithoutElements(l.order, gone);
    WithoutNoDuplicates(l.order, gone);
  }

  lemma FrontWellFormed<V>(l: Lru<V>, key: Key, entry: Entry<V>)
    requires WellFormed(l)
    ensures WellFormed(Lru(ToFront(l.order, key), l.entries[key := entry]))
  {
    WithoutElements(l.order, {key});
    WithoutNoDuplicates(l.order, {key});
  }

  lemma TrimWellFormed<V>(l: Lru<V>, maxSize: nat)
    requires WellFormed(l) && maxSize >= 1
    ensures WellFormed(TrimL(l, maxSize))
    ensures |TrimL(l, maxSize).order| < maxSize
  {
    forall k | k in Take(l.order, maxSize - 1) ensures k in l.entries {
      assert k in l.order;
    }
  }

  lemma ApplyWellFormed<V>(l: Lru<V>, e: Event<V>, maxSize: nat)
    requires WellFormed(l) && maxSize >= 1 && |l.order| <= maxSize
    ensures WellFormed(Apply(l, e, maxSize)) && |Apply(l, e, maxSize).order| <= maxSize
  {
    hide WellFormed;
    match e.op
    case Get(k) =>
      DropWellFormed(l, {k});
      WithoutElements(l.order, {k});
      if k in l.entries && !Expired(l.entries[k], e.at) {
        FrontWellFormed(l, k, Used(l.entries[k], e.at));
        ToFrontSize(l, k);
      }
    case Set(k, v, ttl) =>
      TrimWellFormed(l, maxSize);
      FrontWellFormed(TrimL(l, maxSize), k, Used(NewEntry(v, ttl, e.at), e.at));
      WithoutElements(TrimL(l, maxSize).order, {k});
    case Delete(k) =>
      DropWellFormed(l, {k});
      WithoutElements(l.order, {k});
    case Has(k) =>
      DropWellFormed(l, {k});
      WithoutElements(l.order, {k});
    case Clear =>
      EmptyWellFormed<V>();
    case Cleanup =>
      DropWellFormed(l, ExpiredKeys(l.entries, e.at));
      WithoutElements(l.order, ExpiredKeys(l.entries, e.at));
  }

  lemma EmptyWellFormed<V>()
    ensures WellFormed(Lru<V>.Lru([], map[]))
  {
  }

  lemma ToFrontSize<V>(l: Lru<V>, key: Key)
    requires WellFormed(l) && key in l.entries
    ensures |ToFront(l.order, key)| == |l.order|
  {
    WithoutOne(l.order, key);
  }

  lemma {:induction false} RunWellFormed<V>(h: seq<Event<V>>, maxSize: nat)
    requires maxSize >= 1
    ensures WellFormed(Run(h, maxSize)) && |Run(h, maxSize).order| <= maxSize
  {
    if h == [] {
      EmptyWellFormed<V>();
    } else {
      RunWellFormed(h[..|h| - 1], maxSize);
      ApplyWellFormed(Run(h[..|h| - 1], maxSize), h[|h| - 1], maxSize);
    }
  }

  // ---------- get returns only the latest set ----------

  predicate Overrides<V>(op: Op<V>, key: Key) {
    op == Clear || op == Delete(key) || (op.Set? && op.key == key)
  }

  /** h[i] sets `key`, and nothing later sets or deletes it or clears the cache. */
  ghost predicate IsLatestSet<V>(h: seq<Event<V>>, i: nat, key: Key) {
    && i < |h| && h[i].op.Set? && h[i].op.key == key
    && forall j :: i < j < |h| ==> !Overrides(h[j].op, key)
  }

  lemma LatestSetUnique<V>(h: seq<Event<V>>, i: nat, j: nat, key: Key)
    requires IsLatestSet(h, i, key) && IsLatestSet(h, j, key)
    ensures i == j
  {
  }

  /** An entry is the one just set, or was there before. */
  lemma EntryBefore<V>(l: Lru<V>, e: Event<V>, key: Key, maxSize: nat)
    requires maxSize >= 1 && key in Apply(l, e, maxSize).entries
    ensures var entry := Apply(l, e, maxSize).entries[key];
      if e.op.Set? && e.op.key == key then
        entry.value == e.op.value && entry.expiry == e.at + e.op.ttl && entry.createdAt == e.at
      else
        !Overrides(e.op, key) && key in l.entries
        && entry.value == l.entries[key].value && entry.expiry == l.entries[key].expiry && entry.createdAt == l.entries[key].createdAt
  {
    hide Without, Take;
  }

  lemma {:induction false} EntryIsLatestSet<V>(h: seq<Event<V>>, key: Key, maxSize: nat) returns (i: nat)
    requires maxSize >= 1 && key in Run(h, maxSize).entries
    ensures IsLatestSet(h, i, key)
    ensures var e := Run(h, maxSize).entries[key];
      e.value == h[i].op.value && e.expiry == h[i].at + h[i].op.ttl && e.createdAt == h[i].at
  {
    hide Apply;
    var n := |h| - 1;
    var last := h[n];
    EntryBefore(Run(h[..n], maxSize), last, key, maxSize);
    if last.op.Set? && last.op.key == key {
      i := n;
    } else {
      i := EntryIsLatestSet(h[..n], key, maxSize);
    }
  }

  /** Whatever the history and the clock, a hit returns the value of the latest set of that key, unexpired. */
  lemma GetAnswersLatestSet<V>(h: seq<Event<V>>, key: Key, now: int, maxSize: nat)
    requires maxSize >= 1
    ensures AnswerL(Run(h, maxSize), key, now).Hit? ==>
      exists i: nat :: IsLatestSet(h, i, key) && now <= h[i].at + h[i].op.ttl
                       && AnswerL(Run(h, maxSize), key, now) == Hit(h[i].op.value)
  {
    if AnswerL(Run(h, maxSize), key, now).Hit? {
      var i := EntryIsLatestSet(h, key, maxSize);
    }
  }

  // ---------- and must return it while few other keys are touched ----------

  /** No event is later than `now`; among themselves they may come in any order of the clock. */
  ghost predicate NotLater<V>(h: seq<Event<V>>, now: int) {
    forall i :: 0 <= i < |h| ==> h[i].at <= now
  }

  /** The key that becomes the most recent one: by a set, or by a get that hits. */
  function TouchedBy<V>(l: Lru<V>, e: Event<V>, except: Key): set<Key> {
    if e.op.Set? && e.op.key != except then {e.op.key}
    else if e.op.Get? && e.op.key != except && AnswerL(l, e.op.key, e.at).Hit? then {e.op.key}
    else {}
  }

  function OthersTouched<V>(h: seq<Event<V>>, from: nat, except: Key, maxSize: nat): set<Key>
    requires maxSize >= 1
  {
    set i, k | from <= i < |h| && k in TouchedBy(Run(h[..i], maxSize), h[i], except) :: k
  }

  /** From there on nothing is set, or at most maxSize - 2 distinct other keys are touched. */
  ghost predicate LeavesRoom<V>(h: seq<Event<V>>, from: nat, key: Key, maxSize: nat)
    requires maxSize >= 1
  {
    (forall i :: from <= i < |h| ==> !h[i].op.Set?) || |OthersTouched(h, from, key, maxSize)| + 2 <= maxSize
  }

  /** h[j] is a set of `key` or a get of it that hits. */
  predicate Touches<V>(h: seq<Event<V>>, j: nat, key: Key, maxSize: nat)
    requires j < |h| && maxSize >= 1
  {
    || (h[j].op.Set? && h[j].op.key == key)
    || (h[j].op == Get(key) && AnswerL(Run(h[..j], maxSize), key, h[j].at).Hit?)
  }

  /** `key` is cached, unexpired until `limit`, and only keys of `others` are more recent. */
  ghost predicate Pinned<V>(l: Lru<V>, key: Key, newer: seq<Key>, older: seq<Key>, others: set<Key>, limit: int) {
    && l.order == newer + [key] + older
    && Elements(newer) <= others
    && key !in newer && key !in older
    && key in l.entries && limit <= l.entries[key].expiry
  }

  lemma PinnedWithout<V>(l: Lru<V>, key: Key, newer: seq<Key>, older: seq<Key>, others: set<Key>, limit: int, gone: set<Key>)
    requires Pinned(l, key, newer, older, others, limit) && key !in gone
    ensures Pinned(DropL(l, gone), key, Without(newer, gone), Without(older, gone), others, limit)
  {
    WithoutConcat(newer + [key], older, gone);
    WithoutConcat(newer, [key], gone);
    WithoutElements(newer, gone);
    WithoutElements(older, gone);
    assert Without([key], gone) == [key];
  }

  /** Another key moves to the front. */
  lemma PinnedFront<V>(l: Lru<V>, key: Key, newer: seq<Key>, older: seq<Key>, others: set<Key>, limit: int,
                       x: Key, entry: Entry<V>)
    requires Pinned(l, key, newer, older, others, limit) && x != key && x in others
    ensures Pinned(Lru(ToFront(l.order, x), l.entries[x := entry]),
                   key, [x] + Without(newer, {x}), Without(older, {x}), others, limit)
  {
    PinnedWithout(l, key, newer, older, others, limit, {x});
    WithoutElements(newer, {x});
    var w := Without(newer, {x});
    assert [x] + (w + [key] + Without(older, {x})) == ([x] + w) + [key] + Without(older, {x});
    forall k | k in [x] + w ensures k in others && k != key {
      if k != x {
        assert k in newer;
        assert k in Elements(newer);
      }
    }
  }

  lemma PinnedTrim<V>(l: Lru<V>, key: Key, newer: seq<Key>, older: seq<Key>, others: set<Key>, limit: int, maxSize: nat)
    returns (fewer: seq<Key>)
    requires Pinned(l, key, newer, older, others, limit) && WellFormed(l)
    requires |others| + 2 <= maxSize
    ensures Pinned(TrimL(l, maxSize), key, newer, fewer, others, limit)
  {
    assert NoDuplicates(newer) by {
      assert forall i :: 0 <= i < |newer| ==> newer[i] == l.order[i];
    }
    NoDuplicatesSize(newer);
    SubsetSize(Elements(newer), others);
    var n := |newer| + 1;
    assert l.order[..n] == newer + [key];
    if |l.order| <= maxSize - 1 {
      fewer := older;
    } else {
      fewer := older[..maxSize - 1 - n];
      assert l.order[..maxSize - 1] == newer + [key] + fewer;
    }
    assert l.order[|newer|] == key;
    assert key in Take(l.order, maxSize - 1) by {
      assert Take(l.order, maxSize - 1)[|newer|] == key;
    }
  }

  lemma StillPinned<V>(l: Lru<V>, e: Event<V>, key: Key, newer: seq<Key>, older: seq<Key>, others: set<Key>,
                       limit: int, maxSize: nat)
    returns (newer': seq<Key>, older': seq<Key>)
    requires WellFormed(l) && Pinned(l, key, newer, older, others, limit)
    requires e.at <= limit && !Overrides(e.op, key)
    requires TouchedBy(l, e, key) <= others && maxSize >= 1 && (e.op.Set? ==> |others| + 2 <= maxSize)
    ensures Pinned(Apply(l, e, maxSize), key, newer', older', others, limit)
  {
    hide Without, Take, WellFormed;
    newer', older' := newer, older;
    match e.op
    case Get(x) =>
      if x == key {
        newer', older' := PinnedSelf(l, key, newer, older, others, limit, e.at);
      } else if x in l.entries {
        newer', older' := Without(newer, {x}), Without(older, {x});
        if Expired(l.entries[x], e.at) {
          PinnedWithout(l, key, newer, older, others, limit, {x});
        } else {
          PinnedFront(l, key, newer, older, others, limit, x, Used(l.entries[x], e.at));
          newer' := [x] + newer';
        }
      }
    case Set(x, v, ttl) =>
      var fewer := PinnedTrim(l, key, newer, older, others, limit, maxSize);
      PinnedFront(TrimL(l, maxSize), key, newer, fewer, others, limit, x, Used(NewEntry(v, ttl, e.at), e.at));
      newer', older' := [x] + Without(newer, {x}), Without(fewer, {x});
    case Delete(x) =>
      PinnedWithout(l, key, newer, older, others, limit, {x});
      newer', older' := Without(newer, {x}), Without(older, {x});
    case Has(x) =>
      if x != key && x in l.entries && Expired(l.entries[x], e.at) {
        PinnedWithout(l, key, newer, older, others, limit, {x});
        newer', older' := Without(newer, {x}), Without(older, {x});
      }
    case Cleanup =>
      var gone := ExpiredKeys(l.entries, e.at);
      PinnedWithout(l, key, newer, older, others, limit, gone);
      newer', older' := Without(newer, gone), Without(older, gone);
  }

  lemma PinnedSelf<V>(l: Lru<V>, key: Key, newer: seq<Key>, older: seq<Key>, others: set<Key>, limit: int, now: int)
    returns (newer': seq<Key>, older': seq<Key>)
    requires Pinned(l, key, newer, older, others, limit) && now <= limit
    ensures Pinned(GetL(l, key, now), key, newer', older', others, limit)
  {
    newer', older' := [], newer + older;
    WithoutMiddle(newer, key, older);
    assert ToFront(l.order, key) == [] + [key] + (newer + older);
  }

  /** The value of a set is still answered if, since the key was last touched, it was not overridden, its time
      has not come, and at most maxSize - 2 distinct other keys were set or hit, or none was set at all. */
  lemma GetMustAnswer<V>(h: seq<Event<V>>, i: nat, j: nat, key: Key, now: int, maxSize: nat)
    requires maxSize >= 1 && i <= j < |h|
    requires IsLatestSet(h, i, key) && Touches(h, j, key, maxSize)
    requires NotLater(h, now) && now <= h[i].at + h[i].op.ttl
    requires LeavesRoom(h, j + 1, key, maxSize)
    ensures AnswerL(Run(h, maxSize), key, now) == Hit(h[i].op.value)
  {
    var others := OthersTouched(h, j + 1, key, maxSize);
    var newer, older := PinnedAfter(h, j, |h|, key, others, now, maxSize);
    assert h[..|h|] == h;
    var i' := EntryIsLatestSet(h, key, maxSize);
    LatestSetUnique(h, i, i', key);
  }

  lemma {:induction false} PinnedAfter<V>(h: seq<Event<V>>, j: nat, n: nat, key: Key, others: set<Key>, now: int, maxSize: nat)
    returns (newer: seq<Key>, older: seq<Key>)
    requires maxSize >= 1 && j < n <= |h|
    requires Touches(h, j, key, maxSize) && NotLater(h, now)
    requires exists i: nat :: i <= j && IsLatestSet(h, i, key) && now <= h[i].at + h[i].op.ttl
    requires others == OthersTouched(h, j + 1, key, maxSize) && LeavesRoom(h, j + 1, key, maxSize)
    ensures Pinned(Run(h[..n], maxSize), key, newer, older, others, now)
    decreases n
  {
    hide Run, Apply, Pinned, OthersTouched, TouchedBy, LeavesRoom, WellFormed;
    var i: nat :| i <= j && IsLatestSet(h, i, key) && now <= h[i].at + h[i].op.ttl;
    assert h[..n][..n - 1] == h[..n - 1];
    if n == j + 1 {
      TouchesPrefix(h, j, key, maxSize);
      newer, older := TouchPins(h[..n], i, key, others, now, maxSize);
    } else {
      newer, older := PinnedAfter(h, j, n - 1, key, others, now, maxSize);
      RunWellFormed(h[..n - 1], maxSize);
      OthersAre(h, j + 1, n - 1, key, maxSize);
      RunStep(h[..n], maxSize);
      newer, older := StillPinned(Run(h[..n - 1], maxSize), h[n - 1], key, newer, older, others, now, maxSize);
    }
  }

  lemma RunStep<V>(h: seq<Event<V>>, maxSize: nat)
    requires maxSize >= 1 && h != []
    ensures Run(h, maxSize) == Apply(Run(h[..|h| - 1], maxSize), h[|h| - 1], maxSize)
  {
  }

  lemma TouchesPrefix<V>(h: seq<Event<V>>, j: nat, key: Key, maxSize: nat)
    requires maxSize >= 1 && j < |h| && Touches(h, j, key, maxSize)
    ensures Touches(h[..j + 1], j, key, maxSize)
  {
    assert h[..j + 1][..j] == h[..j];
  }

  lemma OthersAre<V>(h: seq<Event<V>>, from: nat, i: nat, key: Key, maxSize: nat)
    requires maxSize >= 1 && from <= i < |h| && LeavesRoom(h, from, key, maxSize)
    ensures TouchedBy(Run(h[..i], maxSize), h[i], key) <= OthersTouched(h, from, key, maxSize)
    ensures h[i].op.Set? ==> |OthersTouched(h, from, key, maxSize)| + 2 <= maxSize
  {
    hide Run, TouchedBy;
  }

  lemma SetPins<V>(l: Lru<V>, key: Key, value: V, ttl: int, at: int, maxSize: nat, others: set<Key>, limit: int)
    requires maxSize >= 1 && limit <= at + ttl
    ensures Pinned(SetL(l, key, value, ttl, at, maxSize), key, [], Without(TrimL(l, maxSize).order, {key}), others, limit)
  {
    WithoutElements(TrimL(l, maxSize).order, {key});
    hide Without, Take;
    assert [] + [key] == [key];
  }

  lemma GetPins<V>(l: Lru<V>, key: Key, at: int, others: set<Key>, limit: int)
    requires key in l.entries && !Expired(l.entries[key], at) && limit <= l.entries[key].expiry
    ensures Pinned(GetL(l, key, at), key, [], Without(l.order, {key}), others, limit)
  {
    WithoutElements(l.order, {key});
    hide Without;
    assert [] + [key] == [key];
  }

  /** Right after a touch the key is the most recent one. */
  lemma TouchPins<V>(h: seq<Event<V>>, i: nat, key: Key, others: set<Key>, now: int, maxSize: nat)
    returns (newer: seq<Key>, older: seq<Key>)
    requires maxSize >= 1 && h != [] && Touches(h, |h| - 1, key, maxSize)
    requires IsLatestSet(h, i, key) && now <= h[i].at + h[i].op.ttl
    ensures Pinned(Run(h, maxSize), key, newer, older, others, now)
  {
    hide Run, Pinned, SetL, GetL, Without;
    RunStep(h, maxSize);
    var n := |h| - 1;
    var l := Run(h[..n], maxSize);
    newer := [];
    if h[n].op.Set? {
      older := Without(TrimL(l, maxSize).order, {key});
      SetPins(l, key, h[n].op.value, h[n].op.ttl, h[n].at, maxSize, others, now);
    } else {
      older := Without(l.order, {key});
      var i' := EntryIsLatestSet(h[..n], key, maxSize);
      assert IsLatestSet(h[..n], i, key);
      LatestSetUnique(h[..n], i, i', key);
      GetPins(l, key, h[n].at, others, now);
    }
  }

  // ---------- One other key more is too many ----------

  function Names(n: nat): seq<Key> {
    if n == 0 then [] else [Decimal(n)] + Names(n - 1)
  }

  /** "key" is set, then n other keys. */
  function Filling(n: nat): seq<Event<int>> {
    if n == 0 then [Event(Set("key", 0, 9), 0)] else Filling(n - 1) + [Event(Set(Decimal(n), n, 9), 0)]
  }

  /** The other keys fill the cache, and the last of them is set again. */
  function Losing(maxSize: nat): seq<Event<int>>
    requires maxSize >= 2
  {
    Filling(maxSize - 1) + [Event(Set(Decimal(maxSize - 1), 0, 9), 0)]
  }

  lemma {:induction false} NamesAreNew(n: nat, k: nat)
    requires k > n
    ensures Decimal(k) !in Names(n) + ["key"] && "key" !in Names(n)
    ensures NoDuplicates(Names(n)) && |Names(n)| == n
  {
    DecimalFreeOf(k, 'k');
    assert "key"[0] == 'k';
    if n > 0 {
      NamesAreNew(n - 1, k);
      NamesAreNew(n - 1, n);
      if Decimal(k) == Decimal(n) {
        DecimalInjective(k, n);
      }
    }
  }

  lemma {:induction false} NamesAt(n: nat, i: nat)
    requires 1 <= i <= n
    ensures |Names(n)| == n && Names(n)[n - i] == Decimal(i)
  {
    if i < n {
      NamesAt(n - 1, i);
    } else {
      NamesAreNew(n, n + 1);
    }
  }

  lemma {:induction false} FillingEvents(n: nat)
    ensures |Filling(n)| == n + 1 && Filling(n)[0] == Event(Set("key", 0, 9), 0)
    ensures forall i :: 1 <= i <= n ==> Filling(n)[i] == Event(Set(Decimal(i), i, 9), 0)
  {
    if n > 0 {
      FillingEvents(n - 1);
    }
  }

  lemma {:induction false} FillingOrder(n: nat, maxSize: nat)
    requires n < maxSize
    ensures Run(Filling(n), maxSize).order == Names(n) + ["key"]
  {
    if n == 0 {
      assert Filling(0)[..0] == [];
    } else {
      hide Without, Decimal;
      FillingOrder(n - 1, maxSize);
      NamesAreNew(n - 1, n);
      var h := Filling(n);
      assert h[..|h| - 1] == Filling(n - 1) && h[|h| - 1] == Event(Set(Decimal(n), n, 9), 0);
      WithoutAbsent(Names(n - 1) + ["key"], {Decimal(n)});
      assert [Decimal(n)] + (Names(n - 1) + ["key"]) == Names(n) + ["key"];
    }
  }

  lemma LosingEvents(maxSize: nat, i: nat)
    requires maxSize >= 2 && 1 <= i <= maxSize
    ensures |Losing(maxSize)| == maxSize + 1 && Losing(maxSize)[0] == Event(Set("key", 0, 9), 0)
    ensures var e := Losing(maxSize)[i];
      e.op.Set? && e.op.key != "key" && e.op.key in Names(maxSize - 1) && e.at == 0
      && (i < maxSize ==> e.op.key == Decimal(i))
  {
    var n := maxSize - 1;
    FillingEvents(n);
    NamesAreNew(n, n + 1);
    NamesAt(n, if i < maxSize then i else n);
    hide Names, Decimal;
  }

  lemma LosingTouches(maxSize: nat)
    requires maxSize >= 2
    ensures OthersTouched(Losing(maxSize), 1, "key", maxSize) == Elements(Names(maxSize - 1))
  {
    var h, n := Losing(maxSize), maxSize - 1;
    hide Run, Losing, Names, Decimal;
    LosingEvents(maxSize, 1);
    forall i | 1 <= i < |h| ensures TouchedBy(Run(h[..i], maxSize), h[i], "key") <= Elements(Names(n)) {
      LosingEvents(maxSize, i);
    }
    forall k | k in Names(n) ensures k in OthersTouched(h, 1, "key", maxSize) {
      var j :| 0 <= j < |Names(n)| && Names(n)[j] == k;
      NamesAreNew(n, n + 1);
      NamesAt(n, n - j);
      LosingEvents(maxSize, n - j);
      assert k in TouchedBy(Run(h[..n - j], maxSize), h[n - j], "key");
    }
  }

  lemma LosingLoses(maxSize: nat)
    requires maxSize >= 2
    ensures AnswerL(Run(Losing(maxSize), maxSize), "key", 0) == Miss
  {
    var h, n := Losing(maxSize), maxSize - 1;
    NamesAreNew(n, n + 1);
    FillingOrder(n, maxSize);
    assert h[..|h| - 1] == Filling(n) && h[|h| - 1] == Event(Set(Decimal(n), 0, 9), 0);
    var l := Run(Filling(n), maxSize);
    hide Filling, Names, Decimal, Without;
    assert Take(l.order, n) == Names(n);
    assert "key" !in TrimL(l, maxSize).entries;
    assert Run(h, maxSize) == Apply(l, h[|h| - 1], maxSize);
    assert Decimal(n) != "key" by {
      LosingEvents(maxSize, maxSize);
      LosingEvents(maxSize, n);
    }
  }

  /** At every size from two on, maxSize - 1 other keys are enough to lose the value: storing a present key at full
      capacity evicts one key more than needed. */
  lemma RetentionBoundIsTight(maxSize: nat)
    requires maxSize >= 2
    ensures var h := Losing(maxSize);
      && IsLatestSet(h, 0, "key") && Touches(h, 0, "key", maxSize) && NotLater(h, 0)
      && |OthersTouched(h, 1, "key", maxSize)| + 1 == maxSize
      && AnswerL(Run(h, maxSize), "key", 0) == Miss
  {
    hide Losing, Names, Run, Decimal, OthersTouched;
    var h, n := Losing(maxSize), maxSize - 1;
    LosingEvents(maxSize, 1);
    forall i | 1 <= i < |h| ensures h[i].op.Set? && h[i].op.key != "key" && h[i].at == 0 {
      LosingEvents(maxSize, i);
    }
    LosingTouches(maxSize);
    NamesAreNew(n, n + 1);
    NoDuplicatesSize(Names(n));
    LosingLoses(maxSize);
  }
}
