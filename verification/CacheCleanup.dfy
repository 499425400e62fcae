/**
 * Two caches of different size under all that jobs and the service itself do to them: fetches, sets, deletes, clears,
 * and cleanups by the timer, which may drop a key from the smaller cache that the larger one keeps, and the other way.
 */
module CacheCleanup {
  import opened Collections
  import opened Options
  import opened KeyLists
  import opened CacheTables
  import opened RecencyList
  import opened CacheInclusion

  // ---------- What stands ahead of a key ----------

  ghost function Ahead(order: seq<Key>, key: Key): set<Key> {
    if order == [] || order[0] == key then {} else {order[0]} + Ahead(order[1..], key)
  }

  lemma {:induction false} AheadWithout(order: seq<Key>, gone: set<Key>, key: Key)
    requires key !in gone
    ensures Ahead(Without(order, gone), key) == Ahead(order, key) - gone
  {
    if order != [] {
      AheadWithout(order[1..], gone, key);
      if order[0] !in gone {
        assert Without(order, gone)[1..] == Without(order[1..], gone);
      } else {
        assert Without(order, gone) == Without(order[1..], gone);
      }
    }
  }

  lemma AheadFront(order: seq<Key>, key: Key, other: Key)
    requires other != key
    ensures Ahead(ToFront(order, key), other) == {key} + Ahead(order, other)
  {
    AheadWithout(order, {key}, other);
    assert ToFront(order, key)[1..] == Without(order, {key});
  }

  lemma {:induction false} AheadPrefix(order: seq<Key>, n: nat, key: Key)
    requires n <= |order| && key in order[..n]
    ensures Ahead(order[..n], key) == Ahead(order, key)
  {
    if order[0] != key {
      assert order[..n][1..] == order[1..][..n - 1];
      AheadPrefix(order[1..], n - 1, key);
    }
  }

  lemma {:induction false} AheadIs(order: seq<Key>, i: nat)
    requires NoDuplicates(order) && i < |order|
    ensures Ahead(order, order[i]) == Elements(order[..i])
  {
    if i > 0 {
      AheadIs(order[1..], i - 1);
      assert order[0] != order[i];
      assert order[1..][i - 1] == order[i];
      ElementsFirst(order, i);
    }
  }

  lemma ElementsFirst(order: seq<Key>, i: nat)
    requires 0 < i <= |order|
    ensures Elements(order[..i]) == {order[0]} + Elements(order[1..][..i - 1])
  {
    assert order[..i] == [order[0]] + order[1..][..i - 1];
  }

  lemma AheadAt(order: seq<Key>, key: Key) returns (i: nat)
    requires NoDuplicates(order) && key in order
    ensures i < |order| && order[i] == key
    ensures Ahead(order, key) == Elements(order[..i]) && |Ahead(order, key)| == i
  {
    i :| 0 <= i < |order| && order[i] == key;
    AheadIs(order, i);
    NoDuplicatesSize(order[..i]);
  }

  lemma Overlap(a: set<Key>, b: set<Key>)
    ensures |b| == |b - a| + |b * a| && |b * a| <= |a|
    ensures |b * a| == |a| ==> a <= b
  {
    assert b == (b - a) + b * a;
    assert a == b * a + (a - b);
    if |b * a| == |a| {
      assert |a - b| == 0;
    }
  }

  // ---------- Lists in step ----------

  /** Of the keys that stand ahead of a common key in the large list, at most `slack` do not in the small one. */
  ghost predicate Aligned(small: seq<Key>, large: seq<Key>, slack: nat) {
    forall k :: k in small && k in large ==> |Ahead(large, k) - Ahead(small, k)| <= slack
  }

  lemma FrontAligned(small: seq<Key>, large: seq<Key>, i: nat, j: nat, key: Key, slack: nat)
    requires Aligned(small, large, slack) && i <= |small| && j <= |large|
    ensures Aligned(ToFront(small[..i], key), ToFront(large[..j], key), slack)
  {
    var s, l := ToFront(small[..i], key), ToFront(large[..j], key);
    forall k | k in s && k in l ensures |Ahead(l, k) - Ahead(s, k)| <= slack {
      if k != key {
        WithoutElements(small[..i], {key});
        WithoutElements(large[..j], {key});
        AheadFront(small[..i], key, k);
        AheadFront(large[..j], key, k);
        AheadPrefix(small, i, k);
        AheadPrefix(large, j, k);
        SubsetSize(Ahead(l, k) - Ahead(s, k), Ahead(large, k) - Ahead(small, k));
      }
    }
  }

  lemma WithoutAligned(small: seq<Key>, large: seq<Key>, gone: set<Key>, slack: nat)
    requires Aligned(small, large, slack)
    ensures Aligned(Without(small, gone), Without(large, gone), slack)
  {
    var s, l := Without(small, gone), Without(large, gone);
    WithoutElements(small, gone);
    WithoutElements(large, gone);
    forall k | k in s && k in l ensures |Ahead(l, k) - Ahead(s, k)| <= slack {
      AheadWithout(small, gone, k);
      AheadWithout(large, gone, k);
      SubsetSize(Ahead(l, k) - Ahead(s, k), Ahead(large, k) - Ahead(small, k));
    }
  }

  /** A full large cache evicts a key that the small one holds only if that is full, too, of keys the large one holds,
      and evicts the same key. */
  lemma FullTogether(small: seq<Key>, large: seq<Key>, m: nat, n: nat)
    requires 1 <= m <= n && NoDuplicates(small) && NoDuplicates(large) && |small| <= m && |large| == n
    requires Aligned(small, large, n - m) && large[n - 1] in small
    ensures |small| == m && small[m - 1] == large[n - 1] && forall k :: k in small ==> k in large
  {
    var last := large[n - 1];
    var i := AheadAt(small, last);
    var j := AheadAt(large, last);
    assert j == n - 1;
    Overlap(Ahead(small, last), Ahead(large, last));
    hide Ahead, Aligned, NoDuplicates;
    assert i == m - 1 && Ahead(small, last) <= Ahead(large, last);
    Members(small, large, i, j);
  }

  lemma Members(small: seq<Key>, large: seq<Key>, i: nat, j: nat)
    requires i == |small| - 1 && j < |large| && small[i] == large[j] && Elements(small[..i]) <= Elements(large[..j])
    ensures forall k :: k in small ==> k in large
  {
    forall h | 0 <= h < |small| ensures small[h] in large {
      if h < i {
        assert small[..i][h] == small[h];
        assert small[h] in Elements(small[..i]);
        assert small[h] in large[..j];
      }
    }
  }

  /** A get that finds nothing is not followed by a set: jobs make none. */
  predicate BareGet<V>(r: Request<V>) {
    r.Plain? && r.op.Get?
  }

  ghost predicate Fits(small: seq<Key>, large: seq<Key>, m: nat, n: nat) {
    NoDuplicates(small) && NoDuplicates(large) && |small| <= m && |large| <= n
  }

  /** What the small list keeps, the large one does not lose. */
  ghost predicate LosesNothing(large: seq<Key>, nextSmall: seq<Key>, nextLarge: seq<Key>) {
    forall k :: k in nextSmall && k in large ==> k in nextLarge
  }

  lemma SetAligned(small: seq<Key>, large: seq<Key>, key: Key, m: nat, n: nat)
    requires 1 <= m <= n && Fits(small, large, m, n) && Aligned(small, large, n - m)
    ensures Aligned(SetKey(small, key, m), SetKey(large, key, n), n - m)
    ensures LosesNothing(large, SetKey(small, key, m), SetKey(large, key, n))
  {
    var s, l := Take(small, m - 1), Take(large, n - 1);
    assert small[..|s|] == s && large[..|l|] == l;
    FrontAligned(small, large, |s|, |l|, key, n - m);
    TrimLoses(small, large, m, n);
    hide Aligned, NoDuplicates, Take;
    WithoutElements(s, {key});
    WithoutElements(l, {key});
  }

  lemma TrimLoses(small: seq<Key>, large: seq<Key>, m: nat, n: nat)
    requires 1 <= m <= n && Fits(small, large, m, n) && Aligned(small, large, n - m)
    ensures LosesNothing(large, Take(small, m - 1), Take(large, n - 1))
  {
    hide Aligned;
    if |large| == n {
      var last := large[n - 1];
      assert large == large[..n - 1] + [last];
      if last in small {
        FullTogether(small, large, m, n);
        assert last !in small[..m - 1];
      }
    }
  }

  /** The small cache holds the key. */
  lemma HeldAligned(small: seq<Key>, large: seq<Key>, key: Key, m: nat, n: nat)
    requires 1 <= m <= n && Fits(small, large, m, n) && Aligned(small, large, n - m) && key in small && key !in large
    ensures Aligned(ToFront(small, key), SetKey(large, key, n), n - m)
    ensures LosesNothing(large, ToFront(small, key), SetKey(large, key, n))
  {
    var l := Take(large, n - 1);
    assert small[..|small|] == small && large[..|l|] == l;
    FrontAligned(small, large, |small|, |l|, key, n - m);
    if |large| == n && large[n - 1] in small {
      FullTogether(small, large, m, n);
    }
    hide Aligned, NoDuplicates;
    assert |large| == n ==> large == l + [large[n - 1]];
    WithoutElements(small, {key});
    WithoutElements(l, {key});
  }

  /** The large cache holds the key. */
  lemma FoundAligned(small: seq<Key>, large: seq<Key>, key: Key, i: nat, slack: nat)
    requires Aligned(small, large, slack) && key in large && i <= |small|
    ensures Aligned(ToFront(small[..i], key), ToFront(large, key), slack)
    ensures LosesNothing(large, ToFront(small[..i], key), ToFront(large, key))
  {
    assert large[..|large|] == large;
    FrontAligned(small, large, i, |large|, key, slack);
    WithoutElements(large, {key});
  }

  lemma FetchAligned(small: seq<Key>, large: seq<Key>, key: Key, m: nat, n: nat)
    requires 1 <= m <= n && Fits(small, large, m, n) && Aligned(small, large, n - m)
    ensures Aligned(FetchKey(small, key, m), FetchKey(large, key, n), n - m)
    ensures LosesNothing(large, FetchKey(small, key, m), FetchKey(large, key, n))
  {
    hide Aligned, LosesNothing, Fits;
    if key in large {
      FoundAligned(small, large, key, |small|, n - m);
      FoundAligned(small, large, key, |Take(small, m - 1)|, n - m);
      assert small[..|small|] == small && small[..|Take(small, m - 1)|] == Take(small, m - 1);
    } else if key in small {
      HeldAligned(small, large, key, m, n);
    } else {
      SetAligned(small, large, key, m, n);
    }
  }

  /** Whatever does not expire: every request but a bare get keeps the lists in step, and the large cache evicts no
      key that the small one keeps. */
  lemma KeysAligned<V>(small: seq<Key>, large: seq<Key>, r: Request<V>, m: nat, n: nat)
    requires 1 <= m <= n && Fits(small, large, m, n) && Aligned(small, large, n - m) && !BareGet(r)
    ensures Aligned(ServeKeys(small, r, m), ServeKeys(large, r, n), n - m)
    ensures LosesNothing(large, ServeKeys(small, r, m), ServeKeys(large, r, n))
  {
    hide Aligned, Fits, SetKey, ToFront;
    match r
    case Fetch(k, _, _, _) => FetchAligned(small, large, k, m, n);
    case Plain(Set(k, _, _), _) => SetAligned(small, large, k, m, n);
    case Plain(Delete(k), _) =>
      WithoutAligned(small, large, {k}, n - m);
      WithoutElements(small, {k});
      WithoutElements(large, {k});
    case Plain(Clear, _) => NothingAligned(n - m);
    case Plain(_, _) =>
  }

  lemma NothingAligned(slack: nat)
    ensures Aligned([], [], slack)
  {
  }

  // ---------- No weaker condition will do ----------

  /** Through fetches of `keys` the large cache evicts nothing that the small one keeps. */
  ghost predicate FetchesLoseNothing(small: seq<Key>, large: seq<Key>, keys: seq<Key>, m: nat, n: nat)
    requires 1 <= m <= n
    decreases |keys|
  {
    keys == [] ||
    (var s, l := FetchKey(small, keys[0], m), FetchKey(large, keys[0], n);
     LosesNothing(large, s, l) && FetchesLoseNothing(s, l, keys[1..], m, n))
  }

  lemma FrontFits(order: seq<Key>, key: Key, size: nat)
    requires size >= 1 && NoDuplicates(order) && |order| <= size
    ensures NoDuplicates(FetchKey(order, key, size)) && |FetchKey(order, key, size)| <= size
  {
    FrontSize(order, key);
    FrontSize(Take(order, size - 1), key);
  }

  lemma {:induction false} AlignedLosesNothing(small: seq<Key>, large: seq<Key>, keys: seq<Key>, m: nat, n: nat)
    requires 1 <= m <= n && Fits(small, large, m, n) && Aligned(small, large, n - m)
    ensures FetchesLoseNothing(small, large, keys, m, n)
    decreases |keys|
  {
    hide Aligned, LosesNothing, FetchKey, NoDuplicates;
    if keys != [] {
      FetchAligned(small, large, keys[0], m, n);
      FrontFits(small, keys[0], m);
      FrontFits(large, keys[0], n);
      AlignedLosesNothing(FetchKey(small, keys[0], m), FetchKey(large, keys[0], n), keys[1..], m, n);
    }
  }

  function LongerThan(keys: seq<Key>): (n: nat)
    ensures forall k :: k in keys ==> |k| < n
  {
    if keys == [] then 0
    else
      var n := LongerThan(keys[1..]);
      if |keys[0]| < n then n else |keys[0]| + 1
  }

  lemma NewKey(keys: seq<Key>) returns (key: Key)
    ensures key !in keys
  {
    key := seq(LongerThan(keys), i => 'k');
  }

  /** What a fetch of another key does to a key the small list keeps: those ahead of it in the large list, and not in
      the small one, stay. */
  lemma FetchAhead(order: seq<Key>, key: Key, other: Key, size: nat)
    requires size >= 1 && key != other && other in order && other in FetchKey(order, key, size)
    ensures Ahead(FetchKey(order, key, size), other) == {key} + Ahead(order, other)
  {
    if key in order {
      AheadFront(order, key, other);
    } else {
      var cut := Take(order, size - 1);
      WithoutElements(cut, {key});
      AheadFront(cut, key, other);
      assert order[..|cut|] == cut;
      AheadPrefix(order, |cut|, other);
    }
  }

  lemma {:induction false} AheadHolds(order: seq<Key>, key: Key)
    ensures forall k :: k in Ahead(order, key) ==> k in order && k != key
  {
    if order != [] {
      AheadHolds(order[1..], key);
    }
  }

  /** A new key pushes `key` out of the small list only if the large list is full as well. */
  lemma NewKeySpares(small: seq<Key>, large: seq<Key>, key: Key, m: nat, n: nat)
    requires 1 <= m <= n && Fits(small, large, m, n) && key in small && key in large
    requires |Ahead(large, key) - Ahead(small, key)| > n - m && Ahead(small, key) <= Ahead(large, key)
    ensures key in Take(small, m - 1) && |Ahead(large, key)| < n
  {
    var i := AheadAt(small, key);
    var j := AheadAt(large, key);
    hide Ahead, NoDuplicates, Elements;
    Overlap(Ahead(small, key), Ahead(large, key));
    assert Ahead(large, key) * Ahead(small, key) == Ahead(small, key);
    assert |small| >= m ==> small[..m - 1][i] == key;
  }

  /** The key to fetch next on the way to crowding `key` out of the large list alone. */
  lemma NextToCrowd(small: seq<Key>, large: seq<Key>, key: Key, m: nat, n: nat) returns (next: Key)
    requires 1 <= m <= n && Fits(small, large, m, n) && key in small && key in large
    requires |Ahead(large, key) - Ahead(small, key)| > n - m
    ensures next != key && next !in Ahead(large, key) && key in FetchKey(small, next, m)
    ensures next in Ahead(small, key) || (Ahead(small, key) <= Ahead(large, key) && next !in large && |Ahead(large, key)| < n)
  {
    AheadHolds(small, key);
    AheadHolds(large, key);
    if Ahead(small, key) <= Ahead(large, key) {
      next := NewKey(small + large);
      assert next !in small && next !in large by { assert forall k :: k in small || k in large ==> k in small + large; }
      NewKeySpares(small, large, key, m, n);
      WithoutElements(Take(small, m - 1), {next});
    } else {
      next :| next in Ahead(small, key) && next !in Ahead(large, key);
      WithoutElements(small, {next});
    }
  }

  /** A key with too much ahead of it: fetch what stands ahead of it in the small list alone, then new keys. */
  lemma {:induction false} CrowdedOut(small: seq<Key>, large: seq<Key>, key: Key, m: nat, n: nat) returns (keys: seq<Key>)
    requires 1 <= m <= n && Fits(small, large, m, n) && key in small && key in large
    requires |Ahead(large, key) - Ahead(small, key)| > n - m
    ensures !FetchesLoseNothing(small, large, keys, m, n)
    decreases |Ahead(small, key) - Ahead(large, key)|, n - |Ahead(large, key)|
  {
    hide FetchKey, Ahead, NoDuplicates;
    var next := NextToCrowd(small, large, key, m, n);
    var s, l := FetchKey(small, next, m), FetchKey(large, next, n);
    keys := [next];
    if key in l {
      FetchAhead(small, next, key, m);
      FetchAhead(large, next, key, n);
      FrontFits(small, next, m);
      FrontFits(large, next, n);
      var behind, ahead := Ahead(small, key) - Ahead(large, key), Ahead(large, key);
      assert Ahead(l, key) - Ahead(s, key) == ahead - Ahead(small, key);
      assert Ahead(s, key) - Ahead(l, key) == behind - {next};
      var more := CrowdedOut(s, l, key, m, n);
      keys := keys + more;
      assert keys[1..] == more;
    } else {
      assert !LosesNothing(large, s, l);
    }
  }

  /** From any two lists: through every continuation of fetches the large cache evicts nothing that the small one
      keeps, if and only if the lists are in step. */
  lemma AlignedExactlyWhen(small: seq<Key>, large: seq<Key>, m: nat, n: nat)
    requires 1 <= m <= n && Fits(small, large, m, n)
    ensures Aligned(small, large, n - m) <==> forall keys :: FetchesLoseNothing(small, large, keys, m, n)
  {
    if Aligned(small, large, n - m) {
      forall keys ensures FetchesLoseNothing(small, large, keys, m, n) {
        AlignedLosesNothing(small, large, keys, m, n);
      }
    } else {
      var k :| k in small && k in large && |Ahead(large, k) - Ahead(small, k)| > n - m;
      var keys := CrowdedOut(small, large, k, m, n);
      assert !FetchesLoseNothing(small, large, keys, m, n);
    }
  }

  // ---------- One request on two caches ----------

  /** After what the request drops, at most `slack` of the keys that the large list keeps ahead of a common key are not
      kept ahead of it in the small one. */
  ghost predicate KeepsStep<V>(small: Lru<V>, large: Lru<V>, r: Request<V>, slack: nat) {
    forall k :: k in small.order && k in large.order && k !in Dropped(small, r) && k !in Dropped(large, r) ==>
      |(Ahead(large.order, k) - Dropped(large, r)) - (Ahead(small.order, k) - Dropped(small, r))| <= slack
  }

  /** It drops from the small cache nothing that the large one keeps. */
  ghost predicate Spares<V>(small: Lru<V>, large: Lru<V>, r: Request<V>) {
    forall k :: k in Dropped(small, r) && k in large.entries ==> k in Dropped(large, r)
  }

  lemma SparingKeepsStep<V>(small: Lru<V>, large: Lru<V>, r: Request<V>, slack: nat)
    requires WellFormed(small) && WellFormed(large) && Aligned(small.order, large.order, slack) && Spares(small, large, r)
    ensures KeepsStep(small, large, r, slack)
  {
    var gone, goneLarge := Dropped(small, r), Dropped(large, r);
    forall k | k in small.order && k in large.order && k !in gone && k !in goneLarge
      ensures |(Ahead(large.order, k) - goneLarge) - (Ahead(small.order, k) - gone)| <= slack
    {
      AheadHolds(large.order, k);
      hide Ahead, Dropped;
      SubsetSize((Ahead(large.order, k) - goneLarge) - (Ahead(small.order, k) - gone), Ahead(large.order, k) - Ahead(small.order, k));
    }
  }

  lemma DropsKeepStep<V>(small: Lru<V>, large: Lru<V>, r: Request<V>, slack: nat)
    ensures Aligned(Without(small.order, Dropped(small, r)), Without(large.order, Dropped(large, r)), slack)
      <==> KeepsStep(small, large, r, slack)
  {
    var gone, goneLarge := Dropped(small, r), Dropped(large, r);
    hide Dropped, Ahead;
    var s, l := Without(small.order, gone), Without(large.order, goneLarge);
    WithoutElements(small.order, gone);
    WithoutElements(large.order, goneLarge);
    hide Without;
    forall k | k !in gone && k !in goneLarge
      ensures Ahead(s, k) == Ahead(small.order, k) - gone && Ahead(l, k) == Ahead(large.order, k) - goneLarge
    {
      AheadWithout(small.order, gone, k);
      AheadWithout(large.order, goneLarge, k);
    }
  }

  lemma DropsNothing<V>(l: Lru<V>, r: Request<V>)
    requires r.Fetch? || r.op.Set? || r.op.Delete? || r.op.Clear?
    ensures Dropped(l, r) == {} && Without(l.order, {}) == l.order
  {
    WithoutAbsent(l.order, {});
  }

  /** One request keeps two lists in step if and only if what it drops leaves them so. */
  lemma StepKeptExactlyWhen<V>(small: Lru<V>, large: Lru<V>, r: Request<V>, m: nat, n: nat)
    requires 1 <= m <= n && WellFormed(small) && WellFormed(large) && |small.order| <= m && |large.order| <= n
    requires Aligned(small.order, large.order, n - m) && !BareGet(r)
    ensures Aligned(Serve(small, r, m).order, Serve(large, r, n).order, n - m) <==> KeepsStep(small, large, r, n - m)
  {
    hide Serve, Aligned, KeepsStep, NoDuplicates, Dropped, Without, ToFront, SetKey, FetchKey;
    ServeDropsFirst(small, r, m);
    ServeDropsFirst(large, r, n);
    DropsKeepStep(small, large, r, n - m);
    if r.Fetch? || r.op.Set? || r.op.Delete? || r.op.Clear? {
      DropsNothing(small, r);
      DropsNothing(large, r);
      KeysAligned(small.order, large.order, r, m, n);
    }
  }

  /** The large cache loses no key that the small one keeps, unless it is expired. */
  lemma NothingLost<V>(small: Lru<V>, large: Lru<V>, r: Request<V>, m: nat, n: nat, key: Key)
    requires 1 <= m <= n && WellFormed(small) && WellFormed(large) && |small.order| <= m && |large.order| <= n
    requires Aligned(small.order, large.order, n - m) && !BareGet(r)
    requires key in Serve(small, r, m).order && key in large.order && key !in Dropped(large, r)
    ensures key in Serve(large, r, n).order
  {
    hide Serve, Aligned, NoDuplicates, Dropped, Without, ToFront, SetKey, FetchKey;
    ServeDropsFirst(small, r, m);
    ServeDropsFirst(large, r, n);
    if r.Fetch? || r.op.Set? || r.op.Delete? || r.op.Clear? {
      DropsNothing(small, r);
      DropsNothing(large, r);
      KeysAligned(small.order, large.order, r, m, n);
    } else {
      WithoutElements(large.order, Dropped(large, r));
    }
  }

  // ---------- What entries keep ----------

  predicate Stores<V>(r: Request<V>, key: Key) {
    match r
    case Fetch(k, _, _, _) => k == key
    case Plain(Set(k, _, _), _) => k == key
    case _ => false
  }

  function Ttl<V>(r: Request<V>): int {
    match r
    case Fetch(_, _, ttl, _) => ttl
    case Plain(Set(_, _, ttl), _) => ttl
    case _ => 0
  }

  lemma OthersKept<V>(l: Lru<V>, r: Request<V>, maxSize: nat, key: Key)
    requires maxSize >= 1 && WellFormed(l) && !BareGet(r) && !Stores(r, key) && key in Serve(l, r, maxSize).entries
    ensures key in l.entries && key !in Dropped(l, r) && Serve(l, r, maxSize).entries[key] == l.entries[key]
  {
    hide Without, Take;
  }

  lemma StoredNow<V>(l: Lru<V>, r: Request<V>, maxSize: nat, key: Key)
    requires maxSize >= 1 && WellFormed(l) && Stores(r, key)
    ensures var t := Serve(l, r, maxSize).entries;
      && key in t
      && (if IsHit(l, r) then
            key in l.entries && !Expired(l.entries[key], r.at)
            && t[key].createdAt == l.entries[key].createdAt && t[key].expiry == l.entries[key].expiry
          else t[key].createdAt == r.at && t[key].expiry == r.at + Ttl(r))
  {
    hide Without, Take;
  }

  // ---------- Keys with one time-to-live each ----------

  /** Requests in clock order that store a key always for the same time, and no bare get. */
  ghost predicate JobTrace<V>(trace: seq<Request<V>>, ttlOf: Key -> int) {
    && (forall i, k :: 0 <= i < |trace| && Stores(trace[i], k) ==> Ttl(trace[i]) == ttlOf(k))
    && (forall i :: 0 <= i < |trace| ==> !BareGet(trace[i]))
    && (forall i, j :: 0 <= i < j < |trace| ==> trace[i].at <= trace[j].at)
  }

  ghost predicate StoredBy<V>(l: Lru<V>, ttlOf: Key -> int, now: int) {
    forall k :: k in l.entries ==> l.entries[k].expiry == l.entries[k].createdAt + ttlOf(k) && l.entries[k].createdAt <= now
  }

  lemma ServeStoredBy<V>(l: Lru<V>, r: Request<V>, maxSize: nat, ttlOf: Key -> int, now: int)
    requires maxSize >= 1 && WellFormed(l) && !BareGet(r) && StoredBy(l, ttlOf, now) && now <= r.at
    requires forall k :: Stores(r, k) ==> Ttl(r) == ttlOf(k)
    ensures StoredBy(Serve(l, r, maxSize), ttlOf, r.at)
  {
    hide Serve, IsHit;
    forall k | k in Serve(l, r, maxSize).entries
      ensures var e := Serve(l, r, maxSize).entries[k]; e.expiry == e.createdAt + ttlOf(k) && e.createdAt <= r.at
    {
      if Stores(r, k) {
        StoredNow(l, r, maxSize, k);
      } else {
        OthersKept(l, r, maxSize, k);
      }
    }
  }

  lemma EarlierJobs<V>(trace: seq<Request<V>>, ttlOf: Key -> int, k: nat)
    requires JobTrace(trace, ttlOf) && k <= |trace|
    ensures JobTrace(trace[..k], ttlOf)
  {
  }

  lemma {:induction false} JobTraceStored<V>(trace: seq<Request<V>>, maxSize: nat, ttlOf: Key -> int, now: int)
    requires maxSize >= 1 && JobTrace(trace, ttlOf) && (trace != [] ==> trace[|trace| - 1].at <= now)
    ensures StoredBy(ServeAll(trace, maxSize), ttlOf, now)
    decreases |trace|
  {
    if trace != [] {
      var k := |trace| - 1;
      EarlierJobs(trace, ttlOf, k);
      JobTraceStored(trace[..k], maxSize, ttlOf, trace[k].at);
      ServeAllShape(trace[..k], maxSize);
      hide Serve, WellFormed;
      ServeStoredBy(ServeAll(trace[..k], maxSize), trace[k], maxSize, ttlOf, trace[k].at);
    }
  }

  // ---------- Every lost hit is paid for ----------

  /** The keys that the smaller cache stored later than the larger one, which then had a hit, or holds alone. */
  ghost function Surplus<V>(small: Lru<V>, large: Lru<V>): set<Key> {
    set k | k in small.entries && (k in large.entries ==> small.entries[k].createdAt > large.entries[k].createdAt)
  }

  ghost predicate Pair<V>(small: Lru<V>, large: Lru<V>, m: nat, n: nat) {
    1 <= m <= n && WellFormed(small) && WellFormed(large) && |small.order| <= m && |large.order| <= n
    && Aligned(small.order, large.order, n - m)
  }

  /** No key but the one stored becomes a surplus one. */
  lemma SurplusBefore<V>(small: Lru<V>, large: Lru<V>, r: Request<V>, m: nat, n: nat, ttlOf: Key -> int, key: Key)
    requires Pair(small, large, m, n) && !BareGet(r) && StoredBy(small, ttlOf, r.at) && StoredBy(large, ttlOf, r.at)
    requires key in Surplus(Serve(small, r, m), Serve(large, r, n)) && !Stores(r, key)
    ensures key in Surplus(small, large)
  {
    hide Serve, Aligned;
    OthersKept(small, r, m, key);
    ServeWellFormed(small, r, m);
    ServeWellFormed(large, r, n);
    if key in large.entries {
      if key in Dropped(large, r) {
        DroppedIsExpired(small, large, r, key);
      } else {
        NothingLost(small, large, r, m, n, key);
        OthersKept(large, r, n, key);
      }
    }
  }

  lemma DroppedIsExpired<V>(small: Lru<V>, large: Lru<V>, r: Request<V>, key: Key)
    requires key in Dropped(large, r) && key in small.entries && key !in Dropped(small, r)
    ensures key in large.entries && large.entries[key].expiry < r.at <= small.entries[key].expiry
  {
  }

  /** The key that is stored. */
  lemma SurplusStored<V>(small: Lru<V>, large: Lru<V>, r: Request<V>, m: nat, n: nat, ttlOf: Key -> int, key: Key)
    requires Pair(small, large, m, n) && StoredBy(small, ttlOf, r.at) && StoredBy(large, ttlOf, r.at) && Stores(r, key)
    ensures var was, now := Surplus(small, large), Surplus(Serve(small, r, m), Serve(large, r, n));
      && (key in now ==> key in was || (IsHit(large, r) && !IsHit(small, r)))
      && (IsHit(small, r) && !IsHit(large, r) ==> key in was && key !in now)
  {
    hide Serve, Aligned, WellFormed;
    StoredNow(small, r, m, key);
    StoredNow(large, r, n, key);
    HitIsFresh(large, r, key);
  }

  lemma HitIsFresh<V>(l: Lru<V>, r: Request<V>, key: Key)
    requires Stores(r, key)
    ensures IsHit(l, r) <==> r.Fetch? && key in l.entries && r.at <= l.entries[key].expiry
  {
  }

  /** A hit only the smaller cache has uses up a surplus key; only a hit of the larger one makes one. */
  lemma SurplusPays<V>(small: Lru<V>, large: Lru<V>, r: Request<V>, m: nat, n: nat, ttlOf: Key -> int)
    requires 1 <= m <= n && Pair(small, large, m, n) && !BareGet(r)
    requires StoredBy(small, ttlOf, r.at) && StoredBy(large, ttlOf, r.at)
    ensures |Surplus(Serve(small, r, m), Serve(large, r, n))| + (if IsHit(small, r) then 1 else 0)
      <= |Surplus(small, large)| + (if IsHit(large, r) then 1 else 0)
  {
    hide Serve, IsHit, Surplus, Pair, StoredBy;
    var was, now := Surplus(small, large), Surplus(Serve(small, r, m), Serve(large, r, n));
    forall k | k in now && !Stores(r, k) ensures k in was {
      SurplusBefore(small, large, r, m, n, ttlOf, k);
    }
    if r.Fetch? || r.op.Set? {
      var key := if r.Fetch? then r.key else r.op.key;
      assert forall k :: Stores(r, k) <==> k == key;
      SurplusStored(small, large, r, m, n, ttlOf, key);
      if IsHit(small, r) && !IsHit(large, r) {
        SubsetSize(now, was - {key});
      } else if IsHit(large, r) && !IsHit(small, r) {
        SubsetSize(now, was + {key});
      } else {
        SubsetSize(now, was);
      }
    } else {
      assert forall k :: !Stores(r, k);
      SubsetSize(now, was);
      NoHitElsewhere(small, r);
      NoHitElsewhere(large, r);
    }
  }

  lemma NoHitElsewhere<V>(l: Lru<V>, r: Request<V>)
    requires !BareGet(r) && !r.Fetch?
    ensures !IsHit(l, r)
  {
  }

  // ---------- Whole traces ----------

  ghost predicate AlignedAt<V>(trace: seq<Request<V>>, i: nat, m: nat, n: nat)
    requires 1 <= m <= n && i <= |trace|
  {
    Aligned(ServeAll(trace[..i], m).order, ServeAll(trace[..i], n).order, n - m)
  }

  ghost predicate KeepsStepAt<V>(trace: seq<Request<V>>, i: nat, m: nat, n: nat)
    requires 1 <= m <= n && i < |trace|
  {
    KeepsStep(ServeAll(trace[..i], m), ServeAll(trace[..i], n), trace[i], n - m)
  }

  lemma StepAt<V>(trace: seq<Request<V>>, i: nat, m: nat, n: nat)
    requires 1 <= m <= n && i < |trace| && !BareGet(trace[i]) && AlignedAt(trace, i, m, n)
    ensures AlignedAt(trace, i + 1, m, n) <==> KeepsStepAt(trace, i, m, n)
  {
    hide Serve, WellFormed, KeepsStep, Aligned;
    assert trace[..i + 1][..i] == trace[..i];
    ServeAllShape(trace[..i], m);
    ServeAllShape(trace[..i], n);
    StepKeptExactlyWhen(ServeAll(trace[..i], m), ServeAll(trace[..i], n), trace[i], m, n);
  }

  lemma {:induction false} KeptStepIsAligned<V>(trace: seq<Request<V>>, i: nat, m: nat, n: nat)
    requires 1 <= m <= n && i <= |trace|
    requires forall k :: 0 <= k < i ==> !BareGet(trace[k]) && KeepsStepAt(trace, k, m, n)
    ensures AlignedAt(trace, i, m, n)
  {
    if i == 0 {
      NothingAligned(n - m);
    } else {
      hide AlignedAt, KeepsStepAt;
      KeptStepIsAligned(trace, i - 1, m, n);
      StepAt(trace, i - 1, m, n);
    }
  }

  /** Over any trace without a bare get: the lists are in step all along if and only if every cleanup, and every has,
      keeps them so. */
  lemma AlignedAllAlongExactlyWhen<V>(trace: seq<Request<V>>, m: nat, n: nat)
    requires 1 <= m <= n && forall i :: 0 <= i < |trace| ==> !BareGet(trace[i])
    ensures (forall i :: 0 <= i <= |trace| ==> AlignedAt(trace, i, m, n)) <==>
      (forall i :: 0 <= i < |trace| ==> KeepsStepAt(trace, i, m, n))
  {
    hide AlignedAt, KeepsStepAt;
    if forall i :: 0 <= i <= |trace| ==> AlignedAt(trace, i, m, n) {
      forall i | 0 <= i < |trace| ensures KeepsStepAt(trace, i, m, n) {
        assert AlignedAt(trace, i, m, n) && AlignedAt(trace, i + 1, m, n);
        StepAt(trace, i, m, n);
      }
    }
    if forall i :: 0 <= i < |trace| ==> KeepsStepAt(trace, i, m, n) {
      forall i | 0 <= i <= |trace| ensures AlignedAt(trace, i, m, n) {
        KeptStepIsAligned(trace, i, m, n);
      }
    }
  }

  /** A trace of jobs, sets, deletes, clears, has and cleanups whose drops keep the lists in step. */
  ghost predicate InStep<V>(trace: seq<Request<V>>, m: nat, n: nat)
    requires 1 <= m <= n
  {
    forall i :: 0 <= i < |trace| ==> KeepsStepAt(trace, i, m, n)
  }

  lemma EarlierInStep<V>(trace: seq<Request<V>>, i: nat, m: nat, n: nat)
    requires 1 <= m <= n && InStep(trace, m, n) && i <= |trace|
    ensures InStep(trace[..i], m, n)
  {
    forall j | 0 <= j < i ensures KeepsStepAt(trace[..i], j, m, n) {
      assert KeepsStepAt(trace, j, m, n);
      assert trace[..i][..j] == trace[..j];
    }
  }

  lemma InStepIsPair<V>(trace: seq<Request<V>>, m: nat, n: nat, ttlOf: Key -> int)
    requires 1 <= m <= n && JobTrace(trace, ttlOf) && InStep(trace, m, n)
    ensures Pair(ServeAll(trace, m), ServeAll(trace, n), m, n)
  {
    hide KeepsStepAt, WellFormed, Aligned;
    KeptStepIsAligned(trace, |trace|, m, n);
    assert trace[..|trace|] == trace;
    ServeAllShape(trace, m);
    ServeAllShape(trace, n);
  }

  /** Whatever expires, wherever the timer cleans up: as long as the lists stay in step, raising maxSize loses no hits
      on balance, since each hit it loses was paid for by one that it gained. */
  lemma {:induction false} JobHitsGrowWithSize<V>(trace: seq<Request<V>>, m: nat, n: nat, ttlOf: Key -> int)
    requires 1 <= m <= n && JobTrace(trace, ttlOf) && InStep(trace, m, n)
    ensures Hits(trace, m) + |Surplus(ServeAll(trace, m), ServeAll(trace, n))| <= Hits(trace, n)
  {
    if trace == [] {
      assert Surplus(ServeAll(trace, m), ServeAll(trace, n)) == {};
    } else {
      hide Serve, IsHit, StoredBy, Surplus, Pair, InStep;
      var k := |trace| - 1;
      EarlierInStep(trace, k, m, n);
      EarlierJobs(trace, ttlOf, k);
      InStepIsPair(trace[..k], m, n, ttlOf);
      JobTraceStored(trace[..k], m, ttlOf, trace[k].at);
      JobTraceStored(trace[..k], n, ttlOf, trace[k].at);
      JobHitsGrowWithSize(trace[..k], m, n, ttlOf);
      SurplusPays(ServeAll(trace[..k], m), ServeAll(trace[..k], n), trace[k], m, n, ttlOf);
    }
  }

  ghost predicate SparesAt<V>(trace: seq<Request<V>>, i: nat, m: nat, n: nat)
    requires 1 <= m <= n && i < |trace|
  {
    Spares(ServeAll(trace[..i], m), ServeAll(trace[..i], n), trace[i])
  }

  /** It is enough that no cleanup drops from the smaller cache what the larger one keeps. */
  lemma {:induction false} SparingIsInStep<V>(trace: seq<Request<V>>, i: nat, m: nat, n: nat)
    requires 1 <= m <= n && i <= |trace|
    requires forall k :: 0 <= k < i ==> !BareGet(trace[k]) && SparesAt(trace, k, m, n)
    ensures forall k :: 0 <= k < i ==> KeepsStepAt(trace, k, m, n)
  {
    hide KeepsStepAt, SparesAt, AlignedAt, BareGet;
    if i > 0 {
      SparingIsInStep(trace, i - 1, m, n);
      KeptStepIsAligned(trace, i - 1, m, n);
      SparingStep(trace, i - 1, m, n);
    }
  }

  lemma SparingStep<V>(trace: seq<Request<V>>, i: nat, m: nat, n: nat)
    requires 1 <= m <= n && i < |trace| && AlignedAt(trace, i, m, n) && SparesAt(trace, i, m, n)
    ensures KeepsStepAt(trace, i, m, n)
  {
    hide KeepsStep, Spares, WellFormed, Aligned, ServeAll;
    ServeAllShape(trace[..i], m);
    ServeAllShape(trace[..i], n);
    SparingKeepsStep(ServeAll(trace[..i], m), ServeAll(trace[..i], n), trace[i], n - m);
  }

  lemma SparingHitsGrow<V>(trace: seq<Request<V>>, m: nat, n: nat, ttlOf: Key -> int)
    requires 1 <= m <= n && JobTrace(trace, ttlOf) && forall i :: 0 <= i < |trace| ==> SparesAt(trace, i, m, n)
    ensures Hits(trace, m) <= Hits(trace, n)
  {
    hide SparesAt, KeepsStepAt;
    SparingIsInStep(trace, |trace|, m, n);
    JobHitsGrowWithSize(trace, m, n, ttlOf);
  }

  // ---------- Which hits are lost ----------

  /** When the cache last stored the key: at a set, or at a fetch that missed. */
  function LastStored<V>(trace: seq<Request<V>>, key: Key, maxSize: nat): Option<int>
    requires maxSize >= 1
  {
    if trace == [] then None
    else
      var n := |trace| - 1;
      if Stores(trace[n], key) && !IsHit(ServeAll(trace[..n], maxSize), trace[n]) then Some(trace[n].at)
      else LastStored(trace[..n], key, maxSize)
  }

  predicate StillFresh(stored: Option<int>, ttl: int, now: int) {
    stored.Some? && now <= stored.value + ttl
  }

  lemma {:induction false} HeldSinceLastStored<V>(trace: seq<Request<V>>, key: Key, maxSize: nat)
    requires maxSize >= 1 && key in ServeAll(trace, maxSize).entries && forall i :: 0 <= i < |trace| ==> !BareGet(trace[i])
    ensures LastStored(trace, key, maxSize) == Some(ServeAll(trace, maxSize).entries[key].createdAt)
    decreases |trace|
  {
    hide Serve, IsHit, WellFormed, Stores;
    var n := |trace| - 1;
    var l := ServeAll(trace[..n], maxSize);
    ServeAllShape(trace[..n], maxSize);
    if Stores(trace[n], key) {
      StoredNow(l, trace[n], maxSize, key);
      if IsHit(l, trace[n]) {
        HeldSinceLastStored(trace[..n], key, maxSize);
      }
    } else {
      OthersKept(l, trace[n], maxSize, key);
      HeldSinceLastStored(trace[..n], key, maxSize);
    }
  }

  /** A key only the smaller cache holds has expired in the larger one: it was not evicted. */
  lemma {:induction false} OnlySmallIsExpired<V>(trace: seq<Request<V>>, key: Key, m: nat, n: nat, ttlOf: Key -> int)
    requires 1 <= m <= n && JobTrace(trace, ttlOf) && InStep(trace, m, n)
    requires key in ServeAll(trace, m).entries && key !in ServeAll(trace, n).entries
    ensures trace != [] && LastStored(trace, key, n).Some?
    ensures LastStored(trace, key, n).value + ttlOf(key) < trace[|trace| - 1].at
    decreases |trace|
  {
    hide Serve, IsHit, Pair, InStep, Stores, StoredBy;
    var k := |trace| - 1;
    var small, large, r := ServeAll(trace[..k], m), ServeAll(trace[..k], n), trace[k];
    EarlierInStep(trace, k, m, n);
    EarlierJobs(trace, ttlOf, k);
    InStepIsPair(trace[..k], m, n, ttlOf);
    JobTraceStored(trace[..k], n, ttlOf, r.at);
    PairShape(small, large, m, n);
    if Stores(r, key) {
      StoredNow(large, r, n, key);
    } else {
      OthersKept(small, r, m, key);
      if key in large.entries {
        HeldSinceLastStored(trace[..k], key, n);
        LostWhenExpired(small, large, r, m, n, key);
        StoredFor(large, ttlOf, r.at, key);
      } else {
        OnlySmallIsExpired(trace[..k], key, m, n, ttlOf);
      }
    }
  }

  lemma StoredFor<V>(l: Lru<V>, ttlOf: Key -> int, now: int, key: Key)
    requires StoredBy(l, ttlOf, now) && key in l.entries
    ensures l.entries[key].expiry == l.entries[key].createdAt + ttlOf(key)
  {
  }

  lemma PairShape<V>(small: Lru<V>, large: Lru<V>, m: nat, n: nat)
    requires Pair(small, large, m, n)
    ensures WellFormed(small) && WellFormed(large)
  {
  }

  lemma LostWhenExpired<V>(small: Lru<V>, large: Lru<V>, r: Request<V>, m: nat, n: nat, key: Key)
    requires 1 <= m <= n && Pair(small, large, m, n) && !BareGet(r)
    requires key in Serve(small, r, m).entries && key in large.entries && key !in Serve(large, r, n).entries && !Stores(r, key)
    ensures large.entries[key].expiry < r.at
  {
    hide Serve, Aligned;
    ServeWellFormed(small, r, m);
    ServeWellFormed(large, r, n);
    OthersKept(small, r, m, key);
    if key !in Dropped(large, r) {
      NothingLost(small, large, r, m, n, key);
    } else {
      DroppedIsExpired(small, large, r, key);
    }
  }

  /** After such a trace a fetch hits only the smaller cache if and only if that holds the key, stored recently enough,
      and the larger one stored it last longer than its time-to-live ago. So hits are lost to expiry alone, never to an
      eviction. */
  lemma HitIsLostToExpiryExactlyWhen<V>(trace: seq<Request<V>>, r: Request<V>, m: nat, n: nat, ttlOf: Key -> int)
    requires 1 <= m <= n && JobTrace(trace + [r], ttlOf) && InStep(trace, m, n) && r.Fetch?
    ensures var small, large, k := ServeAll(trace, m), ServeAll(trace, n), r.key;
      IsHit(small, r) && !IsHit(large, r) <==>
      && k in small.entries && StillFresh(LastStored(trace, k, m), ttlOf(k), r.at)
      && !StillFresh(LastStored(trace, k, n), ttlOf(k), r.at)
  {
    hide Serve, Pair, InStep, Stores, StoredBy, ServeAll, LastStored;
    assert (trace + [r])[..|trace|] == trace;
    EarlierJobs(trace + [r], ttlOf, |trace|);
    assert trace != [] ==> trace[|trace| - 1] == (trace + [r])[|trace| - 1];
    assert (trace + [r])[|trace|] == r;
    JobTraceStored(trace, m, ttlOf, r.at);
    JobTraceStored(trace, n, ttlOf, r.at);
    var small, large, k := ServeAll(trace, m), ServeAll(trace, n), r.key;
    if k in small.entries {
      HeldSinceLastStored(trace, k, m);
      StoredFor(small, ttlOf, r.at, k);
      if k in large.entries {
        HeldSinceLastStored(trace, k, n);
        StoredFor(large, ttlOf, r.at, k);
      } else {
        OnlySmallIsExpired(trace, k, m, n, ttlOf);
      }
    }
  }
}
