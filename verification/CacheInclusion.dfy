/** A larger cache serves every request a smaller one serves. */
module CacheInclusion {
  import opened KeyLists
  import opened CacheTables
  import opened RecencyList
  import opened CacheHistory

  /** A plain cache operation, or the cache-aside pair: get, then set when the get misses.
      Jobs read the cache only through the pair. */
  datatype Request<V> =
    | Plain(op: Op<V>, at: int)
    | Fetch(key: Key, answer: V, ttl: int, at: int)

  function Serve<V>(l: Lru<V>, r: Request<V>, maxSize: nat): Lru<V>
    requires maxSize >= 1
  {
    match r
    case Plain(op, at) => Apply(l, Event(op, at), maxSize)
    case Fetch(k, answer, ttl, at) =>
      if AnswerL(l, k, at).Hit? then GetL(l, k, at)
      else SetL(GetL(l, k, at), k, answer, ttl, at, maxSize)
  }

  function ServeAll<V>(trace: seq<Request<V>>, maxSize: nat): Lru<V>
    requires maxSize >= 1
  {
    if trace == [] then Lru([], map[])
    else Serve(ServeAll(trace[..|trace| - 1], maxSize), trace[|trace| - 1], maxSize)
  }

  function IsHit<V>(l: Lru<V>, r: Request<V>): bool {
    match r
    case Plain(Get(k), at) => AnswerL(l, k, at).Hit?
    case Fetch(k, _, _, at) => AnswerL(l, k, at).Hit?
    case _ => false
  }

  function Hits<V>(trace: seq<Request<V>>, maxSize: nat): nat
    requires maxSize >= 1
  {
    if trace == [] then 0
    else
      var earlier := trace[..|trace| - 1];
      Hits(earlier, maxSize) + if IsHit(ServeAll(earlier, maxSize), trace[|trace| - 1]) then 1 else 0
  }

  /** The request meets no expired entry: not under its key, and none at all when it cleans up. */
  predicate MeetsNothingExpired<V>(l: Lru<V>, r: Request<V>) {
    match r
    case Fetch(k, _, _, at) => k in l.entries ==> !Expired(l.entries[k], at)
    case Plain(Get(k), at) => k in l.entries ==> !Expired(l.entries[k], at)
    case Plain(Has(k), at) => k in l.entries ==> !Expired(l.entries[k], at)
    case Plain(Cleanup, at) => forall k :: k in l.entries ==> !Expired(l.entries[k], at)
    case _ => true
  }

  ghost predicate NothingExpires<V>(trace: seq<Request<V>>, maxSize: nat)
    requires maxSize >= 1
  {
    forall i :: 0 <= i < |trace| ==> MeetsNothingExpired(ServeAll(trace[..i], maxSize), trace[i])
  }

  /** Whatever expires: a fetch stores again what it finds expired. Only a bare get, a has or a cleanup that meets an
      expired entry takes a key out of the list. */
  ghost predicate Undisturbed<V>(trace: seq<Request<V>>, maxSize: nat)
    requires maxSize >= 1
  {
    forall i :: 0 <= i < |trace| ==> trace[i].Fetch? || MeetsNothingExpired(ServeAll(trace[..i], maxSize), trace[i])
  }

  // ---------- Requests on the recency list alone ----------

  function SetKey(order: seq<Key>, key: Key, maxSize: nat): seq<Key>
    requires maxSize >= 1
  {
    ToFront(Take(order, maxSize - 1), key)
  }

  function FetchKey(order: seq<Key>, key: Key, maxSize: nat): seq<Key>
    requires maxSize >= 1
  {
    if key in order then ToFront(order, key) else SetKey(order, key, maxSize)
  }

  function ServeKeys<V>(order: seq<Key>, r: Request<V>, maxSize: nat): seq<Key>
    requires maxSize >= 1
  {
    match r
    case Plain(Get(k), _) => if k in order then ToFront(order, k) else order
    case Plain(Set(k, _, _), _) => SetKey(order, k, maxSize)
    case Plain(Delete(k), _) => Without(order, {k})
    case Plain(Has(_), _) => order
    case Plain(Clear, _) => []
    case Plain(Cleanup, _) => order
    case Fetch(k, _, _, _) => FetchKey(order, k, maxSize)
  }

  function Asks<V>(order: seq<Key>, r: Request<V>): bool {
    match r
    case Plain(Get(k), _) => k in order
    case Fetch(k, _, _, _) => k in order
    case _ => false
  }

  /** A fetch orders the keys alike whether it finds its key fresh or expired. */
  lemma FetchIsServeKeys<V>(l: Lru<V>, r: Request<V>, maxSize: nat)
    requires maxSize >= 1 && WellFormed(l) && |l.order| <= maxSize && r.Fetch?
    ensures Serve(l, r, maxSize).order == ServeKeys(l.order, r, maxSize)
  {
    var k := r.key;
    if k in l.entries && Expired(l.entries[k], r.at) {
      var rest := Without(l.order, {k});
      WithoutOne(l.order, k);
      WithoutElements(l.order, {k});
      WithoutAbsent(rest, {k});
      hide Without;
      assert Take(rest, maxSize - 1) == rest;
    }
  }

  lemma ServeIsServeKeys<V>(l: Lru<V>, r: Request<V>, maxSize: nat)
    requires maxSize >= 1 && WellFormed(l) && |l.order| <= maxSize && (r.Fetch? || MeetsNothingExpired(l, r))
    ensures Serve(l, r, maxSize).order == ServeKeys(l.order, r, maxSize)
  {
    if r.Fetch? {
      FetchIsServeKeys(l, r, maxSize);
    } else if r.op.Cleanup? {
      assert ExpiredKeys(l.entries, r.at) == {};
      WithoutAbsent(l.order, {});
    }
  }

  /** The keys a request finds expired and drops for good. */
  function Dropped<V>(l: Lru<V>, r: Request<V>): set<Key> {
    match r
    case Plain(Get(k), at) => if k in l.entries && Expired(l.entries[k], at) then {k} else {}
    case Plain(Has(k), at) => if k in l.entries && Expired(l.entries[k], at) then {k} else {}
    case Plain(Cleanup, at) => ExpiredKeys(l.entries, at)
    case _ => {}
  }

  /** Any request on any cache: what is dropped goes first, then the list is served. */
  lemma ServeDropsFirst<V>(l: Lru<V>, r: Request<V>, maxSize: nat)
    requires maxSize >= 1 && WellFormed(l) && |l.order| <= maxSize
    ensures Serve(l, r, maxSize).order == ServeKeys(Without(l.order, Dropped(l, r)), r, maxSize)
  {
    if r.Fetch? {
      WithoutAbsent(l.order, {});
      FetchIsServeKeys(l, r, maxSize);
    } else {
      PlainDropsFirst(l, r, maxSize);
    }
  }

  lemma PlainDropsFirst<V>(l: Lru<V>, r: Request<V>, maxSize: nat)
    requires maxSize >= 1 && WellFormed(l) && r.Plain?
    ensures Serve(l, r, maxSize).order == ServeKeys(Without(l.order, Dropped(l, r)), r, maxSize)
  {
    hide Without, Take;
    WithoutElements(l.order, Dropped(l, r));
    if Dropped(l, r) == {} {
      WithoutAbsent(l.order, {});
    }
  }

  lemma HitIsAskedAndFresh<V>(l: Lru<V>, r: Request<V>)
    requires WellFormed(l)
    ensures IsHit(l, r) ==> Asks(l.order, r)
    ensures MeetsNothingExpired(l, r) ==> IsHit(l, r) == Asks(l.order, r)
  {
  }

  // ---------- Lists within lists ----------

  /** The small list is the large one with some keys left out: same keys, same order. */
  ghost predicate Sublist(small: seq<Key>, large: seq<Key>) {
    exists gone :: small == Without(large, gone)
  }

  /** What stays true of two caches of sizes m <= n: the small list lies within the large one, and the small cache
      has at most the difference of the sizes fewer keys. */
  ghost predicate Contained(small: seq<Key>, large: seq<Key>, m: nat, n: nat) {
    && NoDuplicates(small) && NoDuplicates(large)
    && |small| <= m && |large| <= n && |large| - |small| <= n - m
    && Sublist(small, large)
  }

  lemma SublistMembers(small: seq<Key>, large: seq<Key>)
    requires Sublist(small, large)
    ensures forall k :: k in small ==> k in large
  {
    var gone :| small == Without(large, gone);
    WithoutElements(large, gone);
  }

  lemma SublistWithout(small: seq<Key>, large: seq<Key>, more: set<Key>)
    requires Sublist(small, large)
    ensures Sublist(Without(small, more), Without(large, more))
  {
    var gone :| small == Without(large, gone);
    WithoutTwice(large, gone, more);
    WithoutTwice(large, more, gone);
    assert gone + more == more + gone;
  }

  lemma SublistFront(small: seq<Key>, large: seq<Key>, key: Key)
    requires Sublist(small, large)
    ensures Sublist(ToFront(small, key), ToFront(large, key))
  {
    var gone :| small == Without(large, gone);
    var kept := gone - {key};
    WithoutTwice(large, gone, {key});
    WithoutTwice(large, {key}, kept);
    assert gone + {key} == {key} + kept;
    WithoutConcat([key], Without(large, {key}), kept);
    assert Without([key], kept) == [key];
    assert ToFront(small, key) == Without(ToFront(large, key), kept);
  }

  /** A key the small list lacks may go anywhere in the large one. */
  lemma SublistFrontLarge(small: seq<Key>, large: seq<Key>, key: Key)
    requires Sublist(small, large) && key !in small
    ensures Sublist(small, ToFront(large, key))
  {
    var gone :| small == Without(large, gone);
    var more := gone + {key};
    WithoutTwice(large, gone, {key});
    WithoutTwice(large, {key}, more);
    assert {key} + more == more;
    WithoutAbsent(small, {key});
    WithoutConcat([key], Without(large, {key}), more);
    assert Without([key], more) == [];
    assert small == Without(ToFront(large, key), more);
  }

  lemma LastIsWithout(keys: seq<Key>)
    requires NoDuplicates(keys) && keys != []
    ensures keys[..|keys| - 1] == Without(keys, {keys[|keys| - 1]})
  {
    var n := |keys| - 1;
    var init, last := keys[..n], keys[n];
    assert Without([last], {last}) == [];
    assert last !in init;
    hide Without;
    WithoutConcat(init, [last], {last});
    WithoutAbsent(init, {last});
    assert keys == init + [last] && init + [] == init;
  }

  lemma SublistInitLarge(small: seq<Key>, large: seq<Key>)
    requires Sublist(small, large) && NoDuplicates(small) && small != []
    ensures Sublist(small[..|small| - 1], large)
  {
    hide Without;
    var gone :| small == Without(large, gone);
    LastIsWithout(small);
    WithoutTwice(large, gone, {small[|small| - 1]});
  }

  /** The last key may leave both lists. */
  lemma SublistInits(small: seq<Key>, large: seq<Key>)
    requires Sublist(small, large) && NoDuplicates(small) && small != [] && large != []
    ensures Sublist(small[..|small| - 1], large[..|large| - 1])
  {
    var gone :| small == Without(large, gone);
    var init, last := large[..|large| - 1], large[|large| - 1];
    assert Without([last], gone) == if last in gone then [] else [last];
    hide Without;
    assert large == init + [last];
    WithoutConcat(init, [last], gone);
    if last in gone {
      assert small == Without(init, gone);
      SublistInitLarge(small, init);
    } else {
      assert small[..|small| - 1] == Without(init, gone);
    }
  }

  /** Making room in both caches. */
  lemma SublistTake(small: seq<Key>, large: seq<Key>, m: nat, n: nat)
    requires 1 <= m <= n && Contained(small, large, m, n)
    ensures Sublist(Take(small, m - 1), Take(large, n - 1))
    ensures |Take(large, n - 1)| - |Take(small, m - 1)| <= n - m
    ensures NoDuplicates(Take(small, m - 1)) && NoDuplicates(Take(large, n - 1))
  {
    hide Sublist;
    if |large| == n {
      SublistInits(small, large);
    } else if |small| == m {
      SublistInitLarge(small, large);
    }
  }

  lemma FrontSize(keys: seq<Key>, key: Key)
    requires NoDuplicates(keys)
    ensures |ToFront(keys, key)| == |keys| + if key in keys then 0 else 1
    ensures NoDuplicates(ToFront(keys, key))
  {
    if key in keys {
      WithoutOne(keys, key);
    } else {
      WithoutAbsent(keys, {key});
    }
    WithoutElements(keys, {key});
    WithoutNoDuplicates(keys, {key});
  }

  lemma FrontContained(small: seq<Key>, large: seq<Key>, key: Key, m: nat, n: nat)
    requires m <= n && NoDuplicates(small) && NoDuplicates(large) && Sublist(small, large) && |large| - |small| <= n - m
    requires |ToFront(small, key)| <= m && |ToFront(large, key)| <= n
    ensures Contained(ToFront(small, key), ToFront(large, key), m, n)
  {
    SublistMembers(small, large);
    SublistFront(small, large, key);
    FrontSize(small, key);
    FrontSize(large, key);
  }

  lemma SetContained(small: seq<Key>, large: seq<Key>, key: Key, m: nat, n: nat)
    requires 1 <= m <= n && Contained(small, large, m, n)
    ensures Contained(SetKey(small, key, m), SetKey(large, key, n), m, n)
  {
    hide Sublist, NoDuplicates, ToFront;
    SublistTake(small, large, m, n);
    FrontSize(Take(small, m - 1), key);
    FrontSize(Take(large, n - 1), key);
    FrontContained(Take(small, m - 1), Take(large, n - 1), key, m, n);
  }

  /** The small cache misses, the large one hits. */
  lemma FetchContained(small: seq<Key>, large: seq<Key>, key: Key, m: nat, n: nat)
    requires 1 <= m <= n && Contained(small, large, m, n) && key !in small && key in large
    ensures Contained(SetKey(small, key, m), ToFront(large, key), m, n)
  {
    hide Sublist;
    var cut := Take(small, m - 1);
    if |small| == m {
      SublistInitLarge(small, large);
    }
    assert key !in cut;
    SublistFront(cut, large, key);
    FrontSize(cut, key);
    FrontSize(large, key);
  }

  lemma MissedGetContained(small: seq<Key>, large: seq<Key>, key: Key, m: nat, n: nat)
    requires Contained(small, large, m, n) && key !in small && key in large
    ensures Contained(small, ToFront(large, key), m, n)
  {
    SublistFrontLarge(small, large, key);
    FrontSize(large, key);
  }

  lemma DeleteContained(small: seq<Key>, large: seq<Key>, key: Key, m: nat, n: nat)
    requires Contained(small, large, m, n)
    ensures Contained(Without(small, {key}), Without(large, {key}), m, n)
  {
    SublistMembers(small, large);
    SublistWithout(small, large, {key});
    WithoutElements(small, {key});
    WithoutElements(large, {key});
    WithoutNoDuplicates(small, {key});
    WithoutNoDuplicates(large, {key});
    if key in small {
      WithoutOne(small, key);
    } else {
      WithoutAbsent(small, {key});
    }
    if key in large {
      WithoutOne(large, key);
    }
  }

  lemma EmptyContained(m: nat, n: nat)
    requires m <= n
    ensures Contained([], [], m, n)
  {
    assert [] == Without([], {});
  }

  /** Every request keeps the small list within the large one, bare gets included. */
  lemma StepContained<V>(small: seq<Key>, large: seq<Key>, r: Request<V>, m: nat, n: nat)
    requires 1 <= m <= n && Contained(small, large, m, n)
    ensures Contained(ServeKeys(small, r, m), ServeKeys(large, r, n), m, n)
    ensures Asks(small, r) ==> Asks(large, r)
  {
    Within(small, large, m, n);
    hide Contained, ToFront, SetKey;
    match r
    case Plain(Get(k), _) => GetContained(small, large, k, m, n);
    case Plain(Set(k, _, _), _) => SetContained(small, large, k, m, n);
    case Plain(Delete(k), _) => DeleteContained(small, large, k, m, n);
    case Plain(Clear, _) => EmptyContained(m, n);
    case Plain(_, _) =>
    case Fetch(k, _, _, _) =>
      if k in small {
        GetContained(small, large, k, m, n);
      } else if k in large {
        FetchContained(small, large, k, m, n);
      } else {
        SetContained(small, large, k, m, n);
      }
  }

  lemma Within(small: seq<Key>, large: seq<Key>, m: nat, n: nat)
    requires Contained(small, large, m, n)
    ensures forall k :: k in small ==> k in large
  {
    SublistMembers(small, large);
  }

  lemma GetContained(small: seq<Key>, large: seq<Key>, key: Key, m: nat, n: nat)
    requires m <= n && Contained(small, large, m, n)
    ensures Contained(if key in small then ToFront(small, key) else small, if key in large then ToFront(large, key) else large, m, n)
  {
    SublistMembers(small, large);
    if key in small {
      FrontSize(small, key);
      FrontSize(large, key);
      FrontContained(small, large, key, m, n);
    } else if key in large {
      MissedGetContained(small, large, key, m, n);
    }
  }

  // ---------- Whole traces ----------

  lemma ServeWellFormed<V>(l: Lru<V>, r: Request<V>, maxSize: nat)
    requires WellFormed(l) && maxSize >= 1 && |l.order| <= maxSize
    ensures WellFormed(Serve(l, r, maxSize)) && |Serve(l, r, maxSize).order| <= maxSize
  {
    hide WellFormed, SetL, GetL;
    match r
    case Plain(op, at) => ApplyWellFormed(l, Event(op, at), maxSize);
    case Fetch(k, answer, ttl, at) =>
      ApplyWellFormed(l, Event(Get(k), at), maxSize);
      ApplyWellFormed(GetL(l, k, at), Event(Set(k, answer, ttl), at), maxSize);
  }

  lemma {:induction false} ServeAllShape<V>(trace: seq<Request<V>>, maxSize: nat)
    requires maxSize >= 1
    ensures WellFormed(ServeAll(trace, maxSize)) && |ServeAll(trace, maxSize).order| <= maxSize
  {
    if trace == [] {
      EmptyWellFormed<V>();
    } else {
      var n := |trace| - 1;
      ServeAllShape(trace[..n], maxSize);
      ServeWellFormed(ServeAll(trace[..n], maxSize), trace[n], maxSize);
    }
  }

  lemma EarlierUndisturbed<V>(trace: seq<Request<V>>, maxSize: nat, i: nat)
    requires maxSize >= 1 && i <= |trace|
    ensures Undisturbed(trace, maxSize) ==> Undisturbed(trace[..i], maxSize)
    ensures NothingExpires(trace, maxSize) ==> NothingExpires(trace[..i], maxSize) && Undisturbed(trace, maxSize)
  {
    assert forall j :: 0 <= j < i ==> trace[..i][..j] == trace[..j];
  }

  lemma LastStep<V>(trace: seq<Request<V>>, maxSize: nat)
    requires maxSize >= 1 && trace != [] && Undisturbed(trace, maxSize)
    ensures var n := |trace| - 1; ServeAll(trace, maxSize).order == ServeKeys(ServeAll(trace[..n], maxSize).order, trace[n], maxSize)
  {
    var n := |trace| - 1;
    ServeAllShape(trace[..n], maxSize);
    hide WellFormed, MeetsNothingExpired;
    ServeIsServeKeys(ServeAll(trace[..n], maxSize), trace[n], maxSize);
  }

  /** On any trace, with gets that miss without a set to follow, and on which fetches may meet expired entries, the
      recency list of the smaller cache lies within the larger one's. */
  lemma {:induction false} LargerHoldsSmaller<V>(trace: seq<Request<V>>, m: nat, n: nat)
    requires 1 <= m <= n && Undisturbed(trace, m) && Undisturbed(trace, n)
    ensures Contained(ServeAll(trace, m).order, ServeAll(trace, n).order, m, n)
  {
    hide Contained, Undisturbed, Serve, ServeKeys;
    if trace == [] {
      EmptyContained(m, n);
    } else {
      var k := |trace| - 1;
      EarlierUndisturbed(trace, m, k);
      EarlierUndisturbed(trace, n, k);
      LargerHoldsSmaller(trace[..k], m, n);
      LastStep(trace, m);
      LastStep(trace, n);
      StepContained(ServeAll(trace[..k], m).order, ServeAll(trace[..k], n).order, trace[k], m, n);
    }
  }

  /** After such a trace a request hits only the smaller cache if and only if it asks for a key that both hold, fresh
      in the smaller and expired in the larger. */
  lemma HitIsLostExactlyWhen<V>(trace: seq<Request<V>>, r: Request<V>, m: nat, n: nat)
    requires 1 <= m <= n && Undisturbed(trace, m) && Undisturbed(trace, n)
    requires r.Fetch? || r.op.Get?
    ensures var small, large := ServeAll(trace, m), ServeAll(trace, n); var k := if r.Fetch? then r.key else r.op.key;
      IsHit(small, r) && !IsHit(large, r) <==>
      k in small.entries && k in large.entries && !Expired(small.entries[k], r.at) && Expired(large.entries[k], r.at)
  {
    LargerHoldsSmaller(trace, m, n);
    SublistMembers(ServeAll(trace, m).order, ServeAll(trace, n).order);
    ServeAllShape(trace, m);
    ServeAllShape(trace, n);
    hide ServeAll, Sublist, NoDuplicates;
  }

  /** So, if nothing expires in the larger cache, raising maxSize never loses a hit, whatever the fetches meet in the
      smaller one. */
  lemma {:induction false} HitsGrowWithSize<V>(trace: seq<Request<V>>, m: nat, n: nat)
    requires 1 <= m <= n && Undisturbed(trace, m) && NothingExpires(trace, n)
    ensures Hits(trace, m) <= Hits(trace, n)
  {
    if trace != [] {
      var k := |trace| - 1;
      var small, large := ServeAll(trace[..k], m), ServeAll(trace[..k], n);
      EarlierUndisturbed(trace, m, k);
      EarlierUndisturbed(trace, n, k);
      assert MeetsNothingExpired(large, trace[k]);
      hide Contained, Undisturbed, NothingExpires, IsHit, MeetsNothingExpired, ServeAll, WellFormed;
      HitsGrowWithSize(trace[..k], m, n);
      EarlierUndisturbed(trace[..k], n, k);
      LargerHoldsSmaller(trace[..k], m, n);
      ServeAllShape(trace[..k], m);
      ServeAllShape(trace[..k], n);
      HitIsAskedAndFresh(small, trace[k]);
      HitIsAskedAndFresh(large, trace[k]);
      StepContained(small.order, large.order, trace[k], m, n);
    }
  }

  // ---------- When the small list is even a prefix ----------

  lemma PrefixFront(a: seq<Key>, b: seq<Key>, key: Key)
    requires a <= b
    ensures ToFront(a, key) <= ToFront(b, key)
  {
    PrefixWithout(a, b, {key});
  }

  lemma PrefixWithout(a: seq<Key>, b: seq<Key>, gone: set<Key>)
    requires a <= b
    ensures Without(a, gone) <= Without(b, gone)
  {
    assert b == a + b[|a|..];
    WithoutConcat(a, b[|a|..], gone);
  }

  lemma PrefixTake(a: seq<Key>, b: seq<Key>, m: nat, n: nat)
    requires a <= b && m <= n
    ensures Take(a, m) <= Take(b, n) && Take(a, m) <= b
  {
  }

  /** Dropping keys from both keeps the prefix: what the small list keeps the large one keeps, and a key that only the
      small list drops has none behind it that stays. */
  ghost predicate DropsAlike(small: seq<Key>, gone: set<Key>, goneLarge: set<Key>) {
    && (forall k :: k in small && k !in gone ==> k !in goneLarge)
    && (forall i, j :: 0 <= i < j < |small| && small[i] in gone && small[j] !in gone ==> small[i] in goneLarge)
  }

  lemma {:induction false} DropsKeepPrefixExactlyWhen(small: seq<Key>, large: seq<Key>, gone: set<Key>, goneLarge: set<Key>)
    requires NoDuplicates(large) && small <= large
    ensures Without(small, gone) <= Without(large, goneLarge) <==> DropsAlike(small, gone, goneLarge)
  {
    if small != [] {
      hide DropsAlike, Without;
      var k, s, l := small[0], small[1..], large[1..];
      assert k !in l;
      DropsKeepPrefixExactlyWhen(s, l, gone, goneLarge);
      WithoutHead(small, gone);
      WithoutHead(large, goneLarge);
      WithoutElements(s, gone);
      WithoutElements(large, goneLarge);
      hide NoDuplicates;
      if k !in gone {
        KeptFirst(small, gone, goneLarge);
        PrefixOfHead(k, Without(s, gone), Without(l, goneLarge));
      } else {
        DroppedFirst(small, gone, goneLarge);
        assert k !in Without(s, gone);
        PrefixOfHead(k, Without(s, gone), Without(l, goneLarge));
      }
    }
  }

  lemma WithoutHead(keys: seq<Key>, gone: set<Key>)
    requires keys != []
    ensures Without(keys, gone) == if keys[0] in gone then Without(keys[1..], gone) else [keys[0]] + Without(keys[1..], gone)
  {
  }

  lemma PrefixOfHead(key: Key, a: seq<Key>, b: seq<Key>)
    ensures [key] + a <= [key] + b <==> a <= b
    ensures [key] + a <= b ==> key in b
    ensures key !in a ==> (a <= [key] + b <==> a == [])
  {
    assert ([key] + a)[1..] == a && ([key] + b)[1..] == b;
    if [key] + a <= [key] + b {
      assert ([key] + a)[1..] <= ([key] + b)[1..];
    }
    if [key] + a <= b {
      assert b[0] == ([key] + a)[0];
    }
    if a != [] && a <= [key] + b {
      assert a[0] == ([key] + b)[0];
    }
  }

  lemma KeptFirst(small: seq<Key>, gone: set<Key>, goneLarge: set<Key>)
    requires small != [] && small[0] !in gone
    ensures DropsAlike(small, gone, goneLarge) <==> small[0] !in goneLarge && DropsAlike(small[1..], gone, goneLarge)
  {
    var s := small[1..];
    if small[0] !in goneLarge && DropsAlike(s, gone, goneLarge) {
      forall i, j | 0 <= i < j < |small| && small[i] in gone && small[j] !in gone ensures small[i] in goneLarge {
        assert s[i - 1] == small[i] && s[j - 1] == small[j];
      }
    }
    if DropsAlike(small, gone, goneLarge) {
      assert forall i :: 0 <= i < |s| ==> s[i] == small[i + 1];
    }
  }

  lemma DroppedFirst(small: seq<Key>, gone: set<Key>, goneLarge: set<Key>)
    requires small != [] && small[0] in gone
    ensures DropsAlike(small, gone, goneLarge) <==>
      (small[0] in goneLarge || Without(small[1..], gone) == []) && DropsAlike(small[1..], gone, goneLarge)
  {
    var s := small[1..];
    WithoutElements(s, gone);
    assert forall i :: 0 <= i < |s| ==> s[i] == small[i + 1];
    if Without(s, gone) != [] {
      var k := Without(s, gone)[0];
      assert k in Without(s, gone);
      var j :| 0 <= j < |s| && s[j] == k;
      assert small[j + 1] == k;
    }
    if (small[0] in goneLarge || Without(s, gone) == []) && DropsAlike(s, gone, goneLarge) {
      forall i, j | 0 <= i < j < |small| && small[i] in gone && small[j] !in gone ensures small[i] in goneLarge {
        assert s[j - 1] == small[j] && s[j - 1] in Without(s, gone);
        if i > 0 {
          assert s[i - 1] == small[i];
        }
      }
    }
  }

  /** Which requests keep the order: a get, of a key that either both hit, or neither, or only the large cache while the
      small one keeps nothing; a has or cleanup that drops alike; any other. */
  ghost predicate KeepsOrder<V>(small: Lru<V>, large: Lru<V>, r: Request<V>) {
    match r
    case Plain(Get(_), _) => if IsHit(small, r) then IsHit(large, r) else IsHit(large, r) ==> Without(small.order, Dropped(small, r)) == []
    case _ => DropsAlike(small.order, Dropped(small, r), Dropped(large, r))
  }

  /** One request on any two caches keeps the small list a prefix of the large one if and only if it is one of those. */
  lemma PrefixKeptExactlyWhen<V>(small: Lru<V>, large: Lru<V>, r: Request<V>, m: nat, n: nat)
    requires 1 <= m <= n && WellFormed(small) && WellFormed(large) && |small.order| <= m && |large.order| <= n
    requires small.order <= large.order
    ensures Serve(small, r, m).order <= Serve(large, r, n).order <==> KeepsOrder(small, large, r)
  {
    ServeDropsFirst(small, r, m);
    ServeDropsFirst(large, r, n);
    hide Serve;
    match r
    case Plain(Get(k), _) => PrefixGet(small, large, r);
    case Plain(Has(k), _) => DropsKeepPrefixExactlyWhen(small.order, large.order, Dropped(small, r), Dropped(large, r));
    case Plain(Cleanup, _) => DropsKeepPrefixExactlyWhen(small.order, large.order, Dropped(small, r), Dropped(large, r));
    case _ =>
      WithoutAbsent(small.order, {});
      WithoutAbsent(large.order, {});
      PrefixElse(small.order, large.order, r, m, n);
  }

  lemma PrefixGet<V>(small: Lru<V>, large: Lru<V>, r: Request<V>)
    requires WellFormed(small) && WellFormed(large) && small.order <= large.order && r.Plain? && r.op.Get?
    ensures ServeKeys(Without(small.order, Dropped(small, r)), r, 1) <= ServeKeys(Without(large.order, Dropped(large, r)), r, 1)
      <==> KeepsOrder(small, large, r)
  {
    hide KeepsOrder, Without, Dropped, ToFront, WellFormed, IsHit, ServeKeys;
    WhatIsAsked(small, r);
    WhatIsAsked(large, r);
    if IsHit(small, r) && IsHit(large, r) {
      PrefixFront(small.order, large.order, r.op.key);
    } else if !IsHit(small, r) && !IsHit(large, r) {
      PrefixWithout(small.order, large.order, {r.op.key});
    }
    KeepsOrderOfGet(small, large, r);
    FrontIsHead(small.order, r.op.key);
    FrontIsHead(large.order, r.op.key);
    PrefixOfHead(r.op.key, Without(small.order, {r.op.key}), Without(large.order, {r.op.key}));
  }

  lemma FrontIsHead(keys: seq<Key>, key: Key)
    ensures ToFront(keys, key) == [key] + Without(keys, {key})
  {
  }

  lemma KeepsOrderOfGet<V>(small: Lru<V>, large: Lru<V>, r: Request<V>)
    requires r.Plain? && r.op.Get?
    ensures KeepsOrder(small, large, r) <==>
      if IsHit(small, r) then IsHit(large, r) else IsHit(large, r) ==> Without(small.order, Dropped(small, r)) == []
  {
  }

  /** A get puts the key in front when it hits, and leaves the list without it when it does not. */
  lemma WhatIsAsked<V>(l: Lru<V>, r: Request<V>)
    requires WellFormed(l) && r.Plain? && r.op.Get?
    ensures var kept := Without(l.order, Dropped(l, r)); var served := ServeKeys(kept, r, 1);
      && (if IsHit(l, r) then served == ToFront(l.order, r.op.key) else served == kept == Without(l.order, {r.op.key}))
      && r.op.key !in Without(l.order, {r.op.key}) && ToFront(l.order, r.op.key)[0] == r.op.key
  {
    WithoutElements(l.order, {r.op.key});
    if IsHit(l, r) {
      WithoutAbsent(l.order, {});
    } else {
      GoneAlike(l, r);
    }
    hide Without;
  }

  lemma GoneAlike<V>(l: Lru<V>, r: Request<V>)
    requires WellFormed(l) && r.Plain? && r.op.Get? && !IsHit(l, r)
    ensures Without(l.order, Dropped(l, r)) == Without(l.order, {r.op.key})
  {
    if Dropped(l, r) == {} {
      WithoutAbsent(l.order, {});
      WithoutAbsent(l.order, {r.op.key});
    }
  }

  lemma PrefixElse<V>(small: seq<Key>, large: seq<Key>, r: Request<V>, m: nat, n: nat)
    requires 1 <= m <= n && small <= large && (r.Fetch? || r.op.Set? || r.op.Delete? || r.op.Clear?)
    ensures ServeKeys(small, r, m) <= ServeKeys(large, r, n)
  {
    match r
    case Plain(Set(k, _, _), _) =>
      PrefixTake(small, large, m - 1, n - 1);
      PrefixFront(Take(small, m - 1), Take(large, n - 1), k);
    case Plain(Delete(k), _) => PrefixWithout(small, large, {k});
    case Plain(_, _) =>
    case Fetch(k, _, _, _) =>
      PrefixTake(small, large, m - 1, n - 1);
      PrefixFront(small, large, k);
      PrefixFront(Take(small, m - 1), large, k);
      PrefixFront(Take(small, m - 1), Take(large, n - 1), k);
  }

  ghost predicate PrefixAt<V>(trace: seq<Request<V>>, i: nat, m: nat, n: nat)
    requires 1 <= m <= n && i <= |trace|
  {
    ServeAll(trace[..i], m).order <= ServeAll(trace[..i], n).order
  }

  ghost predicate KeepsOrderAt<V>(trace: seq<Request<V>>, i: nat, m: nat, n: nat)
    requires 1 <= m <= n && i < |trace|
  {
    KeepsOrder(ServeAll(trace[..i], m), ServeAll(trace[..i], n), trace[i])
  }

  lemma PrefixStep<V>(trace: seq<Request<V>>, i: nat, m: nat, n: nat)
    requires 1 <= m <= n && i < |trace| && PrefixAt(trace, i, m, n)
    ensures PrefixAt(trace, i + 1, m, n) <==> KeepsOrderAt(trace, i, m, n)
  {
    hide Serve, WellFormed, KeepsOrder;
    assert trace[..i + 1][..i] == trace[..i];
    ServeAllShape(trace[..i], m);
    ServeAllShape(trace[..i], n);
    PrefixKeptExactlyWhen(ServeAll(trace[..i], m), ServeAll(trace[..i], n), trace[i], m, n);
  }

  /** Over any trace at all: the small list is a prefix all along if and only if every request keeps the order. */
  lemma PrefixAllAlongExactlyWhen<V>(trace: seq<Request<V>>, m: nat, n: nat)
    requires 1 <= m <= n
    ensures (forall i :: 0 <= i <= |trace| ==> PrefixAt(trace, i, m, n)) <==>
      (forall i :: 0 <= i < |trace| ==> KeepsOrderAt(trace, i, m, n))
  {
    hide PrefixAt, KeepsOrderAt;
    if forall i :: 0 <= i <= |trace| ==> PrefixAt(trace, i, m, n) {
      forall i | 0 <= i < |trace| ensures KeepsOrderAt(trace, i, m, n) {
        assert PrefixAt(trace, i, m, n) && PrefixAt(trace, i + 1, m, n);
        PrefixStep(trace, i, m, n);
      }
    }
    if forall i :: 0 <= i < |trace| ==> KeepsOrderAt(trace, i, m, n) {
      forall i | 0 <= i <= |trace| ensures PrefixAt(trace, i, m, n) {
        KeptOrderIsPrefix(trace, i, m, n);
      }
    }
  }

  lemma {:induction false} KeptOrderIsPrefix<V>(trace: seq<Request<V>>, i: nat, m: nat, n: nat)
    requires 1 <= m <= n && i <= |trace| && forall k :: 0 <= k < i ==> KeepsOrderAt(trace, k, m, n)
    ensures PrefixAt(trace, i, m, n)
  {
    if i == 0 {
      assert PrefixAt(trace, 0, m, n);
    } else {
      hide PrefixAt, KeepsOrderAt;
      KeptOrderIsPrefix(trace, i - 1, m, n);
      PrefixStep(trace, i - 1, m, n);
    }
  }

  /** For traces of fetches, with no cleanup between them, whatever expires, the smaller list is a prefix of the larger
      one. */
  lemma FetchesKeepPrefix<V>(trace: seq<Request<V>>, m: nat, n: nat)
    requires 1 <= m <= n && forall i :: 0 <= i < |trace| ==> trace[i].Fetch?
    ensures ServeAll(trace, m).order <= ServeAll(trace, n).order
  {
    PrefixAllAlongExactlyWhen(trace, m, n);
    assert PrefixAt(trace, |trace|, m, n);
    assert trace[..|trace|] == trace;
  }

  lemma HitsLast<V>(trace: seq<Request<V>>, r: Request<V>, maxSize: nat)
    requires maxSize >= 1
    ensures Hits(trace + [r], maxSize) == Hits(trace, maxSize) + if IsHit(ServeAll(trace, maxSize), r) then 1 else 0
    ensures ServeAll(trace + [r], maxSize) == Serve(ServeAll(trace, maxSize), r, maxSize)
  {
    assert (trace + [r])[..|trace|] == trace;
  }

  /** The key of a fetch, alone in the list with its expiry, or not held. */
  lemma FetchAlone(l: Lru<int>, key: Key, ttl: int, at: int)
    requires l.order == [key] && key in l.entries
    ensures var r := Fetch(key, 0, ttl, at); var expiry := l.entries[key].expiry;
      && Serve(l, r, 1).order == [key] && key in Serve(l, r, 1).entries
      && (IsHit(l, r) <==> at <= expiry)
      && Serve(l, r, 1).entries[key].expiry == if at <= expiry then expiry else at + ttl
  {
    assert Without([key], {key}) == [];
    assert ToFront([key], key) == [key] && ToFront([], key) == [key];
  }

  lemma FetchOfTwo(l: Lru<int>, key: Key, other: Key, ttl: int, at: int)
    requires key != other && (l.order == [key, other] || l.order == [other, key]) && key in l.entries
    requires at > l.entries[key].expiry ==> l.order == [key, other]
    ensures var r := Fetch(key, 0, ttl, at); var expiry := l.entries[key].expiry;
      && Serve(l, r, 2).order == [key, other] && key in Serve(l, r, 2).entries
      && (IsHit(l, r) <==> at <= expiry)
      && Serve(l, r, 2).entries[key].expiry == if at <= expiry then expiry else at + ttl
  {
    WithoutAbsent([other], {key});
    assert [key, other][1..] == [other] && [other, key][1..] == [key] && Without([key], {key}) == [];
    assert Without([key, other], {key}) == [other] && Without([other, key], {key}) == [other];
    assert Take([other], 1) == [other];
  }

  /** With changing times-to-live expiry does lose hits: what the larger cache hits it does not store again, and so
      it expires earlier. */
  lemma ExpiryLosesHits()
    ensures var trace := [Fetch("c", 0, 3, 1), Fetch("b", 0, 3, 3), Fetch("c", 0, 5, 4),
                          Fetch("c", 0, 3, 5), Fetch("c", 0, 3, 7), Fetch("c", 0, 3, 9)];
      Hits(trace, 1) == 3 && Hits(trace, 2) == 2
  {
    var t1 := [Fetch("c", 0, 3, 1)];
    var t2 := t1 + [Fetch("b", 0, 3, 3)];
    StartWithTwo();
    var t3 := t2 + [Fetch("c", 0, 5, 4)];
    var t4 := t3 + [Fetch("c", 0, 3, 5)];
    var t5 := t4 + [Fetch("c", 0, 3, 7)];
    var t6 := t5 + [Fetch("c", 0, 3, 9)];
    hide Serve, IsHit, Hits, ServeAll;
    forall m: nat | m == 1 || m == 2
      ensures Hits(t6, m) == if m == 1 then 3 else 2
    {
      HitsLast(t2, Fetch("c", 0, 5, 4), m);
      HitsLast(t3, Fetch("c", 0, 3, 5), m);
      HitsLast(t4, Fetch("c", 0, 3, 7), m);
      HitsLast(t5, Fetch("c", 0, 3, 9), m);
      if m == 1 {
        MissReplaces(ServeAll(t2, 1), "b", "c", 5, 4);
        FetchAlone(ServeAll(t3, 1), "c", 3, 5);
        FetchAlone(ServeAll(t4, 1), "c", 3, 7);
        FetchAlone(ServeAll(t5, 1), "c", 3, 9);
      } else {
        FetchOfTwo(ServeAll(t2, 2), "c", "b", 5, 4);
        FetchOfTwo(ServeAll(t3, 2), "c", "b", 3, 5);
        FetchOfTwo(ServeAll(t4, 2), "c", "b", 3, 7);
        FetchOfTwo(ServeAll(t5, 2), "c", "b", 3, 9);
      }
    }
    assert t6 == [Fetch("c", 0, 3, 1), Fetch("b", 0, 3, 3), Fetch("c", 0, 5, 4),
                  Fetch("c", 0, 3, 5), Fetch("c", 0, 3, 7), Fetch("c", 0, 3, 9)];
  }

  /** Such a get does occur: it reorders only the larger list. */
  lemma BareGetBreaksInclusion()
    ensures var trace := [Fetch("c", 0, 3, 1), Fetch("b", 0, 3, 3), Plain(Get("c"), 4)];
      ServeAll(trace, 1).order == ["b"] && ServeAll(trace, 2).order == ["c", "b"]
  {
    hide ServeAll, Hits, Serve;
    var t := [Fetch("c", 0, 3, 1)] + [Fetch("b", 0, 3, 3)];
    assert t + [Plain(Get("c"), 4)] == [Fetch("c", 0, 3, 1), Fetch("b", 0, 3, 3), Plain(Get("c"), 4)];
    StartWithTwo();
    HitsLast(t, Plain(Get("c"), 4), 1);
    HitsLast(t, Plain(Get("c"), 4), 2);
    GetOfAbsent(ServeAll(t, 1), "c", 4);
    GetOfSecond(ServeAll(t, 2), "b", "c", 4);
  }

  lemma GetOfAbsent(l: Lru<int>, key: Key, at: int)
    requires key !in l.entries
    ensures Serve(l, Plain(Get(key), at), 1) == l
  {
  }

  lemma GetOfSecond(l: Lru<int>, first: Key, key: Key, at: int)
    requires l.order == [first, key] && first != key && key in l.entries && at <= l.entries[key].expiry
    ensures Serve(l, Plain(Get(key), at), 2).order == [key, first]
  {
    WithoutMiddle([first], key, []);
    assert [first] + [key] + [] == [first, key] && [first] + [] == [first];
  }

  lemma MissReplaces(l: Lru<int>, held: Key, key: Key, ttl: int, at: int)
    requires l.order == [held] && key != held && key !in l.entries
    ensures var r := Fetch(key, 0, ttl, at);
      && !IsHit(l, r) && Serve(l, r, 1).order == [key] && key in Serve(l, r, 1).entries
      && Serve(l, r, 1).entries[key].expiry == at + ttl
  {
    assert Take(l.order, 0) == [];
  }

  lemma StartWithTwo()
    ensures var t := [Fetch("c", 0, 3, 1)] + [Fetch("b", 0, 3, 3)];
      && ServeAll(t, 1).order == ["b"] && "c" !in ServeAll(t, 1).entries && Hits(t, 1) == 0
      && ServeAll(t, 2).order == ["b", "c"] && "c" in ServeAll(t, 2).entries && ServeAll(t, 2).entries["c"].expiry == 4
      && Hits(t, 2) == 0
  {
    var c, b := Fetch("c", 0, 3, 1), Fetch("b", 0, 3, 3);
    forall m: nat | m == 1 || m == 2
      ensures ServeAll([c], m).order == ["c"] && "c" in ServeAll([c], m).entries && "b" !in ServeAll([c], m).entries
      ensures ServeAll([c], m).entries["c"].expiry == 4 && Hits([c], m) == 0
    {
      HitsLast([], c, m);
      assert [] + [c] == [c];
    }
    HitsLast([c], b, 1);
    HitsLast([c], b, 2);
    assert Take(["c"], 0) == [] && Take(["c"], 1) == ["c"];
    WithoutAbsent(["c"], {"b"});
  }
}
