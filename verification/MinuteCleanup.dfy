/**
 * The cleanup timer can make a larger cache hit less often than a smaller one, although every key has one time-to-live
 * and the clock runs forward. Times are in seconds; the timer runs every 60.
 */
module MinuteCleanup {
  import opened KeyLists
  import opened CacheTables
  import opened RecencyList
  import opened CacheHistory
  import opened CacheInclusion
  import opened CacheCleanup

  datatype Letter = A | B | C | D | E

  function Name(x: Letter): Key {
    match x
    case A => "a"
    case B => "b"
    case C => "c"
    case D => "d"
    case E => "e"
  }

  function Life(x: Letter): int {
    match x
    case D => 60
    case E => 900
    case _ => 300
  }

  function TtlOf(key: Key): int {
    if key == "d" then 60 else if key == "e" then 900 else 300
  }

  lemma NamesDiffer(x: Letter, y: Letter)
    ensures Name(x) == Name(y) ==> x == y
    ensures TtlOf(Name(x)) == Life(x)
  {
    assert Name(x)[0] == Name(y)[0] ==> x == y;
  }

  datatype Plan = End | Job(key: Letter, at: int, rest: Plan) | Clean(at: int, rest: Plan)

  function Requests(plan: Plan): seq<Request<int>> {
    match plan
    case End => []
    case Job(k, at, rest) => [Fetch(Name(k), 0, Life(k), at)] + Requests(rest)
    case Clean(at, rest) => [Plain(Cleanup, at)] + Requests(rest)
  }

  /** The clock runs forward from `now`, and from the full minute `minute` on there is a cleanup at every full one. */
  predicate Timely(plan: Plan, now: int, minute: int) {
    match plan
    case End => true
    case Job(_, at, rest) => now <= at < minute + 60 && Timely(rest, at, minute)
    case Clean(at, rest) => now <= at == minute + 60 && Timely(rest, at, at)
  }

  // ---------- A cache of letters ----------

  /** What a cache holds, with expiries, most recent first. */
  datatype Slots = Nothing | Slot(key: Letter, expiry: int, rest: Slots)

  predicate HasFresh(slots: Slots, key: Letter, now: int) {
    match slots
    case Nothing => false
    case Slot(k, e, rest) => if k == key then now <= e else HasFresh(rest, key, now)
  }

  function ExpiryOf(slots: Slots, key: Letter): int {
    match slots
    case Nothing => 0
    case Slot(k, e, rest) => if k == key then e else ExpiryOf(rest, key)
  }

  function Remove(slots: Slots, key: Letter): Slots {
    match slots
    case Nothing => Nothing
    case Slot(k, e, rest) => if k == key then Remove(rest, key) else Slot(k, e, Remove(rest, key))
  }

  function First(slots: Slots, n: nat): Slots {
    match slots
    case Nothing => Nothing
    case Slot(k, e, rest) => if n == 0 then Nothing else Slot(k, e, First(rest, n - 1))
  }

  function Fresh(slots: Slots, now: int): Slots {
    match slots
    case Nothing => Nothing
    case Slot(k, e, rest) => if now > e then Fresh(rest, now) else Slot(k, e, Fresh(rest, now))
  }

  function Asked(slots: Slots, k: Letter, at: int, size: nat): Slots
    requires size >= 1
  {
    if HasFresh(slots, k, at) then Slot(k, ExpiryOf(slots, k), Remove(slots, k))
    else Slot(k, at + Life(k), First(Remove(slots, k), size - 1))
  }

  /** How often a cache of this size hits in all. */
  function Replay(plan: Plan, slots: Slots, hits: nat, size: nat): nat
    requires size >= 1
  {
    match plan
    case End => hits
    case Clean(at, rest) => Replay(rest, Fresh(slots, at), hits, size)
    case Job(k, at, rest) => Replay(rest, Asked(slots, k, at, size), if HasFresh(slots, k, at) then hits + 1 else hits, size)
  }

  // ---------- It is the cache ----------

  function Names(slots: Slots): seq<Key> {
    match slots
    case Nothing => []
    case Slot(k, _, rest) => [Name(k)] + Names(rest)
  }

  ghost predicate Expiries(entries: map<Key, Entry<int>>, slots: Slots) {
    match slots
    case Nothing => true
    case Slot(k, e, rest) => Name(k) in entries && entries[Name(k)].expiry == e && Expiries(entries, rest)
  }

  ghost predicate Shows(l: Lru<int>, slots: Slots) {
    WellFormed(l) && l.order == Names(slots) && Expiries(l.entries, slots)
  }

  lemma {:induction false} FreshIsFresh(entries: map<Key, Entry<int>>, slots: Slots, key: Letter, now: int)
    requires Expiries(entries, slots)
    ensures Name(key) in Names(slots) ==> Name(key) in entries && entries[Name(key)].expiry == ExpiryOf(slots, key)
    ensures HasFresh(slots, key, now) <==> Name(key) in Names(slots) && now <= ExpiryOf(slots, key)
  {
    if slots.Slot? {
      FreshIsFresh(entries, slots.rest, key, now);
      NamesDiffer(slots.key, key);
    }
  }

  lemma {:induction false} NamesRemoved(slots: Slots, key: Letter)
    ensures Names(Remove(slots, key)) == Without(Names(slots), {Name(key)})
  {
    if slots.Slot? {
      NamesRemoved(slots.rest, key);
      NamesDiffer(slots.key, key);
      assert Names(slots)[1..] == Names(slots.rest);
    }
  }

  lemma {:induction false} NamesFirst(slots: Slots, n: nat)
    ensures Names(First(slots, n)) == Take(Names(slots), n)
  {
    if slots.Slot? && n > 0 {
      NamesFirst(slots.rest, n - 1);
      assert Names(slots)[1..] == Names(slots.rest);
    }
  }

  lemma {:induction false} NamesFresh(entries: map<Key, Entry<int>>, slots: Slots, now: int)
    requires Expiries(entries, slots)
    ensures Names(Fresh(slots, now)) == Without(Names(slots), ExpiredKeys(entries, now))
  {
    if slots.Slot? {
      NamesFresh(entries, slots.rest, now);
      assert Names(slots)[1..] == Names(slots.rest);
    }
  }

  /** The expiries are those of the slots that stay. */
  lemma {:induction false} ExpiriesStay(was: map<Key, Entry<int>>, slots: Slots, entries: map<Key, Entry<int>>)
    requires forall k :: k in Names(slots) ==> k in was && k in entries && entries[k].expiry == was[k].expiry
    requires Expiries(was, slots)
    ensures Expiries(entries, slots)
  {
    if slots.Slot? {
      assert Names(slots)[0] == Name(slots.key);
      assert forall k :: k in Names(slots.rest) ==> k in Names(slots);
      ExpiriesStay(was, slots.rest, entries);
    }
  }

  lemma {:induction false} FewerExpiries(entries: map<Key, Entry<int>>, slots: Slots, key: Letter, n: nat, now: int)
    requires Expiries(entries, slots)
    ensures Expiries(entries, Remove(slots, key)) && Expiries(entries, First(slots, n)) && Expiries(entries, Fresh(slots, now))
  {
    if slots.Slot? {
      FewerExpiries(entries, slots.rest, key, if n == 0 then 0 else n - 1, now);
    }
  }

  function Ask(key: Letter, at: int): Request<int> {
    Fetch(Name(key), 0, Life(key), at)
  }

  lemma ServeHit(l: Lru<int>, key: Letter, at: int, size: nat)
    requires size >= 1 && Name(key) in l.entries && at <= l.entries[Name(key)].expiry
    ensures var t := Serve(l, Ask(key, at), size);
      && IsHit(l, Ask(key, at)) && t.order == [Name(key)] + Without(l.order, {Name(key)})
      && forall k :: k in l.entries ==> k in t.entries && t.entries[k].expiry == l.entries[k].expiry
  {
    hide Without, Name, Life;
  }

  lemma ServeMiss(l: Lru<int>, key: Letter, at: int, size: nat)
    requires size >= 1 && WellFormed(l) && (Name(key) in l.entries ==> at > l.entries[Name(key)].expiry)
    ensures var t, k := Serve(l, Ask(key, at), size), Name(key); var kept := Take(Without(l.order, {k}), size - 1);
      && !IsHit(l, Ask(key, at)) && t.order == [k] + kept
      && k in t.entries && t.entries[k].expiry == at + Life(key)
      && k !in kept && forall x :: x in kept ==> x in l.entries && x in t.entries && t.entries[x].expiry == l.entries[x].expiry
  {
    var k := Name(key);
    var rest := Without(l.order, {k});
    WithoutElements(l.order, {k});
    if k !in l.entries {
      WithoutAbsent(l.order, {k});
    }
    var kept := Take(rest, size - 1);
    assert forall x :: x in kept ==> x in rest;
    WithoutAbsent(kept, {k});
    hide Without, Name, Life;
  }

  lemma ShowsHit(l: Lru<int>, slots: Slots, key: Letter, at: int, size: nat)
    requires size >= 1 && Shows(l, slots) && |l.order| <= size && HasFresh(slots, key, at)
    ensures IsHit(l, Ask(key, at))
    ensures Shows(Serve(l, Ask(key, at), size), Slot(key, ExpiryOf(slots, key), Remove(slots, key)))
  {
    hide Serve, WellFormed, IsHit, HasFresh, ExpiryOf, Name, Life, Ask;
    var t := Serve(l, Ask(key, at), size);
    var rest := Remove(slots, key);
    FreshIsFresh(l.entries, slots, key, at);
    ServeHit(l, key, at, size);
    ServeWellFormed(l, Ask(key, at), size);
    NamesRemoved(slots, key);
    FewerExpiries(l.entries, slots, key, 0, 0);
    WithoutElements(l.order, {Name(key)});
    Held(l);
    hide Without, Remove;
    ExpiriesStay(l.entries, rest, t.entries);
  }

  lemma Held(l: Lru<int>)
    requires WellFormed(l)
    ensures forall k :: k in l.order <==> k in l.entries
  {
  }

  lemma ShowsMiss(l: Lru<int>, slots: Slots, key: Letter, at: int, size: nat)
    requires size >= 1 && Shows(l, slots) && |l.order| <= size && !HasFresh(slots, key, at)
    ensures !IsHit(l, Ask(key, at))
    ensures Shows(Serve(l, Ask(key, at), size), Slot(key, at + Life(key), First(Remove(slots, key), size - 1)))
  {
    hide Serve, WellFormed, IsHit, HasFresh, ExpiryOf, Name, Life, Ask, Remove, First, Take, Without;
    var t := Serve(l, Ask(key, at), size);
    var kept := First(Remove(slots, key), size - 1);
    FreshIsFresh(l.entries, slots, key, at);
    Held(l);
    ServeMiss(l, key, at, size);
    ServeWellFormed(l, Ask(key, at), size);
    NamesRemoved(slots, key);
    NamesFirst(Remove(slots, key), size - 1);
    FewerExpiries(l.entries, slots, key, 0, 0);
    FewerExpiries(l.entries, Remove(slots, key), key, size - 1, 0);
    StaysShown(l.entries, kept, t.entries, key, at + Life(key));
  }

  lemma StaysShown(was: map<Key, Entry<int>>, kept: Slots, entries: map<Key, Entry<int>>, key: Letter, expiry: int)
    requires Expiries(was, kept) && Name(key) in entries && entries[Name(key)].expiry == expiry
    requires forall k :: k in Names(kept) ==> k in was && k in entries && entries[k].expiry == was[k].expiry
    ensures Expiries(entries, Slot(key, expiry, kept))
  {
    ExpiriesStay(was, kept, entries);
    hide Name, Names;
  }

  lemma ShowsClean(l: Lru<int>, slots: Slots, at: int, size: nat)
    requires size >= 1 && Shows(l, slots) && |l.order| <= size
    ensures Shows(Serve(l, Plain(Cleanup, at), size), Fresh(slots, at))
  {
    hide WellFormed, Fresh, Without;
    ServeWellFormed(l, Plain(Cleanup, at), size);
    Held(l);
    NamesFresh(l.entries, slots, at);
    FewerExpiries(l.entries, slots, A, 0, at);
    WithoutElements(l.order, ExpiredKeys(l.entries, at));
    ExpiriesStay(l.entries, Fresh(slots, at), Serve(l, Plain(Cleanup, at), size).entries);
  }

  lemma {:induction false} ReplayIsHits(before: seq<Request<int>>, plan: Plan, slots: Slots, size: nat)
    requires size >= 1 && Shows(ServeAll(before, size), slots)
    ensures Hits(before + Requests(plan), size) == Replay(plan, slots, Hits(before, size), size)
    decreases plan
  {
    hide Shows, Serve, IsHit, Hits, ServeAll, Name, Life, Requests, Ask, Remove, First, Fresh;
    ServeAllShape(before, size);
    NextRequest(before, plan);
    match plan
    case End =>
    case Clean(at, rest) =>
      CleanPlays(before, slots, at, size);
      ReplayIsHits(before + [Plain(Cleanup, at)], rest, Fresh(slots, at), size);
    case Job(k, at, rest) =>
      JobPlays(before, slots, k, at, size);
      ReplayIsHits(before + [Ask(k, at)], rest, Asked(slots, k, at, size), size);
  }

  lemma CleanPlays(before: seq<Request<int>>, slots: Slots, at: int, size: nat)
    requires size >= 1 && Shows(ServeAll(before, size), slots) && |ServeAll(before, size).order| <= size
    ensures var next := before + [Plain(Cleanup, at)];
      Shows(ServeAll(next, size), Fresh(slots, at)) && Hits(next, size) == Hits(before, size)
  {
    HitsLast(before, Plain(Cleanup, at), size);
    ShowsClean(ServeAll(before, size), slots, at, size);
    hide Shows, Serve, Hits, ServeAll, Fresh;
  }

  lemma JobPlays(before: seq<Request<int>>, slots: Slots, k: Letter, at: int, size: nat)
    requires size >= 1 && Shows(ServeAll(before, size), slots) && |ServeAll(before, size).order| <= size
    ensures var next := before + [Ask(k, at)];
      && Shows(ServeAll(next, size), Asked(slots, k, at, size))
      && Hits(next, size) == Hits(before, size) + if HasFresh(slots, k, at) then 1 else 0
  {
    hide Shows, Serve, Hits, IsHit, ServeAll, HasFresh, ExpiryOf, Name, Life, Remove, First, Ask;
    HitsLast(before, Ask(k, at), size);
    if HasFresh(slots, k, at) {
      ShowsHit(ServeAll(before, size), slots, k, at, size);
    } else {
      ShowsMiss(ServeAll(before, size), slots, k, at, size);
    }
  }

  lemma NextRequest(before: seq<Request<int>>, plan: Plan)
    ensures match plan
      case End => before + Requests(plan) == before
      case Job(k, at, rest) => before + Requests(plan) == before + [Ask(k, at)] + Requests(rest)
      case Clean(at, rest) => before + Requests(plan) == before + [Plain(Cleanup, at)] + Requests(rest)
  {
    match plan
    case End =>
    case Job(k, at, rest) => assert before + ([Ask(k, at)] + Requests(rest)) == before + [Ask(k, at)] + Requests(rest);
    case Clean(at, rest) => assert before + ([Plain(Cleanup, at)] + Requests(rest)) == before + [Plain(Cleanup, at)] + Requests(rest);
  }

  lemma {:induction false} TimelyIsJobTrace(before: seq<Request<int>>, plan: Plan, now: int, minute: int)
    requires JobTrace(before, TtlOf) && Timely(plan, now, minute) && forall i :: 0 <= i < |before| ==> before[i].at <= now
    ensures JobTrace(before + Requests(plan), TtlOf)
    decreases plan
  {
    hide Life, Name, Requests;
    match plan
    case End => NextRequest(before, plan);
    case Clean(at, rest) =>
      NextRequest(before, plan);
      TimelyIsJobTrace(before + [Plain(Cleanup, at)], rest, at, at);
    case Job(k, at, rest) =>
      NamesDiffer(k, k);
      NextRequest(before, plan);
      TimelyIsJobTrace(before + [Ask(k, at)], rest, at, minute);
  }

  // ---------- The trace ----------

  function MinutePlan(): Plan {
    Job(B, 137, Clean(180, Clean(240, Job(C, 283, Clean(300, Job(A, 315, SecondPart()))))))
  }

  function SecondPart(): Plan {
    Job(E, 357, Clean(360, Job(B, 373, Job(C, 411, Clean(420, ThirdPart())))))
  }

  function ThirdPart(): Plan {
    Clean(480, Clean(540, Clean(600, Job(B, 626, Clean(660, FourthPart())))))
  }

  function FourthPart(): Plan {
    Job(C, 676, Clean(720, Job(A, 735, Job(D, 747, Job(E, 763, End)))))
  }

  lemma FirstInSmall()
    ensures Replay(MinutePlan(), Nothing, 0, 3)
      == Replay(SecondPart(), Slot(A, 615, Slot(C, 583, Slot(B, 437, Nothing))), 0, 3)
  {
    hide SecondPart;
  }

  lemma FirstInLarge()
    ensures Replay(MinutePlan(), Nothing, 0, 4)
      == Replay(SecondPart(), Slot(A, 615, Slot(C, 583, Slot(B, 437, Nothing))), 0, 4)
  {
    hide SecondPart;
  }

  lemma SecondInSmall()
    ensures Replay(SecondPart(), Slot(A, 615, Slot(C, 583, Slot(B, 437, Nothing))), 0, 3)
      == Replay(ThirdPart(), Slot(C, 711, Slot(B, 673, Slot(E, 1257, Nothing))), 0, 3)
  {
    hide ThirdPart;
  }

  lemma SecondInLarge()
    ensures Replay(SecondPart(), Slot(A, 615, Slot(C, 583, Slot(B, 437, Nothing))), 0, 4)
      == Replay(ThirdPart(), Slot(C, 583, Slot(B, 437, Slot(E, 1257, Slot(A, 615, Nothing)))), 2, 4)
  {
    hide ThirdPart;
  }

  lemma ThirdInSmall()
    ensures Replay(ThirdPart(), Slot(C, 711, Slot(B, 673, Slot(E, 1257, Nothing))), 0, 3)
      == Replay(FourthPart(), Slot(B, 673, Slot(C, 711, Slot(E, 1257, Nothing))), 1, 3)
  {
    hide FourthPart;
  }

  lemma ThirdInLarge()
    ensures Replay(ThirdPart(), Slot(C, 583, Slot(B, 437, Slot(E, 1257, Slot(A, 615, Nothing)))), 2, 4)
      == Replay(FourthPart(), Slot(B, 926, Slot(E, 1257, Nothing)), 2, 4)
  {
    hide FourthPart;
  }

  lemma FourthInSmall()
    ensures Replay(FourthPart(), Slot(B, 673, Slot(C, 711, Slot(E, 1257, Nothing))), 1, 3)
      == 3
  {
  }

  lemma FourthInLarge()
    ensures Replay(FourthPart(), Slot(B, 926, Slot(E, 1257, Nothing)), 2, 4)
      == 2
  {
  }

  lemma PlanIsTimely()
    ensures Timely(MinutePlan(), 120, 120)
  {
    RestIsTimely();
    hide SecondPart;
  }

  lemma RestIsTimely()
    ensures Timely(SecondPart(), 315, 300)
  {
    LastIsTimely();
    hide ThirdPart;
  }

  lemma LastIsTimely()
    ensures Timely(ThirdPart(), 420, 420)
  {
    assert Timely(FourthPart(), 660, 660);
    hide FourthPart;
  }

  /** Three hits with room for three keys, two with room for four. At 720 the timer makes room in the smaller cache
      alone, since the larger one has stored the keys it drops again later; the larger one then evicts e. */
  lemma MinuteCleanupLosesHits()
    ensures Timely(MinutePlan(), 120, 120) && JobTrace(Requests(MinutePlan()), TtlOf)
    ensures Hits(Requests(MinutePlan()), 3) == 3 && Hits(Requests(MinutePlan()), 4) == 2
    ensures !InStep(Requests(MinutePlan()), 3, 4)
  {
    PlanIsTimely();
    FirstInSmall();
    SecondInSmall();
    ThirdInSmall();
    FourthInSmall();
    FirstInLarge();
    SecondInLarge();
    ThirdInLarge();
    FourthInLarge();
    hide MinutePlan, SecondPart, ThirdPart, FourthPart, Replay, Asked, Timely, Requests;
    var trace := Requests(MinutePlan());
    assert [] + trace == trace;
    TimelyIsJobTrace([], MinutePlan(), 120, 120);
    EmptyShows();
    ReplayIsHits([], MinutePlan(), Nothing, 3);
    ReplayIsHits([], MinutePlan(), Nothing, 4);
    if InStep(trace, 3, 4) {
      JobHitsGrowWithSize(trace, 3, 4, TtlOf);
      assert false;
    }
  }

  lemma EmptyShows()
    ensures forall size: nat :: size >= 1 ==> Shows(ServeAll([], size), Nothing) && Hits<int>([], size) == 0
  {
  }
}
