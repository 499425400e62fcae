/** What JobCacheService keeps of a result and what it makes of it on a hit. */
module JobResults {
  import opened Options
  import opened Strings
  import opened CacheKeys

  /** Results are JSON values; numbers are integers here. */
  datatype Json =
    | Null
    | Bool(b: bool)
    | Num(n: int)
    | Str(s: string)
    | Arr(items: seq<Json>)
    | Obj(fields: map<string, Json>)

  predicate Truthy(j: Json) {
    match j
    case Null => false
    case Bool(b) => b
    case Num(n) => n != 0
    case Str(s) => s != ""
    case _ => true
  }

  const SECRETS: set<string> := {"token", "password", "jwt"}

  function CachedMeta(at: int): Json {
    Obj(map["cached" := Bool(true), "cachedAt" := Num(at), "version" := Str("1.0")])
  }

  function HitMeta(key: string, at: int): Json {
    Obj(map["hit" := Bool(true), "key" := Str(key), "timestamp" := Num(at)])
  }

  /** A secret is deleted only when its value is truthy. */
  function WithoutSecrets(fields: map<string, Json>): map<string, Json> {
    fields - (set k | k in SECRETS && k in fields && Truthy(fields[k]))
  }

  /** prepareCacheableResult. Assigning `_cache` to a primitive or null throws, which returns the result as it
      is; on an array it adds a property that every read overwrites. */
  function PrepareCacheable(result: Json, at: int): Json {
    match result
    case Obj(f) => Obj(WithoutSecrets(f)["_cache" := CachedMeta(at)])
    case _ => result
  }

  /** Object spread: arrays and strings spread by index, other primitives to nothing. */
  function Spread(j: Json): map<string, Json> {
    match j
    case Obj(f) => f
    case Arr(items) => Indexed(items)
    case Str(s) => Indexed(seq(|s|, i requires 0 <= i < |s| => Str([s[i]])))
    case _ => map[]
  }

  function Indexed(items: seq<Json>): map<string, Json> {
    if items == [] then map[]
    else Indexed(items[..|items| - 1])[Decimal(|items| - 1) := items[|items| - 1]]
  }

  function Present(stored: Json, key: string, at: int): Json {
    Obj(Spread(stored)["_cache" := HitMeta(key, at)])
  }

  /** A result up to the fields the cache may change. */
  function Public(j: Json): Json {
    match j
    case Obj(f) => Obj(f - (SECRETS + {"_cache"}))
    case _ => j
  }

  /** What comes back from the cache agrees with what went in if and only if it is an object. */
  lemma RoundTripExactlyForObjects(result: Json, key: string, storedAt: int, now: int)
    ensures Public(Present(PrepareCacheable(result, storedAt), key, now)) == Public(result) <==> result.Obj?
  {
    if result.Obj? {
      var f := result.fields;
      var g := WithoutSecrets(f)["_cache" := CachedMeta(storedAt)]["_cache" := HitMeta(key, now)];
      forall k | k !in SECRETS + {"_cache"} ensures k in g <==> k in f {
      }
      assert g - (SECRETS + {"_cache"}) == f - (SECRETS + {"_cache"});
    }
  }

  /** No truthy secret survives storing. */
  lemma SecretsAreDropped(fields: map<string, Json>, at: int, key: string, now: int, secret: string)
    requires secret in SECRETS
    ensures var shown := Present(PrepareCacheable(Obj(fields), at), key, now).fields;
      secret in shown ==> secret in fields && shown[secret] == fields[secret] && !Truthy(fields[secret])
  {
  }

  /** The falsy JSON values. */
  lemma TruthyExactlyWhen(j: Json)
    ensures Truthy(j) <==> j !in {Null, Bool(false), Num(0), Str("")}
  {
  }

  /** What is served of an object that was stored: every field but `_cache` and the secrets as it was, a secret only
      when it is falsy, and `_cache` with the key and the time of the hit. */
  lemma ServedFields(fields: map<string, Json>, at: int, key: string, now: int)
    ensures var shown := Present(PrepareCacheable(Obj(fields), at), key, now);
      && shown.Obj?
      && (forall k :: k !in {"_cache", "token", "password", "jwt"} ==>
            (k in shown.fields <==> k in fields) && (k in fields ==> shown.fields[k] == fields[k]))
      && (forall k :: k in {"token", "password", "jwt"} ==>
            (k in shown.fields <==> k in fields && fields[k] in {Null, Bool(false), Num(0), Str("")})
            && (k in shown.fields ==> shown.fields[k] == fields[k]))
      && "_cache" in shown.fields
      && shown.fields["_cache"] == Obj(map["hit" := Bool(true), "key" := Str(key), "timestamp" := Num(now)])
  {
    forall j ensures Truthy(j) <==> j !in {Null, Bool(false), Num(0), Str("")} {
      TruthyExactlyWhen(j);
    }
    hide Truthy;
  }

  /** What is stored carries its own `_cache` until then; what is no object is stored as it is. */
  lemma StoredFields(result: Json, at: int)
    ensures var stored := PrepareCacheable(result, at);
      if result.Obj? then
        && stored.Obj? && "_cache" in stored.fields
        && stored.fields["_cache"] == Obj(map["cached" := Bool(true), "cachedAt" := Num(at), "version" := Str("1.0")])
      else stored == result
  {
  }

  /** The text is an index below n. */
  ghost predicate IsIndex(k: string, n: nat) {
    exists i: nat :: i < n && k == Decimal(i)
  }

  /** An array is served as an object of its items by index, a string as one of its characters, and any other value as
      `_cache` alone. */
  lemma ServedOtherwise(items: seq<Json>, text: string, other: Json, key: string, now: int)
    requires other.Null? || other.Bool? || other.Num?
    ensures var arr := Present(Arr(items), key, now).fields;
      && (forall k :: k != "_cache" ==> (k in arr <==> IsIndex(k, |items|)))
      && (forall i: nat :: i < |items| ==> Decimal(i) in arr && arr[Decimal(i)] == items[i])
    ensures var str := Present(Str(text), key, now).fields;
      && (forall k :: k != "_cache" ==> (k in str <==> IsIndex(k, |text|)))
      && (forall i: nat :: i < |text| ==> Decimal(i) in str && str[Decimal(i)] == Str([text[i]]))
    ensures Present(other, key, now).fields.Keys == {"_cache"}
  {
    IndexedIs(items);
    IndexedIs(seq(|text|, i requires 0 <= i < |text| => Str([text[i]])));
    forall i: nat ensures Decimal(i) != "_cache" {
      DecimalFreeOf(i, '_');
      assert "_cache"[0] in "_cache";
    }
    hide Indexed, Decimal, IsIndex;
  }

  lemma {:induction false} IndexedIs(items: seq<Json>)
    ensures forall k :: k in Indexed(items) <==> IsIndex(k, |items|)
    ensures forall i: nat :: i < |items| ==> Decimal(i) in Indexed(items) && Indexed(items)[Decimal(i)] == items[i]
  {
    hide Decimal;
    if items != [] {
      var n := |items| - 1;
      IndexedIs(items[..n]);
      forall i: nat | i < n ensures Decimal(i) != Decimal(n) {
        if Decimal(i) == Decimal(n) {
          DecimalInjective(i, n);
        }
      }
      forall k ensures IsIndex(k, |items|) <==> IsIndex(k, n) || k == Decimal(n) {
        OneMoreIndex(k, n);
      }
      hide IsIndex;
    }
  }

  lemma OneMoreIndex(k: string, n: nat)
    ensures IsIndex(k, n + 1) <==> IsIndex(k, n) || k == Decimal(n)
  {
    hide Decimal;
  }

  datatype Job = Job(url: string, request: Request)

  /** buildCacheKey; absence means the job is not cacheable. */
  function KeyOf(job: Job): (key: Option<string>)
    ensures key.Some? <==> PlainGet(job.request.verb, job.url)
    ensures key.Some? ==> key.value != ""
  {
    CacheableExactlyWhen(job.request.verb, job.url);
    ForHttpRequest(job.url, job.request)
  }
}

/** JobCacheService and the cache-aside flow of JobProcessorService, one job at a time. */
module JobProcessing {
  import opened Options
  import opened CacheKeys
  import opened CacheTables
  import opened Capacity
  import opened LruCache
  import opened JobResults

  datatype Dispatched = Resolved(result: Json) | Rejected(error: string)

  predicate ServedFromCache(t: Tables<Json>, job: Job, now: int) {
    KeyOf(job).Some? && Found(t, KeyOf(job).value, now).Hit? && Truthy(Found(t, KeyOf(job).value, now).value)
  }

  /** A job is served from the cache exactly when it is a plain GET and its key is held, unexpired, with a value that is
      not falsy. */
  lemma ServedExactlyWhen(t: Tables<Json>, job: Job, now: int)
    ensures ServedFromCache(t, job, now) <==>
      && PlainGet(job.request.verb, job.url) && HttpRequestKey(job.request) in t.cache
      && var entry := t.cache[HttpRequestKey(job.request)];
         now <= entry.expiry && entry.value !in {Null, Bool(false), Num(0), Str("")}
  {
    hide PlainGet, HttpRequestKey;
    KeyOfPlainGet(job);
    if HttpRequestKey(job.request) in t.cache {
      TruthyExactlyWhen(t.cache[HttpRequestKey(job.request)].value);
    }
  }

  lemma KeyOfPlainGet(job: Job)
    ensures KeyOf(job) == if PlainGet(job.request.verb, job.url) then Some(HttpRequestKey(job.request)) else None
  {
    hide IsCacheable, PlainGet, HttpRequestKey;
  }

  class JobCacheService {
    const cacheService: LRUCacheService<Json>

    ghost predicate Valid()
      reads this, cacheService
    {
      cacheService.Valid() && cacheService.maxSize >= 1 && "" !in cacheService.cache
    }

    constructor (cacheService: LRUCacheService<Json>)
      requires cacheService.Valid() && cacheService.maxSize >= 1 && "" !in cacheService.cache
      ensures Valid() && this.cacheService == cacheService
    {
      this.cacheService := cacheService;
    }

    method TryGetFromCache(job: Job, now: int) returns (cached: Option<Json>)
      requires Valid()
      modifies cacheService
      ensures Valid()
      ensures var t := old(cacheService.Model());
        && cached.Some? == ServedFromCache(t, job, now)
        && (cached.Some? ==> cached.value == Present(Found(t, KeyOf(job).value, now).value, KeyOf(job).value, now))
        && cacheService.Model() == if KeyOf(job).Some? then Lookup(t, KeyOf(job).value, now) else t
    {
      var cacheKey := KeyOf(job);
      if cacheKey.None? {
        return None;
      }
      var cachedResult := cacheService.Get(cacheKey.value, now);
      if cachedResult.Hit? && Truthy(cachedResult.value) {
        return Some(Present(cachedResult.value, cacheKey.value, now));
      }
      return None;
    }

    method TryStoreInCache(job: Job, result: Json, now: int)
      requires Valid()
      modifies cacheService
      ensures Valid()
      ensures var t := old(cacheService.Model());
        && (KeyOf(job).None? ==> cacheService.Model() == t)
        && (KeyOf(job).Some? ==> StoredFrom(t, cacheService.Model(), cacheService.maxSize, KeyOf(job).value,
                                            PrepareCacheable(result, now), TtlFor(job.url), now))
    {
      var cacheKey := KeyOf(job);
      if cacheKey.None? {
        return;
      }
      var ttl := TtlFor(job.url);
      var cacheableResult := PrepareCacheable(result, now);
      NonEmptyKeysCanTrim(cacheService.Model(), cacheService.maxSize);
      TrimDropsOnly(cacheService.Model(), cacheService.maxSize);
      cacheService.Set(cacheKey.value, cacheableResult, Some(ttl), now);
    }
  }

  /** `after` is `before` once `set` has run. */
  ghost predicate StoredFrom(before: Tables<Json>, after: Tables<Json>, maxSize: int, key: string, value: Json, ttl: int, now: int) {
    Coherent(before) && CanTrim(before, maxSize)
    && after == Store(Trim(before, maxSize), key, NewEntry(value, ttl, now), now)
  }

  class JobProcessorService {
    const cache: JobCacheService

    constructor (cache: JobCacheService)
      ensures this.cache == cache
    {
      this.cache := cache;
    }

    /** processJob: `dispatched` is what the microservice would answer, read only on a cache miss. */
    method ProcessJob(job: Job, dispatched: Dispatched, now: int, later: int)
      returns (outcome: Dispatched, usedBackend: bool)
      requires cache.Valid()
      modifies cache.cacheService
      ensures cache.Valid()
      ensures usedBackend <==> !ServedFromCache(old(cache.cacheService.Model()), job, now)
      ensures !usedBackend ==> PlainGet(job.request.verb, job.url)
      ensures usedBackend ==> outcome == dispatched
      ensures !usedBackend ==>
        var key := KeyOf(job).value;
        outcome == Resolved(Present(Found(old(cache.cacheService.Model()), key, now).value, key, now))
      ensures var t := old(cache.cacheService.Model());
        var looked := if KeyOf(job).Some? then Lookup(t, KeyOf(job).value, now) else t;
        && (!usedBackend || dispatched.Rejected? || KeyOf(job).None? ==> cache.cacheService.Model() == looked)
        && (usedBackend && dispatched.Resolved? && KeyOf(job).Some? ==>
              StoredFrom(looked, cache.cacheService.Model(), cache.cacheService.maxSize, KeyOf(job).value,
                         PrepareCacheable(dispatched.result, later), TtlFor(job.url), later))
    {
      var cached := cache.TryGetFromCache(job, now);
      if cached.Some? {
        return Resolved(cached.value), false;
      }
      if dispatched.Resolved? {
        cache.TryStoreInCache(job, dispatched.result, later);
      }
      return dispatched, true;
    }
  }
}

/**
 * Many jobs at once: workers look up, dispatch and store without waiting for one another, while sets of the
 * cache proceed step by step and anything else may happen to the cache.
 */
module JobRuns {
  import opened Options
  import opened CacheKeys
  import opened CacheTables
  import opened JobResults
  import JobProcessing
  import Cache = InterleavedCache

  type JobId = nat

  /** `answeredAt` is when a hit was read from the cache. */
  datatype Answer = Direct(job: Job, result: Json) | Cached(job: Job, result: Json, answeredAt: int) | Failed(job: Job)

  /** What the backend answered to a job, and when; nothing is assumed of it. */
  datatype Response = Response(job: Job, at: int, result: Json)

  /** `responses` is a history of all answers of the backend. */
  datatype State = State(
    cache: Cache.System<Json>,
    waiting: map<JobId, Job>,
    done: map<JobId, Answer>,
    responses: seq<Response>)

  datatype Step =
    | Submit(id: JobId, job: Job)
    | Respond(id: JobId, task: nat, result: Json)
    | Fail(id: JobId)
    | CacheStep(step: Cache.Step<Json>)

  datatype Event = Event(step: Step, at: int)

  function Start(): State {
    State(Cache.Start(), map[], map[], [])
  }

  predicate Enabled(s: State, step: Step) {
    match step
    case Submit(id, _) => id !in s.waiting && id !in s.done
    case Respond(id, task, _) => id in s.waiting && task !in s.cache.tasks
    case Fail(id) => id in s.waiting
    case CacheStep(c) => !c.BeginSet? && Cache.Enabled(s.cache, c)
  }

  predicate Served(s: State, job: Job, now: int) {
    KeyOf(job).Some? && Found(s.cache.tables, KeyOf(job).value, now).Hit?
    && Truthy(Found(s.cache.tables, KeyOf(job).value, now).value)
  }

  ghost function Next(s: State, e: Event, maxSize: nat): State
    requires Enabled(s, e.step)
  {
    match e.step
    case Submit(id, job) =>
      var cache := if KeyOf(job).None? then s.cache
                   else Cache.Next(s.cache, Cache.Event(Cache.Get(KeyOf(job).value), e.at), maxSize);
      if Served(s, job, e.at) then
        var key := KeyOf(job).value;
        var shown := Present(Found(s.cache.tables, key, e.at).value, key, e.at);
        s.(cache := cache, done := s.done[id := Cached(job, shown, e.at)])
      else s.(cache := cache, waiting := s.waiting[id := job])
    case Respond(id, task, result) =>
      var job := s.waiting[id];
      State(if KeyOf(job).None? then s.cache
            else Cache.Next(s.cache, Cache.Event(StoreStep(job, task, result, e.at), e.at), maxSize),
            s.waiting - {id},
            s.done[id := Direct(job, result)],
            s.responses + [Response(job, e.at, result)])
    case Fail(id) => s.(waiting := s.waiting - {id}, done := s.done[id := Failed(s.waiting[id])])
    case CacheStep(c) => s.(cache := Cache.Next(s.cache, Cache.Event(c, e.at), maxSize))
  }

  function StoreStep(job: Job, task: nat, result: Json, at: int): Cache.Step<Json>
    requires KeyOf(job).Some?
  {
    Cache.BeginSet(task, KeyOf(job).value, PrepareCacheable(result, at), TtlFor(job.url))
  }

  ghost predicate Legal(events: seq<Event>, maxSize: nat)
    decreases |events|, 0
  {
    events == [] ||
    var n := |events| - 1;
    Legal(events[..n], maxSize) && Enabled(After(events[..n], maxSize), events[n].step)
  }

  ghost function After(events: seq<Event>, maxSize: nat): State
    requires Legal(events, maxSize)
    decreases |events|, 1
  {
    if events == [] then Start()
    else Next(After(events[..|events| - 1], maxSize), events[|events| - 1], maxSize)
  }

  // ---------- What is held was answered by the backend ----------

  /** The entry comes from this response. */
  predicate CameFrom(r: Response, key: string, o: Cache.Origin<Json>) {
    && KeyOf(r.job) == Some(key)
    && o == Cache.Origin(PrepareCacheable(r.result, r.at), r.at, r.at + TtlFor(r.job.url))
  }

  ghost predicate Answered(responses: seq<Response>, key: string, o: Cache.Origin<Json>) {
    exists i :: 0 <= i < |responses| && CameFrom(responses[i], key, o)
  }

  ghost predicate AllAnswered(s: State) {
    forall key, o :: Cache.Holds(s.cache, key, o) ==> Answered(s.responses, key, o)
  }

  /** A cached answer shows an unexpired response to a job with the same key. */
  predicate ShownFrom(r: Response, a: Answer)
    requires a.Cached?
  {
    && KeyOf(a.job).Some? && KeyOf(r.job) == KeyOf(a.job)
    && a.answeredAt <= r.at + TtlFor(r.job.url)
    && Truthy(PrepareCacheable(r.result, r.at))
    && a.result == Present(PrepareCacheable(r.result, r.at), KeyOf(a.job).value, a.answeredAt)
  }

  /** A direct answer is a response to that very job. */
  predicate Gives(r: Response, a: Answer)
    requires a.Direct?
  {
    r.job == a.job && r.result == a.result
  }

  ghost predicate GoodAnswer(a: Answer, responses: seq<Response>) {
    match a
    case Direct(job, result) => exists i :: 0 <= i < |responses| && Gives(responses[i], a)
    case Cached(_, _, _) => exists i :: 0 <= i < |responses| && ShownFrom(responses[i], a)
    case Failed(_) => true
  }

  ghost predicate Sound(s: State) {
    AllAnswered(s) && forall id :: id in s.done ==> GoodAnswer(s.done[id], s.responses)
  }

  lemma AnsweredLonger(responses: seq<Response>, r: Response, key: string, o: Cache.Origin<Json>)
    ensures Answered(responses, key, o) ==> Answered(responses + [r], key, o)
    ensures CameFrom(r, key, o) ==> Answered(responses + [r], key, o)
  {
    if Answered(responses, key, o) {
      var i :| 0 <= i < |responses| && CameFrom(responses[i], key, o);
      assert CameFrom((responses + [r])[i], key, o);
    }
    if CameFrom(r, key, o) {
      assert CameFrom((responses + [r])[|responses|], key, o);
    }
  }

  lemma GoodLonger(a: Answer, responses: seq<Response>, r: Response)
    requires GoodAnswer(a, responses)
    ensures GoodAnswer(a, responses + [r])
  {
    if a.Cached? {
      var i :| 0 <= i < |responses| && ShownFrom(responses[i], a);
      assert ShownFrom((responses + [r])[i], a);
    }
    if a.Direct? {
      var i :| 0 <= i < |responses| && Gives(responses[i], a);
      assert Gives((responses + [r])[i], a);
    }
  }

  lemma CacheMoves(s: State, c: Cache.Event<Json>, maxSize: nat)
    requires AllAnswered(s) && Cache.Enabled(s.cache, c.step)
    ensures forall key, o :: Cache.Holds(Cache.Next(s.cache, c, maxSize), key, o) ==>
      Cache.Makes(c, key, o) || Answered(s.responses, key, o)
  {
    hide Cache.Next, Cache.Makes, Cache.Holds, Answered;
    forall key, o | Cache.Holds(Cache.Next(s.cache, c, maxSize), key, o)
      ensures Cache.Makes(c, key, o) || Answered(s.responses, key, o)
    {
      Cache.NextInvents(s.cache, c, maxSize, key, o);
    }
  }

  /** What a hit shows was answered by the backend. */
  lemma ServedAnswer(s: State, job: Job, at: int)
    requires AllAnswered(s) && Served(s, job, at)
    ensures var key := KeyOf(job).value;
      GoodAnswer(Cached(job, Present(Found(s.cache.tables, key, at).value, key, at), at), s.responses)
  {
    var key := KeyOf(job).value;
    var o := Cache.OriginOf(s.cache.tables.cache[key]);
    assert Cache.Holds(s.cache, key, o);
    var i :| 0 <= i < |s.responses| && CameFrom(s.responses[i], key, o);
    assert ShownFrom(s.responses[i], Cached(job, Present(Found(s.cache.tables, key, at).value, key, at), at));
  }

  lemma SubmitSound(s: State, id: JobId, job: Job, at: int, maxSize: nat)
    requires Sound(s) && Enabled(s, Submit(id, job))
    ensures Sound(Next(s, Event(Submit(id, job), at), maxSize))
  {
    if KeyOf(job).Some? {
      CacheMoves(s, Cache.Event(Cache.Get(KeyOf(job).value), at), maxSize);
    }
    if Served(s, job, at) {
      ServedAnswer(s, job, at);
    }
    hide Cache.Holds, Answered, GoodAnswer, KeyOf, Present, Served, Cache.Next;
  }

  lemma RespondSound(s: State, id: JobId, task: nat, result: Json, at: int, maxSize: nat)
    requires Sound(s) && Enabled(s, Respond(id, task, result))
    ensures Sound(Next(s, Event(Respond(id, task, result), at), maxSize))
  {
    var job := s.waiting[id];
    var r := Response(job, at, result);
    var t := Next(s, Event(Respond(id, task, result), at), maxSize);
    if KeyOf(job).Some? {
      CacheMoves(s, Cache.Event(StoreStep(job, task, result, at), at), maxSize);
    }
    forall key, o | Cache.Holds(t.cache, key, o) ensures Answered(t.responses, key, o) {
      AnsweredLonger(s.responses, r, key, o);
    }
    forall j | j in t.done ensures GoodAnswer(t.done[j], t.responses) {
      if j != id {
        GoodLonger(s.done[j], s.responses, r);
      } else {
        assert Gives(t.responses[|s.responses|], t.done[id]);
      }
    }
  }

  lemma NextSound(s: State, e: Event, maxSize: nat)
    requires Sound(s) && Enabled(s, e.step)
    ensures Sound(Next(s, e, maxSize))
  {
    match e.step
    case Submit(id, job) => SubmitSound(s, id, job, e.at, maxSize);
    case Respond(id, task, result) => RespondSound(s, id, task, result, e.at, maxSize);
    case Fail(id) => hide AllAnswered, Answered;
    case CacheStep(c) => CacheMoves(s, Cache.Event(c, e.at), maxSize);
  }

  lemma {:induction false} SoundInEveryRun(events: seq<Event>, maxSize: nat)
    requires Legal(events, maxSize)
    ensures Sound(After(events, maxSize))
    decreases |events|
  {
    if events == [] {
      forall key, o ensures !Cache.Holds(Start().cache, key, o) {
        Cache.StartHoldsNothing<Json>(key, o);
      }
    } else {
      hide Sound, Next, Enabled;
      var n := |events| - 1;
      SoundInEveryRun(events[..n], maxSize);
      NextSound(After(events[..n], maxSize), events[n], maxSize);
    }
  }

  // ---------- Main results ----------

  /** Every answer goes back to a response of the backend: a direct one to a response to that very job, a cached
      one to a response to a job of the same key, given at most its time-to-live earlier. It shows that response
      up to `_cache` and the secrets exactly when the response is an object. Jobs that are not cacheable are
      never answered from the cache. */
  lemma CachedAnswersAreFresh(events: seq<Event>, maxSize: nat, id: JobId) returns (r: Response)
    requires Legal(events, maxSize) && id in After(events, maxSize).done && !After(events, maxSize).done[id].Failed?
    ensures var s := After(events, maxSize); var a := s.done[id];
      && r in s.responses
      && (a.Direct? ==> r.job == a.job && r.result == a.result)
      && (a.Cached? ==>
            && PlainGet(a.job.request.verb, a.job.url)
            && KeyOf(r.job) == KeyOf(a.job)
            && a.answeredAt <= r.at + TtlFor(r.job.url)
            && a.result == Present(PrepareCacheable(r.result, r.at), KeyOf(a.job).value, a.answeredAt)
            && (Public(a.result) == Public(r.result) <==> r.result.Obj?))
  {
    SoundInEveryRun(events, maxSize);
    var s := After(events, maxSize);
    var a := s.done[id];
    assert GoodAnswer(a, s.responses);
    if a.Cached? {
      var i :| 0 <= i < |s.responses| && ShownFrom(s.responses[i], a);
      r := s.responses[i];
      RoundTripExactlyForObjects(r.result, KeyOf(a.job).value, r.at, a.answeredAt);
    } else {
      var i :| 0 <= i < |s.responses| && Gives(s.responses[i], a);
      r := s.responses[i];
    }
  }

  ghost predicate IsPlain(job: Job) {
    PlainGet(job.request.verb, job.url)
  }

  /** Over every run: only plain GETs are answered from the cache, and only answers to plain GETs are ever held. */
  lemma OnlyPlainGetsAreCached(events: seq<Event>, maxSize: nat)
    requires Legal(events, maxSize)
    ensures var s := After(events, maxSize);
      && (forall id :: id in s.done && s.done[id].Cached? ==> IsPlain(s.done[id].job))
      && (forall key, o :: Cache.Holds(s.cache, key, o) ==>
            (exists i :: 0 <= i < |s.responses| && CameFrom(s.responses[i], key, o) && IsPlain(s.responses[i].job)))
  {
    SoundInEveryRun(events, maxSize);
    var s := After(events, maxSize);
    forall id | id in s.done && s.done[id].Cached? ensures IsPlain(s.done[id].job) {
      assert GoodAnswer(s.done[id], s.responses);
      var i :| 0 <= i < |s.responses| && ShownFrom(s.responses[i], s.done[id]);
    }
    forall key, o | Cache.Holds(s.cache, key, o)
      ensures exists i :: 0 <= i < |s.responses| && CameFrom(s.responses[i], key, o) && IsPlain(s.responses[i].job)
    {
      assert Answered(s.responses, key, o);
      var i :| 0 <= i < |s.responses| && CameFrom(s.responses[i], key, o);
      assert IsPlain(s.responses[i].job);
    }
  }

  /** And a plain GET whose key is held, unexpired and not falsy, is answered at once from what is held; every other job
      waits for the backend. */
  lemma HeldIsServed(s: State, id: JobId, job: Job, at: int, maxSize: nat)
    requires Enabled(s, Submit(id, job))
    ensures var t := Next(s, Event(Submit(id, job), at), maxSize); var key := HttpRequestKey(job.request);
      if PlainGet(job.request.verb, job.url) && key in s.cache.tables.cache && at <= s.cache.tables.cache[key].expiry
         && s.cache.tables.cache[key].value !in {Null, Bool(false), Num(0), Str("")} then
        && t.waiting == s.waiting && id in t.done && t.responses == s.responses
        && t.done[id] == Cached(job, Present(s.cache.tables.cache[key].value, key, at), at)
      else t.done == s.done && t.waiting == s.waiting[id := job] && t.responses == s.responses
  {
    hide PlainGet, HttpRequestKey, Cache.Next, Present;
    JobProcessing.KeyOfPlainGet(job);
    hide KeyOf;
    var key := HttpRequestKey(job.request);
    if key in s.cache.tables.cache {
      TruthyExactlyWhen(s.cache.tables.cache[key].value);
    }
  }

  /** An answer is recorded and given to its job, and that to a plain GET begins to be stored, under the key and for the
      time of the job; a lookup counts as an access of the cache. */
  lemma AnswersAreStored(s: State, id: JobId, job: Job, task: nat, result: Json, at: int, maxSize: nat)
    ensures Enabled(s, Respond(id, task, result)) && s.waiting[id] == job ==>
      var t := Next(s, Event(Respond(id, task, result), at), maxSize);
      && t.waiting == s.waiting - {id} && t.done == s.done[id := Direct(job, result)]
      && t.responses == s.responses + [Response(job, at, result)]
      && t.cache ==
         if !IsPlain(job) then s.cache
         else
           var key, value := HttpRequestKey(job.request), PrepareCacheable(result, at);
           Cache.Next(s.cache, Cache.Event(Cache.BeginSet(task, key, value, TtlFor(job.url)), at), maxSize)
    ensures Enabled(s, Submit(id, job)) ==>
      Next(s, Event(Submit(id, job), at), maxSize).cache ==
        if !IsPlain(job) then s.cache
        else Cache.Next(s.cache, Cache.Event(Cache.Get(HttpRequestKey(job.request)), at), maxSize)
  {
    hide PlainGet, HttpRequestKey, Cache.Next, Present, PrepareCacheable, TtlFor;
    JobProcessing.KeyOfPlainGet(job);
    hide KeyOf;
  }

  /** When each step can happen: a job is submitted once, an answer or failure comes while it waits, and the cache steps
      of others come whenever the cache allows, but for sets, which only answers begin. */
  lemma EnabledExactlyWhen(s: State, step: Step)
    ensures Enabled(s, step) <==>
      match step
      case Submit(id, _) => !(id in s.waiting || id in s.done)
      case Respond(id, task, _) => !(id !in s.waiting || task in s.cache.tasks)
      case Fail(id) => id in s.waiting
      case CacheStep(c) => Cache.Enabled(s.cache, c) && forall i, k, v, ttl :: c != Cache.BeginSet(i, k, v, ttl)
  {
    if step.CacheStep? && step.step.BeginSet? {
      var c := step.step;
      assert c == Cache.BeginSet(c.id, c.key, c.value, c.ttl);
    }
  }

  /** One job, answered with an object and stored, then the same job again within its time-to-live: a plain GET is
      answered from the cache, and any other waits for the backend once more. */
  lemma RepeatedJob(job: Job, fields: map<string, Json>, at: int, later: int, maxSize: nat)
    requires maxSize >= 1 && at <= later <= at + TtlFor(job.url)
    ensures var first := [Event(Submit(0, job), at), Event(Respond(0, 0, Obj(fields)), at)];
      && Legal(first, maxSize)
      && var stored := if IsPlain(job) then first + [Event(CacheStep(Cache.FinishSet(0)), at)] else first;
      && Legal(stored + [Event(Submit(1, job), later)], maxSize)
      && var s := After(stored + [Event(Submit(1, job), later)], maxSize);
      if IsPlain(job) then
        1 in s.done && s.done[1] == Cached(job, Present(PrepareCacheable(Obj(fields), at), HttpRequestKey(job.request), later), later)
        && |s.responses| == 1
      else 1 in s.waiting && s.waiting[1] == job && 1 !in s.done
  {
    hide PlainGet, HttpRequestKey, PrepareCacheable, TtlFor, Present, KeyOf, IsPlain;
    var key := HttpRequestKey(job.request);
    var first := FirstAnswered(job, fields, at, maxSize);
    var s := After(first, maxSize);
    if IsPlain(job) {
      StoredFirst(s, job, fields, at, maxSize);
      OneMore(first, Event(CacheStep(Cache.FinishSet(0)), at), maxSize);
      var stored := first + [Event(CacheStep(Cache.FinishSet(0)), at)];
      HeldIsServed(After(stored, maxSize), 1, job, later, maxSize);
      PlainIs(job);
      OneMore(stored, Event(Submit(1, job), later), maxSize);
    } else {
      HeldIsServed(s, 1, job, later, maxSize);
      PlainIs(job);
      OneMore(first, Event(Submit(1, job), later), maxSize);
    }
  }

  lemma PlainIs(job: Job)
    ensures IsPlain(job) <==> PlainGet(job.request.verb, job.url)
  {
  }

  lemma OneMore(events: seq<Event>, e: Event, maxSize: nat)
    requires Legal(events, maxSize) && Enabled(After(events, maxSize), e.step)
    ensures Legal(events + [e], maxSize) && After(events + [e], maxSize) == Next(After(events, maxSize), e, maxSize)
  {
    assert (events + [e])[..|events|] == events;
  }

  lemma FirstAnswered(job: Job, fields: map<string, Json>, at: int, maxSize: nat) returns (first: seq<Event>)
    requires maxSize >= 1
    ensures first == [Event(Submit(0, job), at), Event(Respond(0, 0, Obj(fields)), at)] && Legal(first, maxSize)
    ensures var s := After(first, maxSize);
      && s.waiting == map[] && s.done.Keys == {0} && s.responses == [Response(job, at, Obj(fields))]
      && s.cache.tables == Empty()
      && s.cache.tasks == if !IsPlain(job) then map[]
           else map[0 := Cache.Task(HttpRequestKey(job.request), NewEntry(PrepareCacheable(Obj(fields), at), TtlFor(job.url), at), true)]
  {
    hide PlainGet, HttpRequestKey, PrepareCacheable, TtlFor, Present, KeyOf, IsPlain;
    var none: seq<Event> := [];
    HeldIsServed(Start(), 0, job, at, maxSize);
    AnswersAreStored(Start(), 0, job, 0, Obj(fields), at, maxSize);
    OneMore(none, Event(Submit(0, job), at), maxSize);
    var s := After(none + [Event(Submit(0, job), at)], maxSize);
    AnswersAreStored(s, 0, job, 0, Obj(fields), at, maxSize);
    OneMore(none + [Event(Submit(0, job), at)], Event(Respond(0, 0, Obj(fields)), at), maxSize);
    first := none + [Event(Submit(0, job), at)] + [Event(Respond(0, 0, Obj(fields)), at)];
  }

  lemma StoredFirst(s: State, job: Job, fields: map<string, Json>, at: int, maxSize: nat)
    requires s.cache == Cache.System(Empty(), map[0 := Cache.Task(HttpRequestKey(job.request),
                          NewEntry(PrepareCacheable(Obj(fields), at), TtlFor(job.url), at), true)])
    ensures Enabled(s, CacheStep(Cache.FinishSet(0)))
    ensures var t, key := Next(s, Event(CacheStep(Cache.FinishSet(0)), at), maxSize), HttpRequestKey(job.request);
      && t.waiting == s.waiting && t.done == s.done && t.responses == s.responses
      && key in t.cache.tables.cache
      && var entry := t.cache.tables.cache[key];
         && entry.expiry == at + TtlFor(job.url) && entry.value == PrepareCacheable(Obj(fields), at)
         && entry.value !in {Null, Bool(false), Num(0), Str("")}
  {
    hide HttpRequestKey, TtlFor;
  }

  /** As far as the run goes, the backend answers every key with one object or falsy value, up to `_cache` and
      the secrets. Of jobs that are not cacheable nothing is asked. */
  ghost predicate FixedAnswers(responses: seq<Response>, fixed: string -> Json) {
    forall r :: r in responses && KeyOf(r.job).Some? ==>
      && Public(r.result) == Public(fixed(KeyOf(r.job).value))
      && (r.result.Obj? || !Truthy(r.result))
  }

  /** Then in every interleaving each cacheable job is answered as the backend would, up to those fields, and
      every other job gets a response to itself. */
  lemma CacheIsTransparent(events: seq<Event>, maxSize: nat, id: JobId, fixed: string -> Json)
    requires Legal(events, maxSize) && id in After(events, maxSize).done && !After(events, maxSize).done[id].Failed?
    requires FixedAnswers(After(events, maxSize).responses, fixed)
    ensures var s := After(events, maxSize); var a := s.done[id];
      && (KeyOf(a.job).Some? ==> Public(a.result) == Public(fixed(KeyOf(a.job).value)))
      && (KeyOf(a.job).None? ==> exists r :: r in s.responses && r.job == a.job && r.result == a.result)
  {
    hide Public, KeyOf, Legal, After;
    var s := After(events, maxSize);
    var a := s.done[id];
    var r := CachedAnswersAreFresh(events, maxSize, id);
    SoundInEveryRun(events, maxSize);
    assert GoodAnswer(a, s.responses);
    if a.Cached? {
      var i :| 0 <= i < |s.responses| && ShownFrom(s.responses[i], a);
      var shown := s.responses[i];
      RoundTripExactlyForObjects(shown.result, KeyOf(a.job).value, shown.at, a.answeredAt);
      assert shown in s.responses;
    }
  }
}
