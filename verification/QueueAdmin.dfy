/** The administration endpoints: calls on the queue registry and the worker pool, one request at a time. */
module QueueAdmin {
  import opened Extremes
  import opened Options
  import opened QueueRegistry
  import opened WorkerPool
  import opened DynamicWorkers

  datatype Admin = Admin(registry: Registry, pool: seq<Worker>, down: bool)

  /** What a request reports: a registry or worker error it lets through, or success, possibly with a worker error in
      the answer, or with that of saving after the workers were reconciled. */
  datatype Reply = Replied(workers: WorkerOutcome) | NotRecorded | QueueError(registry: Outcome) | WorkerError(workers: WorkerOutcome)

  /** The worker count is written back to the definition while the queue has workers at all. */
  function RecordWorkers(a: Admin, name: string, luck: Luck): Admin {
    var total := |ByQueue(a.pool, name)|;
    if total > 0 then a.(registry := SetWorkers(a.registry, name, total as real, luck).0) else a
  }

  function CreateQueue(a: Admin, env: Env, d: QueueDefinition, luck: Luck, budget: nat): (Admin, Reply) {
    var (r, outcome) := Create(a.registry, d, luck);
    if outcome != Done then (a.(registry := r), QueueError(outcome))
    else
      var (pool, ensured) := Reconcile(a.pool, env, r.definitions, a.down, d.name, budget);
      (a.(registry := r, pool := pool), Replied(ensured))
  }

  predicate ChangesConcurrency(a: Admin, name: string, patch: Patch) {
    patch.concurrency.Some? && name in a.registry.definitions && patch.concurrency.value != a.registry.definitions[name].concurrency
  }

  /** The workers of the queue are replaced when its concurrency changes, then reconciled. */
  function ReconcileAfterUpdate(a: Admin, env: Env, r: Registry, name: string, patch: Patch, budget: nat): (Admin, WorkerOutcome) {
    var pool := if ChangesConcurrency(a, name, patch) then WithoutQueue(a.pool, name) else a.pool;
    var (ensured, outcome) := Reconcile(pool, env, r.definitions, a.down, name, budget);
    (Admin(r, ensured, a.down), outcome)
  }

  function Recorded(luck: Luck): Reply {
    if luck.records then Replied(Ok) else NotRecorded
  }

  function UpdateQueue(a: Admin, env: Env, name: string, patch: Patch, luck: Luck, budget: nat): (Admin, Reply) {
    var (r, outcome) := Update(a.registry, name, patch, luck);
    if outcome != Done then (a.(registry := r), QueueError(outcome))
    else
      var (b, ensured) := ReconcileAfterUpdate(a, env, r, name, patch, budget);
      if ensured != Ok then (b, Replied(ensured))
      else (RecordWorkers(b, name, luck), Recorded(luck))
  }

  function DeleteQueue(a: Admin, name: string, luck: Luck): (Admin, Reply) {
    var (r, outcome) := Remove(a.registry, name, luck);
    (a.(registry := r, pool := WithoutQueue(a.pool, name)), if outcome != Done then QueueError(outcome) else Replied(Ok))
  }

  function AddWorker(a: Admin, env: Env, name: string, creates: bool, luck: Luck): (Admin, Reply) {
    var refusal := Refusal(a.registry.definitions, a.down, name);
    if refusal != Ok then (a, WorkerError(refusal))
    else if !creates then (a, WorkerError(CreationFailed))
    else (RecordWorkers(a.(pool := Add(a.pool, env, a.registry.definitions[name])), name, luck), Replied(Ok))
  }

  function RemoveWorker(a: Admin, name: string, luck: Luck): (Admin, Reply) {
    if ByQueue(a.pool, name) == [] then (a, WorkerError(NoWorkers))
    else (RecordWorkers(a.(pool := RemoveLast(a.pool, name)), name, luck), Replied(Ok))
  }

  // ---------- The controller ----------

  class QueueAdminController {
    const queueService: DynamicQueueService
    const workerService: DynamicWorkerService

    ghost predicate Valid()
      reads queueService, workerService
    {
      workerService.queueService == queueService && workerService.Valid()
    }

    ghost function Model(): Admin
      reads queueService, workerService
    {
      Admin(queueService.Model(), workerService.workers, workerService.isShuttingDown)
    }

    constructor (queueService: DynamicQueueService, workerService: DynamicWorkerService)
      requires workerService.queueService == queueService && workerService.Valid()
      ensures Valid() && this.queueService == queueService && this.workerService == workerService
    {
      this.queueService, this.workerService := queueService, workerService;
    }

    /** The write-back shared by three requests; the definition changes whether or not it can be saved. */
    method RecordTotal(name: string, luck: Luck)
      requires Valid()
      modifies queueService
      ensures Valid() && Model() == RecordWorkers(old(Model()), name, luck)
    {
      var totals := workerService.GetWorkersStatus();
      if name in totals {
        SetWorkersKeyed(queueService.Model(), name, totals[name] as real, luck);
        var _ := queueService.SetQueueWorkers(name, totals[name] as real, luck);
      }
    }

    method Create(queueDef: QueueDefinition, luck: Luck, budget: nat) returns (reply: Reply)
      requires Valid()
      modifies queueService, workerService`workers
      ensures Valid() && (Model(), reply) == CreateQueue(old(Model()), workerService.env, queueDef, luck, budget)
    {
      CreateKeyed(queueService.Model(), queueDef, luck);
      var outcome := queueService.CreateQueue(queueDef, luck);
      if outcome != Done {
        return QueueError(outcome);
      }
      var _, _, ensured := workerService.EnsureWorkersForQueue(queueDef.name, budget);
      return Replied(ensured);
    }

    method Update(name: string, updates: Patch, luck: Luck, budget: nat) returns (reply: Reply)
      requires Valid()
      modifies queueService, workerService`workers
      ensures Valid() && (Model(), reply) == UpdateQueue(old(Model()), workerService.env, name, updates, luck, budget)
    {
      hide WellNumbered, Keyed, QueueRegistry.Update, Reconcile, WithoutQueue, SetWorkers;
      var prevConcurrency := if name in queueService.queueDefinitions then Some(queueService.queueDefinitions[name].concurrency) else None;
      UpdateKeyed(queueService.Model(), name, updates, luck);
      var outcome := queueService.UpdateQueue(name, updates, luck);
      if outcome != Done {
        return QueueError(outcome);
      }
      if updates.concurrency.Some? && prevConcurrency.Some? && updates.concurrency != prevConcurrency {
        var _ := workerService.RemoveAllWorkersForQueue(name);
      }
      var _, _, ensured := workerService.EnsureWorkersForQueue(name, budget);
      if ensured != Ok {
        return Replied(ensured);
      }
      RecordTotal(name, luck);
      return Recorded(luck);
    }

    method Delete(name: string, luck: Luck) returns (reply: Reply)
      requires Valid()
      modifies queueService, workerService`workers
      ensures Valid() && (Model(), reply) == DeleteQueue(old(Model()), name, luck)
    {
      RemoveKeyed(queueService.Model(), name, luck);
      var _ := workerService.RemoveAllWorkersForQueue(name);
      var outcome := queueService.RemoveQueue(name, luck);
      return if outcome != Done then QueueError(outcome) else Replied(Ok);
    }

    method CreateWorker(name: string, creates: bool, luck: Luck) returns (reply: Reply)
      requires Valid()
      modifies queueService, workerService`workers
      ensures Valid() && (Model(), reply) == AddWorker(old(Model()), workerService.env, name, creates, luck)
    {
      var outcome := workerService.AddWorkerForQueue(name, creates);
      if outcome != Ok {
        return WorkerError(outcome);
      }
      RecordTotal(name, luck);
      return Replied(Ok);
    }

    method DeleteWorker(name: string, luck: Luck) returns (reply: Reply)
      requires Valid()
      modifies queueService, workerService`workers
      ensures Valid() && (Model(), reply) == RemoveWorker(old(Model()), name, luck)
    {
      var outcome := workerService.RemoveWorkerForQueue(name);
      if outcome != Ok {
        return WorkerError(outcome);
      }
      RecordTotal(name, luck);
      return Replied(Ok);
    }
  }

  lemma CreateKeyed(r: Registry, d: QueueDefinition, luck: Luck)
    requires Keyed(r)
    ensures Keyed(Create(r, d, luck).0)
  {
  }

  lemma RemoveKeyed(r: Registry, name: string, luck: Luck)
    requires Keyed(r)
    ensures Keyed(Remove(r, name, luck).0)
  {
  }

  lemma UpdateKeyed(r: Registry, name: string, patch: Patch, luck: Luck)
    requires Keyed(r)
    ensures Keyed(Update(r, name, patch, luck).0)
  {
  }

  lemma SetWorkersKeyed(r: Registry, name: string, workers: real, luck: Luck)
    requires Keyed(r)
    ensures Keyed(SetWorkers(r, name, workers, luck).0)
  {
  }

  // ---------- Every live worker runs under its queue's current definition ----------

  ghost predicate Current(pool: seq<Worker>, definitions: map<string, QueueDefinition>) {
    forall w :: w in pool ==> w.queueName in definitions && w.concurrency == definitions[w.queueName].concurrency
  }

  ghost predicate Live(a: Admin, env: Env) {
    Keyed(a.registry) && WellNumbered(a.pool, env.strategy) && Current(a.pool, a.registry.definitions)
  }

  lemma ReconcileCurrent(pool: seq<Worker>, env: Env, definitions: map<string, QueueDefinition>, down: bool, name: string, budget: nat)
    requires WellNumbered(pool, env.strategy) && Current(pool, definitions)
    requires forall n :: n in definitions ==> definitions[n].name == n
    ensures var t := Reconcile(pool, env, definitions, down, name, budget).0;
      WellNumbered(t, env.strategy) && Current(t, definitions)
  {
    hide WellNumbered, ByQueue;
    if Refusal(definitions, down, name) == Ok {
      AddTimesNumbers(pool, env, definitions[name], budget);
      EnsureReachesDesired(pool, env, definitions[name]);
    }
  }

  lemma WithoutCurrent(pool: seq<Worker>, strategy: string, name: string)
    requires WellNumbered(pool, strategy)
    ensures WellNumbered(WithoutQueue(pool, name), strategy)
    ensures ByQueue(WithoutQueue(pool, name), name) == []
    ensures forall w :: w in WithoutQueue(pool, name) <==> w in pool && w.queueName != name
  {
    var n := |ByQueue(pool, name)|;
    RemoveTimesFilters(pool, strategy, name, n);
    RemoveTimesNumbers(pool, strategy, name, n);
    WithoutQueueIsQueueless(pool, name);
  }

  lemma RecordLive(a: Admin, env: Env, name: string, luck: Luck)
    requires Live(a, env)
    ensures Live(RecordWorkers(a, name, luck), env)
  {
    hide WellNumbered, ByQueue;
  }

  lemma CreateLive(a: Admin, env: Env, d: QueueDefinition, luck: Luck, budget: nat)
    requires Live(a, env)
    ensures Live(CreateQueue(a, env, d, luck, budget).0, env)
  {
    hide WellNumbered, Reconcile;
    var (r, outcome) := Create(a.registry, d, luck);
    if outcome == Done {
      ReconcileCurrent(a.pool, env, r.definitions, a.down, d.name, budget);
    }
  }

  /** An update whose registry part succeeds leaves every worker current, whatever happens to the workers. */
  lemma UpdateLive(a: Admin, env: Env, name: string, patch: Patch, luck: Luck, budget: nat)
    requires Live(a, env) && Update(a.registry, name, patch, luck).1 == Done
    ensures Live(UpdateQueue(a, env, name, patch, luck, budget).0, env)
  {
    hide WellNumbered, Reconcile, ByQueue, WithoutQueue, RecordWorkers;
    var r := Update(a.registry, name, patch, luck).0;
    WithoutCurrent(a.pool, env.strategy, name);
    var pool := if ChangesConcurrency(a, name, patch) then WithoutQueue(a.pool, name) else a.pool;
    ReconcileCurrent(pool, env, r.definitions, a.down, name, budget);
    var (b, ensured) := ReconcileAfterUpdate(a, env, r, name, patch, budget);
    RecordLive(b, env, name, luck);
  }

  lemma DeleteLive(a: Admin, env: Env, name: string, luck: Luck)
    requires Live(a, env)
    ensures Live(DeleteQueue(a, name, luck).0, env)
  {
    WithoutCurrent(a.pool, env.strategy, name);
    hide WellNumbered, WithoutQueue, ByQueue;
  }

  lemma AddWorkerLive(a: Admin, env: Env, name: string, creates: bool, luck: Luck)
    requires Live(a, env)
    ensures Live(AddWorker(a, env, name, creates, luck).0, env)
  {
    hide WellNumbered, Add, RecordWorkers;
    if Refusal(a.registry.definitions, a.down, name) == Ok {
      AddNumbers(a.pool, env, a.registry.definitions[name]);
      RecordLive(a.(pool := Add(a.pool, env, a.registry.definitions[name])), env, name, luck);
    }
  }

  lemma RemoveWorkerLive(a: Admin, env: Env, name: string, luck: Luck)
    requires Live(a, env)
    ensures Live(RemoveWorker(a, name, luck).0, env)
  {
    hide WellNumbered, RemoveLast, RecordWorkers;
    if ByQueue(a.pool, name) != [] {
      RemoveLastNumbers(a.pool, env.strategy, name);
      RecordLive(a.(pool := RemoveLast(a.pool, name)), env, name, luck);
    }
  }

  datatype Request =
    | CreateRequest(d: QueueDefinition)
    | UpdateRequest(patch: Patch)
    | DeleteRequest
    | AddWorkerRequest
    | RemoveWorkerRequest

  /** A request on a queue, and how the calls it makes turn out. */
  datatype Event = Event(name: string, request: Request, luck: Luck, budget: nat)

  function Next(a: Admin, env: Env, e: Event): Admin {
    match e.request
    case CreateRequest(d) => CreateQueue(a, env, d, e.luck, e.budget).0
    case UpdateRequest(patch) => UpdateQueue(a, env, e.name, patch, e.luck, e.budget).0
    case DeleteRequest => DeleteQueue(a, e.name, e.luck).0
    case AddWorkerRequest => AddWorker(a, env, e.name, e.budget > 0, e.luck).0
    case RemoveWorkerRequest => RemoveWorker(a, e.name, e.luck).0
  }

  function After(a: Admin, env: Env, events: seq<Event>): Admin {
    if events == [] then a else Next(After(a, env, events[..|events| - 1]), env, events[|events| - 1])
  }

  function Started(config: seq<QueueDefinition>, env: Env): Admin {
    Admin(Initialized(config), InitializePool([], env, config), false)
  }

  /** No update is cut short in a way that leaves a worker behind: there is none, the queue was not closed, or it
      was opened again and saved, or opened again without a change of concurrency. */
  predicate Harmless(a: Admin, e: Event) {
    e.request.UpdateRequest? ==>
      ByQueue(a.pool, e.name) == [] || !e.luck.closes
      || (e.luck.opens && (e.luck.saves || !ChangesConcurrency(a, e.name, e.request.patch)))
  }

  /** Exactly which updates leave a worker behind under a concurrency, or a queue, that is no longer its own. */
  lemma UpdateStaysCurrentExactlyWhen(a: Admin, env: Env, name: string, patch: Patch, luck: Luck, budget: nat)
    requires Live(a, env)
    ensures Live(UpdateQueue(a, env, name, patch, luck, budget).0, env) <==>
      ByQueue(a.pool, name) == [] || !luck.closes || (luck.opens && (luck.saves || !ChangesConcurrency(a, name, patch)))
  {
    hide WellNumbered, Reconcile, ReconcileAfterUpdate, RecordWorkers;
    ByQueueMembers(a.pool, name);
    var (r, outcome) := Update(a.registry, name, patch, luck);
    UpdateKeyed(a.registry, name, patch, luck);
    if outcome == Done {
      UpdateLive(a, env, name, patch, luck, budget);
    } else if ByQueue(a.pool, name) != [] {
      assert ByQueue(a.pool, name)[0] in ByQueue(a.pool, name);
    }
  }

  /** A request keeps all workers current if and only if it is harmless. */
  lemma NextLive(a: Admin, env: Env, e: Event)
    requires Live(a, env)
    ensures Live(Next(a, env, e), env) <==> Harmless(a, e)
  {
    hide Live, CreateQueue, UpdateQueue, DeleteQueue, AddWorker, RemoveWorker, ByQueue, ChangesConcurrency;
    match e.request
    case CreateRequest(d) => CreateLive(a, env, d, e.luck, e.budget);
    case UpdateRequest(patch) => UpdateStaysCurrentExactlyWhen(a, env, e.name, patch, e.luck, e.budget);
    case DeleteRequest => DeleteLive(a, env, e.name, e.luck);
    case AddWorkerRequest => AddWorkerLive(a, env, e.name, e.budget > 0, e.luck);
    case RemoveWorkerRequest => RemoveWorkerLive(a, env, e.name, e.luck);
  }

  ghost predicate LiveAt(a: Admin, env: Env, events: seq<Event>, i: nat)
    requires i <= |events|
  {
    Live(After(a, env, events[..i]), env)
  }

  predicate HarmlessAt(a: Admin, env: Env, events: seq<Event>, i: nat)
    requires i < |events|
  {
    Harmless(After(a, env, events[..i]), events[i])
  }

  lemma StepLive(a: Admin, env: Env, events: seq<Event>, i: nat)
    requires i < |events| && LiveAt(a, env, events, i)
    ensures LiveAt(a, env, events, i + 1) <==> HarmlessAt(a, env, events, i)
  {
    hide Live, Harmless, Next;
    assert events[..i + 1][..i] == events[..i];
    NextLive(After(a, env, events[..i]), env, events[i]);
  }

  lemma {:induction false} HarmlessStaysLive(a: Admin, env: Env, events: seq<Event>, i: nat)
    requires i <= |events| && Live(a, env) && forall k :: 0 <= k < i ==> HarmlessAt(a, env, events, k)
    ensures LiveAt(a, env, events, i)
  {
    if i == 0 {
      assert events[..0] == [];
    } else {
      hide LiveAt, HarmlessAt;
      HarmlessStaysLive(a, env, events, i - 1);
      StepLive(a, env, events, i - 1);
    }
  }

  /** Start-up that a failing creation may have cut short; the service goes on. */
  function StartedWithin(config: seq<QueueDefinition>, env: Env, budget: nat): Admin {
    Admin(Initialized(config), InitializeWithin([], env, config, budget), false)
  }

  /** From any configuration with unique names, and a start-up that may be cut short: through a run of requests each
      live worker's concurrency is its queue's current one, all along, if and only if no update is cut short with a
      worker left behind. Worker creation, saving and closing may fail at any other request. */
  lemma WorkersAreCurrentExactlyWhen(config: seq<QueueDefinition>, env: Env, budget: nat, events: seq<Event>)
    requires UniqueNames(config)
    ensures (forall i :: 0 <= i <= |events| ==> LiveAt(StartedWithin(config, env, budget), env, events, i)) <==>
      (forall i :: 0 <= i < |events| ==> HarmlessAt(StartedWithin(config, env, budget), env, events, i))
  {
    var a := StartedWithin(config, env, budget);
    StartWithinLive(config, env, budget);
    hide StartedWithin, Live, LiveAt, HarmlessAt;
    if forall i :: 0 <= i <= |events| ==> LiveAt(a, env, events, i) {
      forall i | 0 <= i < |events| ensures HarmlessAt(a, env, events, i) {
        assert LiveAt(a, env, events, i) && LiveAt(a, env, events, i + 1);
        StepLive(a, env, events, i);
      }
    }
    if forall i :: 0 <= i < |events| ==> HarmlessAt(a, env, events, i) {
      forall i | 0 <= i <= |events| ensures LiveAt(a, env, events, i) {
        HarmlessStaysLive(a, env, events, i);
      }
    }
  }

  /** What start-up has made of the entries so far. */
  ghost predicate StartedFrom(config: seq<QueueDefinition>, env: Env, pool: seq<Worker>) {
    && WellNumbered(pool, env.strategy)
    && Current(pool, EnabledDefinitions(config))
    && (forall i :: 0 <= i < |config| && config[i].enabled ==> |ByQueue(pool, config[i].name)| == Desired(env, config[i]))
    && (forall name :: name !in EnabledDefinitions(config) ==> ByQueue(pool, name) == [])
  }

  lemma EntryStarted(config: seq<QueueDefinition>, env: Env, pool: seq<Worker>, d: QueueDefinition)
    requires UniqueNames(config + [d]) && d.enabled && StartedFrom(config, env, pool)
    ensures StartedFrom(config + [d], env, CreateNumbers(pool, env, d, Desired(env, d)))
  {
    hide WellNumbered, ByQueue, Desired, AddTimes, CreateNumbers;
    var whole := config + [d];
    assert whole[..|config|] == config;
    NotYetDefined(whole, |config|);
    CreateNumbersFresh(pool, env, d, Desired(env, d));
    AddTimesNumbers(pool, env, d, Desired(env, d));
    forall i | 0 <= i < |whole| && whole[i].enabled
      ensures |ByQueue(CreateNumbers(pool, env, d, Desired(env, d)), whole[i].name)| == Desired(env, whole[i])
    {
      if i < |config| {
        assert whole[i] == config[i] && config[i].name != d.name;
      }
    }
  }

  lemma DisabledStarted(config: seq<QueueDefinition>, env: Env, pool: seq<Worker>, d: QueueDefinition)
    requires !d.enabled && StartedFrom(config, env, pool)
    ensures StartedFrom(config + [d], env, pool)
  {
    var whole := config + [d];
    assert whole[..|config|] == config;
    hide WellNumbered, ByQueue, Desired;
  }

  /** Start-up gives each enabled entry its desired workers, under its own definition. */
  lemma {:induction false} InitializeStarts(config: seq<QueueDefinition>, env: Env)
    requires UniqueNames(config)
    ensures StartedFrom(config, env, InitializePool([], env, config))
    decreases |config|
  {
    if config != [] {
      var n := |config| - 1;
      InitializeStarts(config[..n], env);
      assert config == config[..n] + [config[n]];
      hide StartedFrom;
      if config[n].enabled {
        EntryStarted(config[..n], env, InitializePool([], env, config[..n]), config[n]);
      } else {
        DisabledStarted(config[..n], env, InitializePool([], env, config[..n]), config[n]);
      }
    }
  }

  lemma NotYetDefined(config: seq<QueueDefinition>, n: nat)
    requires UniqueNames(config) && n < |config|
    ensures config[n].name !in EnabledDefinitions(config[..n])
  {
    DefinitionsEnabled(config[..n]);
  }

  lemma StartLive(config: seq<QueueDefinition>, env: Env)
    requires UniqueNames(config)
    ensures Live(Started(config, env), env)
  {
    InitializeStarts(config, env);
    DefinitionsEnabled(config);
  }

  lemma CurrentWithMore(pool: seq<Worker>, config: seq<QueueDefinition>, d: QueueDefinition)
    requires UniqueNames(config + [d]) && Current(pool, EnabledDefinitions(config))
    ensures Current(pool, EnabledDefinitions(config + [d]))
  {
    assert (config + [d])[..|config|] == config;
    NotYetDefined(config + [d], |config|);
  }

  lemma EntryStartedWithin(config: seq<QueueDefinition>, env: Env, pool: seq<Worker>, d: QueueDefinition, n: nat)
    requires UniqueNames(config + [d]) && d.enabled && StartedFrom(config, env, pool)
    ensures Current(CreateNumbers(pool, env, d, n), EnabledDefinitions(config + [d]))
  {
    hide WellNumbered, ByQueue, Desired, AddTimes, CreateNumbers, UniqueNames;
    WithEntry(config, d);
    CreateNumbersFresh(pool, env, d, n);
    AddTimesNumbers(pool, env, d, n);
  }

  /** One entry more under a new name. */
  lemma WithEntry(config: seq<QueueDefinition>, d: QueueDefinition)
    requires UniqueNames(config + [d])
    ensures d.name !in EnabledDefinitions(config)
    ensures EnabledDefinitions(config + [d]) == if d.enabled then EnabledDefinitions(config)[d.name := d] else EnabledDefinitions(config)
  {
    assert (config + [d])[..|config|] == config;
    NotYetDefined(config + [d], |config|);
  }

  lemma {:induction false} WithinCurrent(config: seq<QueueDefinition>, env: Env, budget: nat)
    requires UniqueNames(config)
    ensures Current(InitializeWithin([], env, config, budget), EnabledDefinitions(config))
    decreases |config|
  {
    if config != [] {
      hide StartedFrom, CreateNumbers, Desired, Current, EnabledDefinitions;
      var n := |config| - 1;
      assert config == config[..n] + [config[n]];
      var made := CreatedBy(env, config[..n]);
      InitializeStarts(config[..n], env);
      FromIsCurrent(config[..n], env, InitializePool([], env, config[..n]));
      WithinCurrent(config[..n], env, budget);
      CurrentWithMore(InitializeWithin([], env, config[..n], budget), config[..n], config[n]);
      CurrentWithMore(InitializePool([], env, config[..n]), config[..n], config[n]);
      if budget >= made && config[n].enabled {
        EntryStartedWithin(config[..n], env, InitializePool([], env, config[..n]), config[n], Min(budget - made, Desired(env, config[n])));
      }
    } else {
      NothingIsCurrent();
    }
  }

  lemma FromIsCurrent(config: seq<QueueDefinition>, env: Env, pool: seq<Worker>)
    requires StartedFrom(config, env, pool)
    ensures Current(pool, EnabledDefinitions(config))
  {
  }

  lemma NothingIsCurrent()
    ensures Current([], EnabledDefinitions([]))
  {
  }

  lemma StartWithinLive(config: seq<QueueDefinition>, env: Env, budget: nat)
    requires UniqueNames(config)
    ensures Live(StartedWithin(config, env, budget), env)
  {
    hide InitializeWithin;
    WithinCurrent(config, env, budget);
    StartWithinNumbered(config, env, budget);
  }

  // ---------- Numbers and ids, whatever happens ----------

  ghost predicate Ordered(a: Admin, env: Env) {
    Keyed(a.registry) && WellNumbered(a.pool, env.strategy)
  }

  lemma StartWithinNumbered(config: seq<QueueDefinition>, env: Env, budget: nat)
    ensures Ordered(StartedWithin(config, env, budget), env)
  {
    hide InitializeWithin;
    assert WellNumbered([], env.strategy);
    InitializeWithinNumbers([], env, config, budget);
    DefinitionsEnabled(config);
  }

  lemma ReconcileNumbered(pool: seq<Worker>, env: Env, definitions: map<string, QueueDefinition>, down: bool, name: string, budget: nat)
    requires WellNumbered(pool, env.strategy)
    requires forall n :: n in definitions ==> definitions[n].name == n
    ensures WellNumbered(Reconcile(pool, env, definitions, down, name, budget).0, env.strategy)
  {
    hide WellNumbered, ByQueue, Desired, AddTimes, Ensure;
    if Refusal(definitions, down, name) == Ok {
      AddTimesNumbers(pool, env, definitions[name], budget);
      EnsureReachesDesired(pool, env, definitions[name]);
    }
  }

  lemma UpdateNumbered(a: Admin, env: Env, name: string, patch: Patch, luck: Luck, budget: nat)
    requires Ordered(a, env)
    ensures Ordered(UpdateQueue(a, env, name, patch, luck, budget).0, env)
  {
    hide WellNumbered, ByQueue, WithoutQueue, Reconcile;
    UpdateKeyed(a.registry, name, patch, luck);
    WithoutCurrent(a.pool, env.strategy, name);
    var r := Update(a.registry, name, patch, luck).0;
    var pool := if ChangesConcurrency(a, name, patch) then WithoutQueue(a.pool, name) else a.pool;
    ReconcileNumbered(pool, env, r.definitions, a.down, name, budget);
  }

  /** Every request, harmless or not, keeps queues numbered from 1. */
  lemma NextNumbered(a: Admin, env: Env, e: Event)
    requires Ordered(a, env)
    ensures Ordered(Next(a, env, e), env)
  {
    hide WellNumbered, ByQueue, WithoutQueue, Reconcile, Add, RemoveLast, UpdateQueue;
    match e.request
    case CreateRequest(d) =>
      CreateKeyed(a.registry, d, e.luck);
      ReconcileNumbered(a.pool, env, Create(a.registry, d, e.luck).0.definitions, a.down, d.name, e.budget);
    case UpdateRequest(patch) => UpdateNumbered(a, env, e.name, patch, e.luck, e.budget);
    case DeleteRequest =>
      RemoveKeyed(a.registry, e.name, e.luck);
      WithoutCurrent(a.pool, env.strategy, e.name);
    case AddWorkerRequest =>
      if Refusal(a.registry.definitions, a.down, e.name) == Ok {
        AddNumbers(a.pool, env, a.registry.definitions[e.name]);
      }
    case RemoveWorkerRequest =>
      if ByQueue(a.pool, e.name) != [] {
        RemoveLastNumbers(a.pool, env.strategy, e.name);
      }
  }

  /** Over every run from any configuration, through requests that fail anywhere, updates cut short included: the
      workers of each queue are numbered 1..n in map order, and no two share an id. */
  lemma {:induction false} IdsAreDistinctInEveryRun(config: seq<QueueDefinition>, env: Env, budget: nat, events: seq<Event>)
    ensures var a := After(StartedWithin(config, env, budget), env, events);
      && Ordered(a, env)
      && (forall i, j :: 0 <= i < j < |a.pool| ==> a.pool[i].id != a.pool[j].id)
    decreases |events|
  {
    hide WellNumbered, Keyed, Next, StartedWithin;
    var a := After(StartedWithin(config, env, budget), env, events);
    if events == [] {
      StartWithinNumbered(config, env, budget);
    } else {
      var n := |events| - 1;
      IdsAreDistinctInEveryRun(config, env, budget, events[..n]);
      NextNumbered(After(StartedWithin(config, env, budget), env, events[..n]), env, events[n]);
    }
    forall i, j | 0 <= i < j < |a.pool| ensures a.pool[i].id != a.pool[j].id {
      IdsAreDistinct(a.pool, env.strategy, i, j);
    }
  }

  /** It does happen, from start-up, to any enabled queue with a worker: when the closed queue cannot be opened
      again, and when a changed concurrency cannot be saved. */
  lemma FailedUpdateLeavesWorkersBehind(d: QueueDefinition, env: Env, patch: Patch, budget: nat)
    requires d.enabled && Desired(env, d) > 0
    ensures var a := Started([d], env);
      && Live(a, env)
      && !Live(UpdateQueue(a, env, d.name, patch, Luck(false, true, true, true), budget).0, env)
      && (patch.concurrency.Some? && patch.concurrency.value != d.concurrency ==>
            !Live(UpdateQueue(a, env, d.name, patch, Luck(true, true, false, true), budget).0, env))
  {
    var a := Started([d], env);
    StartLive([d], env);
    InitializeStarts([d], env);
    assert [d][0] == d && |ByQueue(a.pool, d.name)| == Desired(env, d);
    assert a.registry.definitions[d.name] == d;
    hide Live, Started, UpdateQueue, ByQueue, Desired;
    UpdateStaysCurrentExactlyWhen(a, env, d.name, patch, Luck(false, true, true, true), budget);
    UpdateStaysCurrentExactlyWhen(a, env, d.name, patch, Luck(true, true, false, true), budget);
  }

  // ---------- Repeating an update ----------

  /** The registry with a queue defined anew, its configuration entry last. */
  function Settle(r: Registry, d: QueueDefinition): Registry {
    Registry(r.queues, r.definitions[d.name := d], WithoutName(r.config, d.name) + [d])
  }

  lemma {:induction false} WithoutIsWithout(config: seq<QueueDefinition>, name: string)
    ensures forall i :: 0 <= i < |WithoutName(config, name)| ==> WithoutName(config, name)[i].name != name
  {
    if config != [] {
      WithoutIsWithout(config[1..], name);
    }
  }

  lemma {:induction false} EntryAtTheEnd(config: seq<QueueDefinition>, d: QueueDefinition, e: QueueDefinition)
    requires forall i :: 0 <= i < |config| ==> config[i].name != d.name
    ensures WithoutName(config + [d], d.name) == config
    ensures ReplaceFirst(config + [d], d.name, e) == config + [e]
  {
    if config == [] {
      assert config + [d] == [d];
    } else {
      assert (config + [d])[1..] == config[1..] + [d];
      EntryAtTheEnd(config[1..], d, e);
    }
  }

  lemma SettleTwice(r: Registry, d: QueueDefinition, e: QueueDefinition)
    requires d.name == e.name
    ensures Settle(Settle(r, d), e) == Settle(r, e) && Redefine(Settle(r, d), e) == Settle(r, e)
  {
    WithoutIsWithout(r.config, d.name);
    EntryAtTheEnd(WithoutName(r.config, d.name), d, e);
  }

  lemma UpdateSettles(r: Registry, name: string, patch: Patch, luck: Luck)
    requires Keyed(r) && Update(r, name, patch, luck).1 == Done
    ensures name in r.definitions
    ensures Update(r, name, patch, luck).0 == Settle(r, Merge(r.definitions[name], patch))
  {
    var d := Merge(r.definitions[name], patch);
    assert r.queues - {name} + {name} == r.queues;
    assert (r.definitions - {name})[name := d] == r.definitions[name := d];
  }

  /** The written-back count is what the definition asks for again. */
  lemma RecordedCountIsDesired(env: Env, d: QueueDefinition, patch: Patch)
    requires Merge(d, patch) == d && Desired(env, d) > 0
    ensures Desired(env, Merge(d.(workers := Some(Desired(env, d))), patch)) == Desired(env, d)
  {
  }

  /** The definition an update leaves, given the number of workers after it. */
  function WithCount(d: QueueDefinition, total: nat): QueueDefinition {
    if total > 0 then d.(workers := Some(total)) else d
  }

  lemma RecordSettles(r: Registry, d: QueueDefinition, pool: seq<Worker>, down: bool, luck: Luck)
    ensures RecordWorkers(Admin(Settle(r, d), pool, down), d.name, luck)
      == Admin(Settle(r, WithCount(d, |ByQueue(pool, d.name)|)), pool, down)
  {
    var total := |ByQueue(pool, d.name)|;
    SettleTwice(r, d, d.(workers := Some(total)));
  }

  lemma ReconcileReaches(pool: seq<Worker>, env: Env, definitions: map<string, QueueDefinition>, down: bool, name: string, budget: nat)
    requires WellNumbered(pool, env.strategy) && Reconcile(pool, env, definitions, down, name, budget).1 == Ok
    requires name in definitions && definitions[name].name == name
    ensures var t := Reconcile(pool, env, definitions, down, name, budget).0;
      !down && (if definitions[name].enabled then |ByQueue(t, name)| == Desired(env, definitions[name]) else t == pool)
  {
    hide WellNumbered, ByQueue, Desired;
    EnsureReachesDesired(pool, env, definitions[name]);
  }

  /** Reconciling with nothing to do changes nothing, and cannot fail. */
  lemma ReconcileSettled(pool: seq<Worker>, env: Env, definitions: map<string, QueueDefinition>, name: string, budget: nat)
    requires name in definitions && definitions[name].name == name
    requires definitions[name].enabled ==> |ByQueue(pool, name)| == Desired(env, definitions[name])
    ensures Reconcile(pool, env, definitions, false, name, budget) == (pool, Ok)
  {
  }

  /** The second time, a successful update changes nothing at all: no worker, no definition, no entry order,
      whether the queue is enabled or not and whatever the environment overrides. */
  lemma UpdateIsIdempotent(a: Admin, env: Env, name: string, patch: Patch, luck: Luck, budget: nat, again: Luck, nextBudget: nat)
    requires Keyed(a.registry) && WellNumbered(a.pool, env.strategy)
    requires UpdateQueue(a, env, name, patch, luck, budget).1 in {Replied(Ok), NotRecorded}
    requires again.closes && again.opens && again.saves
    ensures var b := UpdateQueue(a, env, name, patch, luck, budget).0;
      UpdateQueue(b, env, name, patch, again, nextBudget) == (b, Recorded(again))
  {
    hide WellNumbered, ByQueue, Reconcile, Desired, Settle, WithoutQueue;
    var r := a.registry;
    UpdateSettles(r, name, patch, luck);
    var d := Merge(r.definitions[name], patch);
    var r1 := Update(r, name, patch, luck).0;
    var pool := if ChangesConcurrency(a, name, patch) then WithoutQueue(a.pool, name) else a.pool;
    WithoutCurrent(a.pool, env.strategy, name);
    Defined(r, d);
    ReconcileReaches(pool, env, r1.definitions, a.down, name, budget);
    var kept := Reconcile(pool, env, r1.definitions, a.down, name, budget).0;
    var total := |ByQueue(kept, name)|;
    RecordSettles(r, d, kept, a.down, luck);
    var b := Admin(Settle(r, WithCount(d, total)), kept, false);
    assert UpdateQueue(a, env, name, patch, luck, budget).0 == b;
    SettledAgain(r, env, name, d, patch, kept, again, nextBudget);
  }

  lemma Defined(r: Registry, d: QueueDefinition)
    requires Keyed(r) && d.name in r.definitions
    ensures Keyed(Settle(r, d)) && d.name in Settle(r, d).definitions && Settle(r, d).definitions[d.name] == d
  {
  }

  lemma SettledAgain(r: Registry, env: Env, name: string, d: QueueDefinition, patch: Patch, pool: seq<Worker>, luck: Luck, budget: nat)
    requires Keyed(r) && name in r.definitions && d == Merge(r.definitions[name], patch)
    requires luck.closes && luck.opens && luck.saves
    requires d.enabled ==> |ByQueue(pool, name)| == Desired(env, d)
    ensures var b := Admin(Settle(r, WithCount(d, |ByQueue(pool, name)|)), pool, false);
      UpdateQueue(b, env, name, patch, luck, budget) == (b, Recorded(luck))
  {
    hide ByQueue, Reconcile, Settle, WithoutQueue;
    var total := |ByQueue(pool, name)|;
    var d1 := WithCount(d, total);
    var b := Admin(Settle(r, d1), pool, false);
    Defined(r, d1);
    var d2 := Merge(d1, patch);
    UpdateSettles(b.registry, name, patch, luck);
    SettleTwice(r, d1, d2);
    Defined(r, d2);
    if d.enabled {
      if total > 0 {
        RecordedCountIsDesired(env, d, patch);
      }
    }
    ReconcileSettled(pool, env, Settle(r, d2).definitions, name, budget);
    RecordSettles(r, d2, pool, false, luck);
    assert WithCount(d2, total) == d1;
  }

  /** The definition records the live count, but never less than one. */
  ghost predicate InStep(a: Admin, name: string) {
    name in a.registry.definitions && a.registry.definitions[name].workers == Some(Max(1, |ByQueue(a.pool, name)|))
  }

  predicate IsWorkerRequest(e: Event) {
    e.request.AddWorkerRequest? || e.request.RemoveWorkerRequest?
  }

  lemma RecordElsewhere(a: Admin, name: string, other: string, luck: Luck)
    requires Keyed(a.registry) && InStep(a, name) && other != name
    ensures InStep(RecordWorkers(a, other, luck), name)
  {
    hide ByQueue;
  }

  lemma AddKeepsStep(a: Admin, env: Env, e: Event, name: string)
    requires Live(a, env) && e.request.AddWorkerRequest?
    requires InStep(a, name) || (e.name == name && AddWorker(a, env, e.name, e.budget > 0, e.luck).1 == Replied(Ok))
    ensures InStep(Next(a, env, e), name)
  {
    hide ByQueue, Add, WellNumbered;
    if Refusal(a.registry.definitions, a.down, e.name) == Ok && e.budget > 0 {
      var d := a.registry.definitions[e.name];
      AddNumbers(a.pool, env, d);
      var b := a.(pool := Add(a.pool, env, d));
      if e.name != name {
        RecordElsewhere(b, name, e.name, e.luck);
      }
    }
  }

  lemma RemoveKeepsStep(a: Admin, env: Env, e: Event, name: string)
    requires Live(a, env) && e.request.RemoveWorkerRequest? && InStep(a, name)
    ensures InStep(Next(a, env, e), name)
  {
    hide ByQueue, RemoveLast, WellNumbered;
    if ByQueue(a.pool, e.name) != [] {
      RemoveLastNumbers(a.pool, env.strategy, e.name);
      if e.name != name {
        RecordElsewhere(a.(pool := RemoveLast(a.pool, e.name)), name, e.name, e.luck);
      }
    }
  }

  /** Once a worker was added to a queue, worker requests, to any queue and failing or not, keep its definition in
      step with its live workers, except that the last worker leaves a one behind. */
  lemma {:induction false} RecordFollowsWorkerRequests(a: Admin, env: Env, events: seq<Event>, name: string)
    requires Live(a, env) && events != [] && forall i :: 0 <= i < |events| ==> IsWorkerRequest(events[i])
    requires var e := events[0];
      e.request.AddWorkerRequest? && e.name == name && AddWorker(a, env, name, e.budget > 0, e.luck).1 == Replied(Ok)
    ensures Live(After(a, env, events), env) && InStep(After(a, env, events), name)
    decreases |events|
  {
    hide Live, InStep, Next, AddWorker;
    var n := |events| - 1;
    var before := After(a, env, events[..n]);
    if n > 0 {
      RecordFollowsWorkerRequests(a, env, events[..n], name);
    } else {
      assert events[..n] == [];
    }
    NextLive(before, env, events[n]);
    if events[n].request.AddWorkerRequest? {
      AddKeepsStep(before, env, events[n], name);
    } else {
      RemoveKeepsStep(before, env, events[n], name);
    }
  }

  // ---------- Creating, then deleting ----------

  lemma {:induction false} WithoutQueueConcat(a: seq<Worker>, b: seq<Worker>, name: string)
    ensures WithoutQueue(a + b, name) == WithoutQueue(a, name) + WithoutQueue(b, name)
  {
    if a == [] {
      assert a + b == b;
    } else {
      var first := if a[0].queueName == name then [] else [a[0]];
      calc {
        WithoutQueue(a + b, name);
        { assert (a + b)[0] == a[0] && (a + b)[1..] == a[1..] + b; }
        first + WithoutQueue(a[1..] + b, name);
        { WithoutQueueConcat(a[1..], b, name); }
        first + (WithoutQueue(a[1..], name) + WithoutQueue(b, name));
        (first + WithoutQueue(a[1..], name)) + WithoutQueue(b, name);
        WithoutQueue(a, name) + WithoutQueue(b, name);
      }
    }
  }

  lemma {:induction false} AddedThenRemoved(pool: seq<Worker>, env: Env, d: QueueDefinition, n: nat)
    requires WellNumbered(pool, env.strategy) && ByQueue(pool, d.name) == []
    ensures WithoutQueue(AddTimes(pool, env, d, n), d.name) == pool
  {
    hide WellNumbered, ByQueue, WithoutQueue, Add;
    if n == 0 {
      WithoutQueueIsQueueless(pool, d.name);
    } else {
      AddedThenRemoved(pool, env, d, n - 1);
      var before := AddTimes(pool, env, d, n - 1);
      AddTimesNumbers(pool, env, d, n - 1);
      AddedOnceRemoved(before, env, d);
    }
  }

  lemma AddedOnceRemoved(pool: seq<Worker>, env: Env, d: QueueDefinition)
    requires WellNumbered(pool, env.strategy)
    ensures WithoutQueue(Add(pool, env, d), d.name) == WithoutQueue(pool, d.name)
  {
    var number := |ByQueue(pool, d.name)| + 1;
    var w := NewWorker(env, d, number);
    PutNew(pool, env, d, number);
    WithoutQueueConcat(pool, [w], d.name);
    assert WithoutQueue([w], d.name) == [];
  }

  lemma {:induction false} WithoutUnconfigured(config: seq<QueueDefinition>, name: string)
    ensures EntriesNamed(config, name) == [] <==> WithoutName(config, name) == config
    ensures |WithoutName(config, name)| <= |config|
  {
    if config != [] {
      WithoutUnconfigured(config[1..], name);
    }
  }

  lemma {:induction false} WithoutLast(config: seq<QueueDefinition>, d: QueueDefinition)
    ensures WithoutName(config + [d], d.name) == WithoutName(config, d.name)
  {
    if config == [] {
      assert config + [d] == [d];
    } else {
      WithoutLast(config[1..], d);
      assert (config + [d])[1..] == config[1..] + [d];
    }
  }

  /** Deleting a queue that was just created puts everything back, exactly when no configuration entry had its
      name before; whatever part of its workers could be created. */
  lemma DeleteUndoesCreateExactlyWhen(a: Admin, env: Env, d: QueueDefinition, luck: Luck, budget: nat, deletion: Luck)
    requires Live(a, env) && d.name !in a.registry.queues && luck.opens && luck.saves && deletion.closes
    ensures DeleteQueue(CreateQueue(a, env, d, luck, budget).0, d.name, deletion).0 == a <==>
      EntriesNamed(a.registry.config, d.name) == []
  {
    hide Open, Close, Reconcile, WithoutQueue, ByQueue;
    RegistryRestored(a.registry, d);
    NoWorkersYet(a, env, d.name);
    Opened(a.registry, d);
    PoolRestored(a.pool, env, Open(a.registry, d).definitions, a.down, d.name, budget);
  }

  /** It does differ: from start-up with a disabled entry, whose name the created queue takes. */
  lemma DeletionTakesTheDisabledEntry(entry: QueueDefinition, d: QueueDefinition, env: Env, luck: Luck, budget: nat, deletion: Luck)
    requires !entry.enabled && d.name == entry.name && luck.opens && luck.saves && deletion.closes
    ensures var a := Started([entry], env);
      Live(a, env) && DeleteQueue(CreateQueue(a, env, d, luck, budget).0, d.name, deletion).0 != a
  {
    var a := Started([entry], env);
    StartLive([entry], env);
    assert EntriesNamed([entry], d.name) == [entry];
    hide Live, CreateQueue, DeleteQueue;
    DeleteUndoesCreateExactlyWhen(a, env, d, luck, budget, deletion);
  }

  lemma Opened(r: Registry, d: QueueDefinition)
    ensures d.name in Open(r, d).queues && d.name in Open(r, d).definitions && Open(r, d).definitions[d.name] == d
  {
  }

  lemma RegistryRestored(r: Registry, d: QueueDefinition)
    requires Keyed(r) && d.name !in r.queues
    ensures Close(Open(r, d), d.name) == r <==> EntriesNamed(r.config, d.name) == []
  {
    WithoutLast(r.config, d);
    WithoutUnconfigured(r.config, d.name);
    assert r.queues + {d.name} - {d.name} == r.queues;
    assert r.definitions[d.name := d] - {d.name} == r.definitions;
  }

  lemma PoolRestored(pool: seq<Worker>, env: Env, definitions: map<string, QueueDefinition>, down: bool, name: string, budget: nat)
    requires WellNumbered(pool, env.strategy) && ByQueue(pool, name) == []
    requires name in definitions && definitions[name].name == name
    ensures WithoutQueue(Reconcile(pool, env, definitions, down, name, budget).0, name) == pool
  {
    hide WellNumbered, ByQueue, WithoutQueue, Desired;
    AddedThenRemoved(pool, env, definitions[name], budget);
    AddedThenRemoved(pool, env, definitions[name], Desired(env, definitions[name]));
    WithoutQueueIsQueueless(pool, name);
  }

  lemma NoWorkersYet(a: Admin, env: Env, name: string)
    requires Live(a, env) && name !in a.registry.queues
    ensures ByQueue(a.pool, name) == []
  {
    var queue := ByQueue(a.pool, name);
    ByQueueMembers(a.pool, name);
    if queue != [] {
      NonEmptyHasOne(queue);
    }
  }

  lemma NonEmptyHasOne(queue: seq<Worker>)
    requires queue != []
    ensures exists w :: w in queue
  {
    assert queue[0] in queue;
  }
}
