/** What one administration request does to workers and registry, and what it answers. */
module AdminRequests {
  import opened Options
  import opened QueueRegistry
  import opened WorkerPool
  import opened DynamicWorkers
  import opened QueueAdmin

  /** Start-up gives every enabled entry exactly as many workers as its queue is to have. */
  lemma StartupCounts(config: seq<QueueDefinition>, env: Env, i: nat)
    requires UniqueNames(config) && i < |config| && config[i].enabled
    ensures IsWorkerCount(env, config[i], |ByQueue(Started(config, env).pool, config[i].name)|)
    ensures !Started(config, env).down && forall budget :: !StartedWithin(config, env, budget).down
  {
    InitializeStarts(config, env);
    DesiredIs(env, config[i]);
    hide IsWorkerCount, ByQueue, Desired;
  }

  /** The queue a request is about. */
  function About(e: QueueAdmin.Event): string {
    if e.request.CreateRequest? then e.request.d.name else e.name
  }

  /** How far reconciling gets from `was` workers towards `count` when only the first `budget` creations succeed. */
  function Reached(was: nat, budget: nat, count: int): int {
    if was + budget < count then was + budget else count
  }

  lemma ReconcileCounts(pool: seq<Worker>, env: Env, definitions: map<string, QueueDefinition>, down: bool, name: string,
                         budget: nat, count: int)
    requires WellNumbered(pool, env.strategy) && forall n :: n in definitions ==> definitions[n].name == n
    requires name in definitions && IsWorkerCount(env, definitions[name], count)
    ensures var (t, outcome) := Reconcile(pool, env, definitions, down, name, budget); var was := |ByQueue(pool, name)|;
      && (if down || !definitions[name].enabled then t == pool else |ByQueue(t, name)| == Reached(was, budget, count))
      && (forall other :: other != name ==> ByQueue(t, other) == ByQueue(pool, other))
      && outcome ==
        if down then ShuttingDown else if definitions[name].enabled && was + budget < count then CreationFailed else Ok
  {
    hide IsWorkerCount, WellNumbered, ByQueue, Desired, Ensure, AddTimes;
    var d := definitions[name];
    DesiredIs(env, d);
    WorkerCountIsUnique(env, d, count, Desired(env, d));
    EnsureReachesDesired(pool, env, d);
    AddTimesNumbers(pool, env, d, budget);
  }

  /** The workers of every queue after any request, from those before it. */
  lemma WorkersNext(a: Admin, env: Env, e: QueueAdmin.Event, count: int)
    requires Ordered(a, env)
    requires e.request.CreateRequest? ==> IsWorkerCount(env, e.request.d, count)
    requires e.request.UpdateRequest? && e.name in a.registry.definitions ==>
      IsWorkerCount(env, Merge(a.registry.definitions[e.name], e.request.patch), count)
    ensures var t, name, r := QueueAdmin.Next(a, env, e), About(e), a.registry;
      var was, now := |ByQueue(a.pool, name)|, |ByQueue(t.pool, name)|;
      && (forall other :: other != name ==> ByQueue(t.pool, other) == ByQueue(a.pool, other))
      && now ==
        match e.request
        case DeleteRequest => 0
        case RemoveWorkerRequest => if was == 0 then 0 else was - 1
        case AddWorkerRequest =>
          if e.budget > 0 && !a.down && name in r.definitions && r.definitions[name].enabled then was + 1 else was
        case CreateRequest(d) =>
          if name in r.queues || !e.luck.opens || !e.luck.saves || a.down || !d.enabled then was
          else Reached(was, e.budget, count)
        case UpdateRequest(patch) =>
          if name !in r.definitions || !e.luck.closes || !e.luck.opens || !e.luck.saves then was
          else
            var kept := if patch.concurrency.Some? && patch.concurrency.value != r.definitions[name].concurrency then 0 else was;
            var enabled := if patch.enabled.Some? then patch.enabled.value else r.definitions[name].enabled;
            if a.down || !enabled then kept else Reached(kept, e.budget, count)
  {
    hide WellNumbered, ByQueue, Reconcile, Add, RemoveLast, WithoutQueue, SetWorkers, IsWorkerCount, WithoutName, Reached;
    match e.request
    case DeleteRequest => WithoutCounts(a.pool, env.strategy, e.name);
    case RemoveWorkerRequest =>
      if ByQueue(a.pool, e.name) != [] {
        RemoveLastNumbers(a.pool, env.strategy, e.name);
      }
    case AddWorkerRequest =>
      if Refusal(a.registry.definitions, a.down, e.name) == Ok {
        AddNumbers(a.pool, env, a.registry.definitions[e.name]);
      }
    case CreateRequest(d) => CreateWorkersNext(a, env, e, count);
    case UpdateRequest(patch) => UpdateWorkersNext(a, env, e, count);
  }

  lemma WithoutCounts(pool: seq<Worker>, strategy: string, name: string)
    requires WellNumbered(pool, strategy)
    ensures ByQueue(WithoutQueue(pool, name), name) == [] && WellNumbered(WithoutQueue(pool, name), strategy)
    ensures forall other :: other != name ==> ByQueue(WithoutQueue(pool, name), other) == ByQueue(pool, other)
  {
    var n := |ByQueue(pool, name)|;
    RemoveTimesFilters(pool, strategy, name, n);
    RemoveTimesNumbers(pool, strategy, name, n);
  }

  lemma CreateWorkersNext(a: Admin, env: Env, e: QueueAdmin.Event, count: int)
    requires Ordered(a, env) && e.request.CreateRequest? && IsWorkerCount(env, e.request.d, count)
    ensures var d, t := e.request.d, QueueAdmin.Next(a, env, e); var was := |ByQueue(a.pool, d.name)|;
      && (forall other :: other != d.name ==> ByQueue(t.pool, other) == ByQueue(a.pool, other))
      && |ByQueue(t.pool, d.name)| ==
         if d.name in a.registry.queues || !e.luck.opens || !e.luck.saves || a.down || !d.enabled then was
         else Reached(was, e.budget, count)
  {
    hide WellNumbered, ByQueue, Reconcile, IsWorkerCount, Reached;
    var d := e.request.d;
    var (r, outcome) := Create(a.registry, d, e.luck);
    if outcome == Done {
      ReconcileCounts(a.pool, env, r.definitions, a.down, d.name, e.budget, count);
    }
  }

  lemma UpdateWorkersNext(a: Admin, env: Env, e: QueueAdmin.Event, count: int)
    requires Ordered(a, env) && e.request.UpdateRequest?
    requires e.name in a.registry.definitions ==>
      IsWorkerCount(env, Merge(a.registry.definitions[e.name], e.request.patch), count)
    ensures var name, r, patch, t := e.name, a.registry, e.request.patch, QueueAdmin.Next(a, env, e);
      var was := |ByQueue(a.pool, name)|;
      && (forall other :: other != name ==> ByQueue(t.pool, other) == ByQueue(a.pool, other))
      && |ByQueue(t.pool, name)| ==
        if name !in r.definitions || !e.luck.closes || !e.luck.opens || !e.luck.saves then was
        else
          var kept := if patch.concurrency.Some? && patch.concurrency.value != r.definitions[name].concurrency then 0 else was;
          var enabled := if patch.enabled.Some? then patch.enabled.value else r.definitions[name].enabled;
          if a.down || !enabled then kept else Reached(kept, e.budget, count)
  {
    hide WellNumbered, ByQueue, Reconcile, WithoutQueue, SetWorkers, IsWorkerCount, WithoutName, Reached;
    var name, patch := e.name, e.request.patch;
    var (r, outcome) := Update(a.registry, name, patch, e.luck);
    if outcome == Done {
      WithoutCounts(a.pool, env.strategy, name);
      UpdateKeyed(a.registry, name, patch, e.luck);
      MergeIs(a.registry.definitions[name], patch);
      var pool := if ChangesConcurrency(a, name, patch) then WithoutQueue(a.pool, name) else a.pool;
      ReconcileCounts(pool, env, r.definitions, a.down, name, e.budget, count);
    }
  }

  /** What a request answers, and the pool it leaves. */
  function Answer(a: Admin, env: Env, e: QueueAdmin.Event): Reply {
    match e.request
    case CreateRequest(d) => CreateQueue(a, env, d, e.luck, e.budget).1
    case UpdateRequest(patch) => UpdateQueue(a, env, e.name, patch, e.luck, e.budget).1
    case DeleteRequest => DeleteQueue(a, e.name, e.luck).1
    case AddWorkerRequest => AddWorker(a, env, e.name, e.budget > 0, e.luck).1
    case RemoveWorkerRequest => RemoveWorker(a, e.name, e.luck).1
  }

  /** What every request answers: the first thing that stops it, or how reconciling went. */
  lemma AnswerIs(a: Admin, env: Env, e: QueueAdmin.Event, count: int)
    requires Ordered(a, env)
    requires e.request.CreateRequest? ==> IsWorkerCount(env, e.request.d, count)
    requires e.request.UpdateRequest? && e.name in a.registry.definitions ==>
      IsWorkerCount(env, Merge(a.registry.definitions[e.name], e.request.patch), count)
    ensures var name, r := About(e), a.registry; var was := |ByQueue(a.pool, name)|;
      Answer(a, env, e) ==
        match e.request
        case DeleteRequest =>
          if name !in r.queues then QueueError(NotFound) else if !e.luck.closes then QueueError(CloseFailed)
          else if !e.luck.saves then QueueError(SaveFailed) else Replied(Ok)
        case RemoveWorkerRequest => if was == 0 then WorkerError(NoWorkers) else Replied(Ok)
        case AddWorkerRequest =>
          if a.down then WorkerError(ShuttingDown) else if name !in r.definitions then WorkerError(QueueNotFound)
          else if !r.definitions[name].enabled then WorkerError(QueueDisabled)
          else if e.budget == 0 then WorkerError(CreationFailed) else Replied(Ok)
        case CreateRequest(d) =>
          if name in r.queues then QueueError(AlreadyExists) else if !e.luck.opens then QueueError(OpenFailed)
          else if !e.luck.saves then QueueError(SaveFailed) else if a.down then Replied(ShuttingDown)
          else if d.enabled && was + e.budget < count then Replied(CreationFailed) else Replied(Ok)
        case UpdateRequest(patch) =>
          if name !in r.definitions then QueueError(NotFound) else if !e.luck.closes then QueueError(CloseFailed)
          else if !e.luck.opens then QueueError(OpenFailed) else if !e.luck.saves then QueueError(SaveFailed)
          else if a.down then Replied(ShuttingDown)
          else
            var kept := if patch.concurrency.Some? && patch.concurrency.value != r.definitions[name].concurrency then 0 else was;
            var enabled := if patch.enabled.Some? then patch.enabled.value else r.definitions[name].enabled;
            if enabled && kept + e.budget < count then Replied(CreationFailed)
            else if e.luck.records then Replied(Ok) else NotRecorded
  {
    hide WellNumbered, ByQueue, Reconcile, Add, RemoveLast, WithoutQueue, SetWorkers, IsWorkerCount, WithoutName;
    match e.request
    case CreateRequest(d) =>
      var (r, outcome) := Create(a.registry, d, e.luck);
      if outcome == Done {
        ReconcileCounts(a.pool, env, r.definitions, a.down, d.name, e.budget, count);
      }
    case UpdateRequest(patch) => UpdateAnswers(a, env, e, count);
    case _ =>
  }

  lemma UpdateAnswers(a: Admin, env: Env, e: QueueAdmin.Event, count: int)
    requires Ordered(a, env) && e.request.UpdateRequest?
    requires e.name in a.registry.definitions ==>
      IsWorkerCount(env, Merge(a.registry.definitions[e.name], e.request.patch), count)
    ensures var name, r, patch := e.name, a.registry, e.request.patch; var was := |ByQueue(a.pool, name)|;
      Answer(a, env, e) ==
        if name !in r.definitions then QueueError(NotFound) else if !e.luck.closes then QueueError(CloseFailed)
        else if !e.luck.opens then QueueError(OpenFailed) else if !e.luck.saves then QueueError(SaveFailed)
        else if a.down then Replied(ShuttingDown)
        else
          var kept := if patch.concurrency.Some? && patch.concurrency.value != r.definitions[name].concurrency then 0 else was;
          var enabled := if patch.enabled.Some? then patch.enabled.value else r.definitions[name].enabled;
          if enabled && kept + e.budget < count then Replied(CreationFailed)
          else if e.luck.records then Replied(Ok) else NotRecorded
  {
    hide WellNumbered, ByQueue, Reconcile, WithoutQueue, SetWorkers, IsWorkerCount, WithoutName;
    var name, patch := e.name, e.request.patch;
    var (r, outcome) := Update(a.registry, name, patch, e.luck);
    if outcome == Done {
      WithoutCounts(a.pool, env.strategy, name);
      UpdateKeyed(a.registry, name, patch, e.luck);
      MergeIs(a.registry.definitions[name], patch);
      var pool := if ChangesConcurrency(a, name, patch) then WithoutQueue(a.pool, name) else a.pool;
      ReconcileCounts(pool, env, r.definitions, a.down, name, e.budget, count);
    }
  }

  /** A worker request or an update that goes through writes the live count back, as long as there is a worker, and
      changes the registry no further; creation and deletion change it as the registry operations do. */
  lemma RegistryNext(a: Admin, env: Env, e: QueueAdmin.Event)
    requires Ordered(a, env)
    ensures var t, name := QueueAdmin.Next(a, env, e), About(e); var now := |ByQueue(t.pool, name)|;
      var done := match e.request
        case CreateRequest(d) => QueueRegistry.Next(a.registry, QueueRegistry.Event(CreateStep(d), e.luck))
        case UpdateRequest(patch) => QueueRegistry.Next(a.registry, QueueRegistry.Event(UpdateStep(name, patch), e.luck))
        case DeleteRequest => QueueRegistry.Next(a.registry, QueueRegistry.Event(RemoveStep(name), e.luck))
        case _ => a.registry;
      && t.down == a.down && t.registry.queues == done.queues && t.registry.definitions.Keys == done.definitions.Keys
      && (forall other :: other in done.definitions && other != name ==> t.registry.definitions[other] == done.definitions[other])
      && (name in done.definitions ==>
            t.registry.definitions[name] ==
              if now > 0 && (e.request.UpdateRequest? || e.request.AddWorkerRequest? || e.request.RemoveWorkerRequest?)
                 && Answer(a, env, e) in {Replied(Ok), NotRecorded}
              then done.definitions[name].(workers := Some(now)) else done.definitions[name])
  {
    hide WellNumbered, ByQueue, Reconcile, Add, RemoveLast, WithoutQueue, WithoutName, ReplaceFirst, QueueRegistry.Update, Create;
    if e.request.UpdateRequest? {
      UpdateKeyed(a.registry, e.name, e.request.patch, e.luck);
    }
  }
}
