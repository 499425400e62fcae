/** DynamicWorkerService and WorkerLifecycleService, run one call at a time. */
module DynamicWorkers {
  import opened Extremes
  import opened QueueRegistry
  import opened WorkerPool

  datatype WorkerOutcome = Ok | ShuttingDown | QueueNotFound | QueueDisabled | CreationFailed | NoWorkers

  /** Definitions are stored under their own names, and exactly the open queues have one. */
  ghost predicate Keyed(r: Registry) {
    && r.queues == r.definitions.Keys
    && forall n :: n in r.definitions ==> r.definitions[n].name == n
  }

  /** Why no worker may be created for a queue, if so. */
  function Refusal(definitions: map<string, QueueDefinition>, down: bool, name: string): WorkerOutcome {
    if down then ShuttingDown
    else if name !in definitions then QueueNotFound
    else if !definitions[name].enabled then QueueDisabled
    else Ok
  }

  /** What ensureWorkersForQueue leaves when only the first `budget` creations succeed. */
  function Reconcile(pool: seq<Worker>, env: Env, definitions: map<string, QueueDefinition>, down: bool, name: string, budget: nat)
    : (seq<Worker>, WorkerOutcome)
  {
    match Refusal(definitions, down, name)
    case QueueDisabled => (pool, Ok)
    case Ok =>
      var d := definitions[name];
      var existing := |ByQueue(pool, name)|;
      if existing + budget < Desired(env, d) then (AddTimes(pool, env, d, budget), CreationFailed)
      else (Ensure(pool, env, d), Ok)
    case refused => (pool, refused)
  }

  class DynamicWorkerService {
    var workers: seq<Worker>
    var isShuttingDown: bool
    const env: Env
    const queueService: DynamicQueueService

    ghost predicate Valid()
      reads this, queueService
    {
      WellNumbered(workers, env.strategy) && Keyed(queueService.Model())
    }

    constructor (env: Env, queueService: DynamicQueueService)
      ensures workers == [] && !isShuttingDown && this.env == env && this.queueService == queueService
    {
      this.env, this.queueService := env, queueService;
      workers, isShuttingDown := [], false;
    }

    method AddWorkerForQueue(name: string, creates: bool) returns (outcome: WorkerOutcome)
      requires Valid()
      modifies this`workers
      ensures Valid()
      ensures var refusal := Refusal(queueService.queueDefinitions, isShuttingDown, name);
        outcome == if refusal == Ok && !creates then CreationFailed else refusal
      ensures workers == if outcome == Ok then Add(old(workers), env, queueService.queueDefinitions[name]) else old(workers)
      ensures var definitions := queueService.queueDefinitions;
        && (outcome == ShuttingDown <==> isShuttingDown)
        && (outcome == QueueNotFound <==> !isShuttingDown && name !in definitions)
        && (outcome == QueueDisabled <==> !isShuttingDown && name in definitions && !definitions[name].enabled)
        && (outcome == CreationFailed <==> !isShuttingDown && name in definitions && definitions[name].enabled && !creates)
      ensures outcome == Ok ==> |ByQueue(workers, name)| == |ByQueue(old(workers), name)| + 1
    {
      if isShuttingDown {
        return ShuttingDown;
      }
      if name !in queueService.queueDefinitions {
        return QueueNotFound;
      }
      var queueDef := queueService.queueDefinitions[name];
      if !queueDef.enabled {
        return QueueDisabled;
      }
      if !creates {
        return CreationFailed;
      }
      AddNumbers(workers, env, queueDef);
      var existing := |ByQueue(workers, name)|;
      workers := Put(workers, NewWorker(env, queueDef, existing + 1));
      return Ok;
    }

    /** An error while closing the worker is logged and dropped, so the worker always leaves the map. */
    method RemoveWorkerForQueue(name: string) returns (outcome: WorkerOutcome)
      requires Valid()
      modifies this`workers
      ensures Valid()
      ensures outcome == if ByQueue(old(workers), name) == [] then NoWorkers else Ok
      ensures workers == RemoveLast(old(workers), name)
    {
      var queueWorkers := ByQueue(workers, name);
      if |queueWorkers| == 0 {
        return NoWorkers;
      }
      RemoveLastNumbers(workers, env.strategy, name);
      var workerToRemove := queueWorkers[|queueWorkers| - 1];
      workers := Delete(workers, workerToRemove.id);
      return Ok;
    }

    method EnsureWorkersForQueue(name: string, budget: nat) returns (desired: nat, final: nat, outcome: WorkerOutcome)
      requires Valid()
      modifies this`workers
      ensures Valid()
      ensures (workers, outcome) == Reconcile(old(workers), env, queueService.queueDefinitions, isShuttingDown, name, budget)
      ensures outcome == Ok ==> final == desired
      ensures outcome == Ok && queueService.queueDefinitions[name].enabled ==>
        && final == |ByQueue(workers, name)| && desired == Desired(env, queueService.queueDefinitions[name])
        && IsWorkerCount(env, queueService.queueDefinitions[name], final)
      ensures var definitions := queueService.queueDefinitions;
        && (outcome == ShuttingDown <==> isShuttingDown)
        && (outcome == QueueNotFound <==> !isShuttingDown && name !in definitions)
        && (isShuttingDown || name !in definitions || !definitions[name].enabled ==> workers == old(workers))
    {
      hide WellNumbered, ByQueue, Put, Delete, NewWorker;
      desired, final := 0, 0;
      if isShuttingDown {
        return desired, final, ShuttingDown;
      }
      if name !in queueService.queueDefinitions {
        return desired, final, QueueNotFound;
      }
      var queueDef := queueService.queueDefinitions[name];
      if !queueDef.enabled {
        return desired, final, Ok;
      }
      desired := Desired(env, queueDef);
      var existing := |ByQueue(workers, name)|;
      if existing < desired {
        for i := 0 to desired - existing
          invariant Valid() && i <= budget
          invariant workers == AddTimes(old(workers), env, queueDef, i)
        {
          outcome := AddWorkerForQueue(name, i < budget);
          if outcome != Ok {
            return;
          }
        }
      } else if existing > desired {
        for i := 0 to existing - desired
          invariant Valid()
          invariant workers == RemoveTimes(old(workers), name, i)
        {
          RemoveTimesNumbers(old(workers), env.strategy, name, i);
          outcome := RemoveWorkerForQueue(name);
        }
      }
      EnsureReachesDesired(old(workers), env, queueDef);
      final := |ByQueue(workers, name)|;
      return desired, final, Ok;
    }

    method RemoveAllWorkersForQueue(name: string) returns (removed: nat)
      requires Valid()
      modifies this`workers
      ensures Valid()
      ensures removed == |ByQueue(old(workers), name)|
      ensures workers == WithoutQueue(old(workers), name)
    {
      removed := 0;
      while true
        invariant Valid()
        invariant removed <= |ByQueue(old(workers), name)|
        invariant workers == RemoveTimes(old(workers), name, removed)
        decreases |ByQueue(old(workers), name)| - removed
      {
        RemoveTimesNumbers(old(workers), env.strategy, name, removed);
        var queueWorkers := ByQueue(workers, name);
        if |queueWorkers| == 0 {
          break;
        }
        var _ := RemoveWorkerForQueue(name);
        removed := removed + 1;
      }
      RemoveTimesFilters(old(workers), env.strategy, name, removed);
    }

    /** Creates the workers of every enabled entry, until a creation fails: then what was created stays. */
    method Initialize(budget: nat) returns (created: nat, complete: bool)
      requires Valid()
      modifies this`workers
      ensures Valid()
      ensures workers == InitializeWithin(old(workers), env, queueService.configQueues, budget)
      ensures complete <==> CreatedBy(env, queueService.configQueues) <= budget
      ensures complete ==> created == CreatedBy(env, queueService.configQueues)
    {
      hide WellNumbered, Desired, CreateNumbers, Keyed;
      var config := queueService.configQueues;
      created := 0;
      for i := 0 to |config|
        invariant Valid()
        invariant workers == InitializePool(old(workers), env, config[..i])
        invariant created == CreatedBy(env, config[..i]) <= budget
      {
        assert config[..i + 1][..i] == config[..i];
        if !config[i].enabled {
          continue;
        }
        var n, all := CreateWorkersForQueue(config[i], budget - created);
        if !all {
          StoppedEarly(old(workers), env, config, i + 1, budget);
          return created, false;
        }
        created := created + n;
      }
      assert config[..|config|] == config;
      InitializeWithinNumbers(old(workers), env, config, budget);
      return created, true;
    }

    method CreateWorkersForQueue(queueDef: QueueDefinition, budget: nat) returns (created: nat, all: bool)
      requires Valid()
      modifies this`workers
      ensures Valid()
      ensures created == Min(budget, Desired(env, queueDef)) && (all <==> Desired(env, queueDef) <= budget)
      ensures workers == CreateNumbers(old(workers), env, queueDef, created)
      ensures all ==> IsWorkerCount(env, queueDef, created)
    {
      DesiredIs(env, queueDef);
      hide IsWorkerCount;
      var workerCount := GetWorkerCountForQueue(env, queueDef);
      created := 0;
      while created < workerCount
        invariant created <= Max(0, workerCount) && created <= budget
        invariant workers == CreateNumbers(old(workers), env, queueDef, created)
      {
        if created == budget {
          CreateNumbersNumbers(old(workers), env, queueDef, created);
          return created, false;
        }
        workers := Put(workers, NewWorker(env, queueDef, created + 1));
        created := created + 1;
      }
      CreateNumbersNumbers(old(workers), env, queueDef, created);
      return created, true;
    }

    /** One failing close rejects the whole shut-down and nothing is cleared. */
    method ShutdownAll(closes: bool)
      requires Valid()
      modifies this`workers
      ensures Valid()
      ensures workers == if closes then [] else old(workers)
    {
      if closes {
        workers := [];
      }
    }

    method ReloadWorkers(closes: bool, budget: nat) returns (reloaded: bool)
      requires Valid()
      modifies this`workers
      ensures Valid()
      ensures reloaded <==> closes && CreatedBy(env, queueService.configQueues) <= budget
      ensures workers == if closes then InitializeWithin([], env, queueService.configQueues, budget) else old(workers)
    {
      ShutdownAll(closes);
      if !closes {
        return false;
      }
      var _, complete := Initialize(budget);
      return complete;
    }

    /** The totals of byQueue: exactly the queues that have workers, with their counts. */
    method GetWorkersStatus() returns (totals: map<string, nat>)
      ensures forall name :: name in totals <==> ByQueue(workers, name) != []
      ensures forall name :: name in totals ==> totals[name] == |ByQueue(workers, name)|
    {
      totals := map[];
      for i := 0 to |workers|
        invariant forall name :: name in totals <==> ByQueue(workers[..i], name) != []
        invariant forall name :: name in totals ==> totals[name] == |ByQueue(workers[..i], name)|
      {
        var name := workers[i].queueName;
        forall n ensures ByQueue(workers[..i + 1], n) == ByQueue(workers[..i], n) + if n == name then [workers[i]] else [] {
          assert workers[..i + 1] == workers[..i] + [workers[i]];
          ByQueueConcat(workers[..i], [workers[i]], n);
          assert ByQueue([workers[i]], n) == if n == name then [workers[i]] else [];
        }
        totals := totals[name := (if name in totals then totals[name] else 0) + 1];
      }
      assert workers[..|workers|] == workers;
    }
  }
}
