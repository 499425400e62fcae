/** The workers map of DynamicWorkerService, as the sequence of its entries in insertion order. */
module WorkerPool {
  import opened Extremes
  import opened Options
  import opened Strings
  import opened QueueRegistry

  /** A live worker; the number is the one its id was built from. */
  datatype Worker = Worker(id: string, queueName: string, number: nat, concurrency: int)

  /** The environment: WORKER_STRATEGY, WORKER_MAX_PER_QUEUE and the numeric variables for the queues. */
  datatype Env = Env(strategy: string, maxPerQueue: int, overrides: map<string, int>)

  function WorkerId(name: string, strategy: string, number: nat): string {
    name + "-" + strategy + "-" + Decimal(number)
  }

  /** The variable that overrides the worker count of a queue. */
  function OverrideFor(name: string): string {
    "QUEUE_" + ToUpper(name) + "_WORKERS"
  }

  function GetWorkerCountForQueue(env: Env, d: QueueDefinition): int {
    var key := OverrideFor(d.name);
    if key in env.overrides && env.overrides[key] > 0 then Min(env.overrides[key], env.maxPerQueue)
    else Min(if d.workers.None? || d.workers.value == 0 then 1 else d.workers.value, env.maxPerQueue)
  }

  function Desired(env: Env, d: QueueDefinition): nat {
    Max(0, GetWorkerCountForQueue(env, d))
  }

  /** How many workers a queue is to have: its variable, if that is positive, or else its configured count, where none
      and zero mean one and a negative count means none; never more than the limit, and none under a negative limit. */
  ghost predicate IsWorkerCount(env: Env, d: QueueDefinition, n: int) {
    var limit, key := if env.maxPerQueue < 0 then 0 else env.maxPerQueue, "QUEUE_" + ToUpper(d.name) + "_WORKERS";
    if key in env.overrides && env.overrides[key] > 0 then
      n <= limit && n <= env.overrides[key] && (n == limit || n == env.overrides[key])
    else match d.workers
      case None => n == if limit == 0 then 0 else 1
      case Some(w) =>
        if w < 0 then n == 0
        else if w == 0 then n == if limit == 0 then 0 else 1
        else n <= limit && n <= w && (n == limit || n == w)
  }

  lemma DesiredIs(env: Env, d: QueueDefinition)
    ensures IsWorkerCount(env, d, Desired(env, d))
  {
    hide ToUpper;
  }

  /** There is one such count, it is no negative one, and beyond zero it is within the limit. */
  lemma WorkerCountIsUnique(env: Env, d: QueueDefinition, m: int, n: int)
    requires IsWorkerCount(env, d, m) && IsWorkerCount(env, d, n)
    ensures m == n && 0 <= m && (0 < m ==> m <= env.maxPerQueue)
  {
    hide ToUpper;
  }

  /** At a limit of five: two stay two, nine are cut to five, none means one, and an override counts instead. */
  lemma CountsAtFive(env: Env, d: QueueDefinition, n: int)
    requires env.maxPerQueue == 5 && IsWorkerCount(env, d, n)
    ensures "QUEUE_" + ToUpper(d.name) + "_WORKERS" !in env.overrides ==>
      (d.workers == Some(2) ==> n == 2) && (d.workers == Some(9) ==> n == 5) && (d.workers in {None, Some(0)} ==> n == 1)
    ensures var key := "QUEUE_" + ToUpper(d.name) + "_WORKERS"; key in env.overrides && env.overrides[key] == 3 ==> n == 3
  {
    hide ToUpper;
  }

  function NewWorker(env: Env, d: QueueDefinition, number: nat): Worker {
    Worker(WorkerId(d.name, env.strategy, number), d.name, number, d.concurrency)
  }

  // ---------- Map operations ----------

  function ByQueue(pool: seq<Worker>, name: string): seq<Worker> {
    if pool == [] then []
    else (if pool[0].queueName == name then [pool[0]] else []) + ByQueue(pool[1..], name)
  }

  predicate HasId(pool: seq<Worker>, id: string) {
    exists i :: 0 <= i < |pool| && pool[i].id == id
  }

  /** Map.set: an existing id keeps its place. */
  function Put(pool: seq<Worker>, w: Worker): seq<Worker> {
    if HasId(pool, w.id) then Replace(pool, w) else pool + [w]
  }

  function Replace(pool: seq<Worker>, w: Worker): seq<Worker> {
    seq(|pool|, i requires 0 <= i < |pool| => if pool[i].id == w.id then w else pool[i])
  }

  /** Map.delete. */
  function Delete(pool: seq<Worker>, id: string): seq<Worker> {
    if pool == [] then []
    else (if pool[0].id == id then [] else [pool[0]]) + Delete(pool[1..], id)
  }

  function WithoutQueue(pool: seq<Worker>, name: string): seq<Worker> {
    if pool == [] then []
    else (if pool[0].queueName == name then [] else [pool[0]]) + WithoutQueue(pool[1..], name)
  }

  // ---------- Worker operations ----------

  function Add(pool: seq<Worker>, env: Env, d: QueueDefinition): seq<Worker> {
    Put(pool, NewWorker(env, d, |ByQueue(pool, d.name)| + 1))
  }

  function AddTimes(pool: seq<Worker>, env: Env, d: QueueDefinition, n: nat): seq<Worker> {
    if n == 0 then pool else Add(AddTimes(pool, env, d, n - 1), env, d)
  }

  function RemoveLast(pool: seq<Worker>, name: string): seq<Worker> {
    var q := ByQueue(pool, name);
    if q == [] then pool else Delete(pool, q[|q| - 1].id)
  }

  function RemoveTimes(pool: seq<Worker>, name: string, n: nat): seq<Worker> {
    if n == 0 then pool else RemoveLast(RemoveTimes(pool, name, n - 1), name)
  }

  /** What ensureWorkersForQueue leaves when every worker it creates can be created. */
  function Ensure(pool: seq<Worker>, env: Env, d: QueueDefinition): seq<Worker> {
    var existing, desired := |ByQueue(pool, d.name)|, Desired(env, d);
    if !d.enabled then pool
    else if existing < desired then AddTimes(pool, env, d, desired - existing)
    else RemoveTimes(pool, d.name, existing - desired)
  }

  function CreateNumbers(pool: seq<Worker>, env: Env, d: QueueDefinition, n: nat): seq<Worker> {
    if n == 0 then pool else Put(CreateNumbers(pool, env, d, n - 1), NewWorker(env, d, n))
  }

  function InitializePool(pool: seq<Worker>, env: Env, config: seq<QueueDefinition>): seq<Worker> {
    if config == [] then pool
    else
      var n := |config| - 1;
      var before := InitializePool(pool, env, config[..n]);
      if config[n].enabled then CreateNumbers(before, env, config[n], Desired(env, config[n])) else before
  }

  /** What the creations of start-up ask for. */
  function CreatedBy(env: Env, config: seq<QueueDefinition>): nat {
    if config == [] then 0
    else
      var n := |config| - 1;
      CreatedBy(env, config[..n]) + if config[n].enabled then Desired(env, config[n]) else 0
  }

  /** What start-up leaves when only the first `budget` creations succeed. */
  function InitializeWithin(pool: seq<Worker>, env: Env, config: seq<QueueDefinition>, budget: nat): seq<Worker> {
    if config == [] then pool
    else
      var n := |config| - 1;
      var made := CreatedBy(env, config[..n]);
      if budget < made then InitializeWithin(pool, env, config[..n], budget)
      else
        var before := InitializePool(pool, env, config[..n]);
        if config[n].enabled then CreateNumbers(before, env, config[n], Min(budget - made, Desired(env, config[n]))) else before
  }

  // ---------- Numbering ----------

  ghost predicate Numbered(queue: seq<Worker>) {
    forall i :: 0 <= i < |queue| ==> queue[i].number == i + 1
  }

  /** Ids are built from queue and number, and each queue's workers in map order are numbered 1..n. */
  ghost predicate WellNumbered(pool: seq<Worker>, strategy: string) {
    && (forall i :: 0 <= i < |pool| ==> pool[i].id == WorkerId(pool[i].queueName, strategy, pool[i].number))
    && (forall name :: Numbered(ByQueue(pool, name)))
  }

  /** The id of a worker: its queue, the strategy and its number. */
  lemma WorkerIdIs(env: Env, d: QueueDefinition, number: nat)
    ensures exists numeral ::
      && NewWorker(env, d, number).id == d.name + "-" + env.strategy + "-" + numeral
      && ValueOf(numeral) == number && numeral != "" && (forall c :: c in numeral ==> c in "0123456789")
  {
    DecimalIs(number);
    hide Decimal, ValueOf;
    assert NewWorker(env, d, number).id == d.name + "-" + env.strategy + "-" + Decimal(number);
  }

  /** Worker ids determine queue and number when the strategy is constant. */
  lemma WorkerIdInjective(a: string, b: string, strategy: string, m: nat, n: nat)
    requires WorkerId(a, strategy, m) == WorkerId(b, strategy, n)
    ensures a == b && m == n
  {
    var s := WorkerId(a, strategy, m);
    DecimalFreeOf(m, '-');
    DecimalFreeOf(n, '-');
    LastPart(a + "-" + strategy, Decimal(m), b + "-" + strategy, Decimal(n), '-');
    DecimalInjective(m, n);
    assert |a| == |b|;
    assert (a + "-" + strategy)[..|a|] == a && (b + "-" + strategy)[..|b|] == b;
  }

  lemma {:induction false} ByQueueConcat(a: seq<Worker>, b: seq<Worker>, name: string)
    ensures ByQueue(a + b, name) == ByQueue(a, name) + ByQueue(b, name)
  {
    if a == [] {
      assert a + b == b;
    } else {
      var first := if a[0].queueName == name then [a[0]] else [];
      calc {
        ByQueue(a + b, name);
        { assert (a + b)[0] == a[0] && (a + b)[1..] == a[1..] + b; }
        first + ByQueue(a[1..] + b, name);
        { ByQueueConcat(a[1..], b, name); }
        first + (ByQueue(a[1..], name) + ByQueue(b, name));
        (first + ByQueue(a[1..], name)) + ByQueue(b, name);
        ByQueue(a, name) + ByQueue(b, name);
      }
    }
  }

  lemma {:induction false} ByQueueMembers(pool: seq<Worker>, name: string)
    ensures forall w :: w in ByQueue(pool, name) <==> w in pool && w.queueName == name
  {
    if pool != [] {
      ByQueueMembers(pool[1..], name);
      assert forall w :: w in pool <==> w == pool[0] || w in pool[1..];
    }
  }

  /** The worker at a position, found in its queue. */
  lemma WorkerNumber(pool: seq<Worker>, strategy: string, i: nat)
    requires WellNumbered(pool, strategy) && i < |pool|
    ensures var q := ByQueue(pool, pool[i].queueName); var k := |ByQueue(pool[..i], pool[i].queueName)|;
      k < |q| && q[k] == pool[i] && pool[i].number == k + 1
  {
    var name := pool[i].queueName;
    assert pool == pool[..i] + ([pool[i]] + pool[i + 1..]);
    ByQueueConcat(pool[..i], [pool[i]] + pool[i + 1..], name);
    ByQueueConcat([pool[i]], pool[i + 1..], name);
    assert ByQueue([pool[i]], name) == [pool[i]];
    var k := |ByQueue(pool[..i], name)|;
    assert ByQueue(pool, name)[k] == pool[i];
  }

  /** Earlier workers of a queue come before it in the queue's own order. */
  lemma PositionsGrow(pool: seq<Worker>, i: nat, j: nat)
    requires i < j <= |pool|
    ensures |ByQueue(pool[..i], pool[i].queueName)| < |ByQueue(pool[..j], pool[i].queueName)|
  {
    var name := pool[i].queueName;
    assert pool[..j] == pool[..i] + ([pool[i]] + pool[i + 1..j]);
    ByQueueConcat(pool[..i], [pool[i]] + pool[i + 1..j], name);
    ByQueueConcat([pool[i]], pool[i + 1..j], name);
    assert ByQueue([pool[i]], name) == [pool[i]];
  }

  /** No two workers share an id, in one queue or across queues. */
  lemma IdsAreDistinct(pool: seq<Worker>, strategy: string, i: nat, j: nat)
    requires WellNumbered(pool, strategy) && i < j < |pool|
    ensures pool[i].id != pool[j].id
  {
    PositionsGrow(pool, i, j);
    WorkerNumber(pool, strategy, i);
    WorkerNumber(pool, strategy, j);
    hide ByQueue, WorkerId, Numbered;
    if pool[i].id == pool[j].id {
      WorkerIdInjective(pool[i].queueName, pool[j].queueName, strategy, pool[i].number, pool[j].number);
    }
  }

  // ---------- Adding ----------

  lemma PutNew(pool: seq<Worker>, env: Env, d: QueueDefinition, number: nat)
    requires WellNumbered(pool, env.strategy) && number == |ByQueue(pool, d.name)| + 1
    ensures Put(pool, NewWorker(env, d, number)) == pool + [NewWorker(env, d, number)]
    ensures WellNumbered(Put(pool, NewWorker(env, d, number)), env.strategy)
    ensures forall name ::
      ByQueue(Put(pool, NewWorker(env, d, number)), name) ==
      ByQueue(pool, name) + (if name == d.name then [NewWorker(env, d, number)] else [])
  {
    var w := NewWorker(env, d, number);
    forall i | 0 <= i < |pool| ensures pool[i].id != w.id {
      if pool[i].id == w.id {
        WorkerIdInjective(pool[i].queueName, d.name, env.strategy, pool[i].number, number);
        WorkerNumber(pool, env.strategy, i);
      }
    }
    forall name ensures ByQueue(pool + [w], name) == ByQueue(pool, name) + if name == d.name then [w] else [] {
      ByQueueConcat(pool, [w], name);
      assert ByQueue([w], name) == if name == d.name then [w] else [];
    }
  }

  lemma AddNumbers(pool: seq<Worker>, env: Env, d: QueueDefinition)
    requires WellNumbered(pool, env.strategy)
    ensures WellNumbered(Add(pool, env, d), env.strategy)
    ensures |ByQueue(Add(pool, env, d), d.name)| == |ByQueue(pool, d.name)| + 1
    ensures forall name :: name != d.name ==> ByQueue(Add(pool, env, d), name) == ByQueue(pool, name)
    ensures forall w :: w in Add(pool, env, d) ==> w in pool || (w.queueName == d.name && w.concurrency == d.concurrency)
  {
    PutNew(pool, env, d, |ByQueue(pool, d.name)| + 1);
  }

  lemma {:induction false} AddTimesNumbers(pool: seq<Worker>, env: Env, d: QueueDefinition, n: nat)
    requires WellNumbered(pool, env.strategy)
    ensures WellNumbered(AddTimes(pool, env, d, n), env.strategy)
    ensures |ByQueue(AddTimes(pool, env, d, n), d.name)| == |ByQueue(pool, d.name)| + n
    ensures forall name :: name != d.name ==> ByQueue(AddTimes(pool, env, d, n), name) == ByQueue(pool, name)
    ensures forall w :: w in AddTimes(pool, env, d, n) ==> w in pool || (w.queueName == d.name && w.concurrency == d.concurrency)
  {
    hide WellNumbered, Add, ByQueue;
    if n > 0 {
      AddTimesNumbers(pool, env, d, n - 1);
      AddNumbers(AddTimes(pool, env, d, n - 1), env, d);
    }
  }

  // ---------- Removing ----------

  lemma {:induction false} DeleteMembers(pool: seq<Worker>, id: string)
    ensures forall w :: w in Delete(pool, id) <==> w in pool && w.id != id
  {
    if pool != [] {
      DeleteMembers(pool[1..], id);
      assert forall w :: w in pool <==> w == pool[0] || w in pool[1..];
    }
  }

  lemma {:induction false} DeleteByQueue(pool: seq<Worker>, id: string, name: string)
    ensures ByQueue(Delete(pool, id), name) == Delete(ByQueue(pool, name), id)
  {
    if pool != [] {
      DeleteByQueue(pool[1..], id, name);
      var first, rest := pool[0], Delete(pool[1..], id);
      if first.id != id {
        assert Delete(pool, id)[1..] == rest;
      } else {
        assert Delete(pool, id) == rest;
      }
      if first.queueName == name {
        assert ByQueue(pool, name)[1..] == ByQueue(pool[1..], name);
      } else {
        assert ByQueue(pool, name) == ByQueue(pool[1..], name);
      }
    }
  }

  lemma {:induction false} DeleteAbsent(queue: seq<Worker>, id: string)
    requires forall w :: w in queue ==> w.id != id
    ensures Delete(queue, id) == queue
  {
    if queue != [] {
      assert queue[0] in queue;
      DeleteAbsent(queue[1..], id);
    }
  }

  lemma {:induction false} DeleteConcat(a: seq<Worker>, b: seq<Worker>, id: string)
    ensures Delete(a + b, id) == Delete(a, id) + Delete(b, id)
  {
    if a == [] {
      assert a + b == b;
    } else {
      var first := if a[0].id == id then [] else [a[0]];
      calc {
        Delete(a + b, id);
        { assert (a + b)[0] == a[0] && (a + b)[1..] == a[1..] + b; }
        first + Delete(a[1..] + b, id);
        { DeleteConcat(a[1..], b, id); }
        first + (Delete(a[1..], id) + Delete(b, id));
        (first + Delete(a[1..], id)) + Delete(b, id);
        Delete(a, id) + Delete(b, id);
      }
    }
  }

  lemma QueueIds(pool: seq<Worker>, strategy: string, name: string)
    requires WellNumbered(pool, strategy)
    ensures forall i {:trigger ByQueue(pool, name)[i]} :: 0 <= i < |ByQueue(pool, name)| ==>
      ByQueue(pool, name)[i].queueName == name && ByQueue(pool, name)[i].id == WorkerId(name, strategy, i + 1)
  {
    var q := ByQueue(pool, name);
    ByQueueMembers(pool, name);
    forall i | 0 <= i < |q| ensures q[i].queueName == name && q[i].id == WorkerId(name, strategy, i + 1) {
      assert q[i] in q;
    }
  }

  lemma LastIsGone(pool: seq<Worker>, strategy: string, name: string)
    requires WellNumbered(pool, strategy) && ByQueue(pool, name) != []
    ensures var q := ByQueue(pool, name); Delete(q, q[|q| - 1].id) == q[..|q| - 1]
  {
    var q := ByQueue(pool, name);
    var n := |q| - 1;
    QueueIds(pool, strategy, name);
    hide WellNumbered, ByQueue, WorkerId;
    forall w | w in q[..n] ensures w.id != q[n].id {
      var i :| 0 <= i < n && q[i] == w;
      if w.id == q[n].id {
        WorkerIdInjective(name, name, strategy, i + 1, n + 1);
      }
    }
    DeleteAbsent(q[..n], q[n].id);
    DeleteConcat(q[..n], [q[n]], q[n].id);
    assert Delete([q[n]], q[n].id) == [];
    assert q == q[..n] + [q[n]];
  }

  lemma OthersStay(pool: seq<Worker>, strategy: string, name: string, other: string)
    requires WellNumbered(pool, strategy) && ByQueue(pool, name) != [] && other != name
    ensures var q := ByQueue(pool, name); Delete(ByQueue(pool, other), q[|q| - 1].id) == ByQueue(pool, other)
  {
    var q := ByQueue(pool, name);
    var p := ByQueue(pool, other);
    var n := |q| - 1;
    QueueIds(pool, strategy, other);
    assert forall i :: 0 <= i < |p| ==> p[i].id == WorkerId(other, strategy, i + 1);
    QueueIds(pool, strategy, name);
    assert forall i :: 0 <= i < |p| ==> p[i].id == WorkerId(other, strategy, i + 1);
    assert q[n].id == WorkerId(name, strategy, n + 1);
    forall w | w in p ensures w.id != q[n].id {
      var i :| 0 <= i < |p| && p[i] == w;
      if w.id == q[n].id {
        WorkerIdInjective(other, name, strategy, i + 1, n + 1);
      }
    }
    DeleteAbsent(p, q[n].id);
  }

  /** Removing takes exactly the highest number of the queue. */
  lemma RemoveLastQueues(pool: seq<Worker>, strategy: string, name: string, other: string)
    requires WellNumbered(pool, strategy) && ByQueue(pool, name) != []
    ensures ByQueue(RemoveLast(pool, name), other)
      == if other == name then ByQueue(pool, name)[..|ByQueue(pool, name)| - 1] else ByQueue(pool, other)
  {
    var q := ByQueue(pool, name);
    DeleteByQueue(pool, q[|q| - 1].id, other);
    if other == name {
      LastIsGone(pool, strategy, name);
    } else {
      OthersStay(pool, strategy, name, other);
    }
  }

  lemma RemoveLastNumbers(pool: seq<Worker>, strategy: string, name: string)
    requires WellNumbered(pool, strategy) && ByQueue(pool, name) != []
    ensures WellNumbered(RemoveLast(pool, name), strategy)
    ensures |ByQueue(RemoveLast(pool, name), name)| == |ByQueue(pool, name)| - 1
    ensures forall other :: other != name ==> ByQueue(RemoveLast(pool, name), other) == ByQueue(pool, other)
    ensures forall w :: w in RemoveLast(pool, name) ==> w in pool
  {
    var q := ByQueue(pool, name);
    var t := RemoveLast(pool, name);
    DeleteMembers(pool, q[|q| - 1].id);
    forall i | 0 <= i < |t| ensures t[i].id == WorkerId(t[i].queueName, strategy, t[i].number) {
      assert t[i] in t;
    }
    forall other ensures ByQueue(t, other) == if other == name then q[..|q| - 1] else ByQueue(pool, other) {
      RemoveLastQueues(pool, strategy, name, other);
    }
    assert Numbered(q);
  }

  lemma {:induction false} RemoveTimesNumbers(pool: seq<Worker>, strategy: string, name: string, n: nat)
    requires WellNumbered(pool, strategy) && n <= |ByQueue(pool, name)|
    ensures WellNumbered(RemoveTimes(pool, name, n), strategy)
    ensures |ByQueue(RemoveTimes(pool, name, n), name)| == |ByQueue(pool, name)| - n
    ensures forall other :: other != name ==> ByQueue(RemoveTimes(pool, name, n), other) == ByQueue(pool, other)
    ensures forall w :: w in RemoveTimes(pool, name, n) ==> w in pool
  {
    if n > 0 {
      RemoveTimesNumbers(pool, strategy, name, n - 1);
      hide WellNumbered, RemoveLast;
      RemoveLastNumbers(RemoveTimes(pool, name, n - 1), strategy, name);
    }
  }

  /** Reconciliation reaches the desired count, touches no other queue, and creates only under the definition. */
  lemma EnsureReachesDesired(pool: seq<Worker>, env: Env, d: QueueDefinition)
    requires WellNumbered(pool, env.strategy)
    ensures WellNumbered(Ensure(pool, env, d), env.strategy)
    ensures d.enabled ==> |ByQueue(Ensure(pool, env, d), d.name)| == Desired(env, d)
    ensures d.enabled ==> IsWorkerCount(env, d, |ByQueue(Ensure(pool, env, d), d.name)|)
    ensures !d.enabled ==> Ensure(pool, env, d) == pool
    ensures forall name :: name != d.name ==> ByQueue(Ensure(pool, env, d), name) == ByQueue(pool, name)
    ensures forall w :: w in Ensure(pool, env, d) ==> w in pool || (w.queueName == d.name && w.concurrency == d.concurrency)
  {
    DesiredIs(env, d);
    hide IsWorkerCount;
    var existing, desired := |ByQueue(pool, d.name)|, Desired(env, d);
    hide WellNumbered, ByQueue;
    if existing < desired {
      AddTimesNumbers(pool, env, d, desired - existing);
    } else {
      RemoveTimesNumbers(pool, env.strategy, d.name, existing - desired);
    }
  }

  // ---------- Starting up ----------

  lemma {:induction false} ReplaceByQueue(pool: seq<Worker>, w: Worker, name: string)
    requires forall i :: 0 <= i < |pool| && pool[i].id == w.id ==> pool[i].queueName == w.queueName && pool[i].number == w.number
    ensures |ByQueue(Replace(pool, w), name)| == |ByQueue(pool, name)|
    ensures forall i :: 0 <= i < |ByQueue(pool, name)| ==> ByQueue(Replace(pool, w), name)[i].number == ByQueue(pool, name)[i].number
    ensures forall i :: 0 <= i < |ByQueue(pool, name)| ==>
      ByQueue(Replace(pool, w), name)[i] == if ByQueue(pool, name)[i].id == w.id then w else ByQueue(pool, name)[i]
  {
    if pool != [] {
      ReplaceByQueue(pool[1..], w, name);
      assert Replace(pool, w)[1..] == Replace(pool[1..], w);
    }
  }

  lemma PutExisting(pool: seq<Worker>, env: Env, d: QueueDefinition, number: nat)
    requires WellNumbered(pool, env.strategy) && 1 <= number <= |ByQueue(pool, d.name)|
    ensures WellNumbered(Put(pool, NewWorker(env, d, number)), env.strategy)
    ensures forall name :: |ByQueue(Put(pool, NewWorker(env, d, number)), name)| == |ByQueue(pool, name)|
  {
    var w := NewWorker(env, d, number);
    QueueIds(pool, env.strategy, d.name);
    ByQueueMembers(pool, d.name);
    var q := ByQueue(pool, d.name);
    assert q[number - 1] in q;
    assert HasId(pool, w.id);
    forall i | 0 <= i < |pool| && pool[i].id == w.id
      ensures pool[i].queueName == w.queueName && pool[i].number == w.number
    {
      WorkerIdInjective(pool[i].queueName, d.name, env.strategy, pool[i].number, number);
    }
    forall name
      ensures |ByQueue(Replace(pool, w), name)| == |ByQueue(pool, name)| && Numbered(ByQueue(Replace(pool, w), name))
    {
      ReplaceByQueue(pool, w, name);
      assert Numbered(ByQueue(pool, name));
    }
  }

  lemma {:induction false} CreateNumbersNumbers(pool: seq<Worker>, env: Env, d: QueueDefinition, n: nat)
    requires WellNumbered(pool, env.strategy)
    ensures WellNumbered(CreateNumbers(pool, env, d, n), env.strategy)
    ensures |ByQueue(CreateNumbers(pool, env, d, n), d.name)| == Max(n, |ByQueue(pool, d.name)|)
    ensures forall name :: name != d.name ==> |ByQueue(CreateNumbers(pool, env, d, n), name)| == |ByQueue(pool, name)|
  {
    if n > 0 {
      CreateNumbersNumbers(pool, env, d, n - 1);
      var before := CreateNumbers(pool, env, d, n - 1);
      hide WellNumbered, Put, ByQueue;
      if n <= |ByQueue(before, d.name)| {
        PutExisting(before, env, d, n);
      } else {
        PutNew(before, env, d, n);
      }
    }
  }

  /** Workers that start-up finds under the ids it creates are replaced: the first n of the queue run under the entry. */
  lemma {:induction false} CreateNumbersReplaces(pool: seq<Worker>, env: Env, d: QueueDefinition, n: nat)
    requires WellNumbered(pool, env.strategy)
    ensures var q := ByQueue(CreateNumbers(pool, env, d, n), d.name);
      && n <= |q| && (forall i :: 0 <= i < n ==> q[i] == NewWorker(env, d, i + 1))
      && (forall i :: n <= i < |q| ==> i < |ByQueue(pool, d.name)| && q[i] == ByQueue(pool, d.name)[i])
  {
    CreateNumbersNumbers(pool, env, d, n);
    if n > 0 {
      CreateNumbersReplaces(pool, env, d, n - 1);
      CreateNumbersNumbers(pool, env, d, n - 1);
      var before := CreateNumbers(pool, env, d, n - 1);
      hide WellNumbered, CreateNumbers;
      if n <= |ByQueue(before, d.name)| {
        PutReplaces(before, env, d, n);
      } else {
        PutNew(before, env, d, n);
      }
      hide Put, ByQueue, NewWorker;
    }
  }

  /** Putting a worker under an id that is taken replaces that worker alone. */
  lemma PutReplaces(pool: seq<Worker>, env: Env, d: QueueDefinition, number: nat)
    requires WellNumbered(pool, env.strategy) && 1 <= number <= |ByQueue(pool, d.name)|
    ensures var q := ByQueue(pool, d.name); var w := NewWorker(env, d, number);
      ByQueue(Put(pool, w), d.name) == q[number - 1 := w]
  {
    var w, q := NewWorker(env, d, number), ByQueue(pool, d.name);
    QueueIds(pool, env.strategy, d.name);
    ByQueueMembers(pool, d.name);
    assert q[number - 1] in q;
    assert HasId(pool, w.id);
    forall i | 0 <= i < |pool| && pool[i].id == w.id
      ensures pool[i].queueName == w.queueName && pool[i].number == w.number
    {
      WorkerIdInjective(pool[i].queueName, d.name, env.strategy, pool[i].number, number);
    }
    ReplaceByQueue(pool, w, d.name);
    hide ByQueue, Replace, WorkerId;
    forall i | 0 <= i < |q| ensures q[i].id == w.id <==> i == number - 1 {
      if q[i].id == w.id {
        IdOfPosition(pool, env, d, i, number);
      }
    }
  }

  lemma IdOfPosition(pool: seq<Worker>, env: Env, d: QueueDefinition, i: nat, number: nat)
    requires WellNumbered(pool, env.strategy) && i < |ByQueue(pool, d.name)|
    requires ByQueue(pool, d.name)[i].id == NewWorker(env, d, number).id
    ensures i == number - 1
  {
    QueueIds(pool, env.strategy, d.name);
    WorkerIdInjective(d.name, d.name, env.strategy, i + 1, number);
  }

  /** Whatever the configuration, start-up keeps the workers of every queue numbered from 1. */
  lemma {:induction false} InitializeNumbers(pool: seq<Worker>, env: Env, config: seq<QueueDefinition>)
    requires WellNumbered(pool, env.strategy)
    ensures WellNumbered(InitializePool(pool, env, config), env.strategy)
    decreases |config|
  {
    if config != [] {
      var n := |config| - 1;
      InitializeNumbers(pool, env, config[..n]);
      CreateNumbersNumbers(InitializePool(pool, env, config[..n]), env, config[n], Desired(env, config[n]));
    }
  }

  /** A start-up that is cut short keeps the numbering too, and one that is not creates the whole pool. */
  lemma {:induction false} InitializeWithinNumbers(pool: seq<Worker>, env: Env, config: seq<QueueDefinition>, budget: nat)
    requires WellNumbered(pool, env.strategy)
    ensures WellNumbered(InitializeWithin(pool, env, config, budget), env.strategy)
    ensures budget >= CreatedBy(env, config) ==> InitializeWithin(pool, env, config, budget) == InitializePool(pool, env, config)
    decreases |config|
  {
    if config != [] {
      hide WellNumbered, CreateNumbers, Desired;
      var n := |config| - 1;
      var made := CreatedBy(env, config[..n]);
      if budget < made {
        InitializeWithinNumbers(pool, env, config[..n], budget);
      } else {
        InitializeNumbers(pool, env, config[..n]);
        var before := InitializePool(pool, env, config[..n]);
        if config[n].enabled {
          CreateNumbersNumbers(before, env, config[n], Min(budget - made, Desired(env, config[n])));
        }
      }
    }
  }

  /** Entries after the one that failed change nothing. */
  lemma {:induction false} StoppedEarly(pool: seq<Worker>, env: Env, config: seq<QueueDefinition>, i: nat, budget: nat)
    requires i <= |config| && budget < CreatedBy(env, config[..i])
    ensures InitializeWithin(pool, env, config, budget) == InitializeWithin(pool, env, config[..i], budget)
    ensures budget < CreatedBy(env, config)
    decreases |config|
  {
    if i < |config| {
      var n := |config| - 1;
      assert config[..n][..i] == config[..i];
      StoppedEarly(pool, env, config[..n], i, budget);
    } else {
      assert config[..i] == config;
    }
  }

  lemma {:induction false} CreateNumbersFresh(pool: seq<Worker>, env: Env, d: QueueDefinition, n: nat)
    requires WellNumbered(pool, env.strategy) && ByQueue(pool, d.name) == []
    ensures CreateNumbers(pool, env, d, n) == AddTimes(pool, env, d, n)
  {
    if n > 0 {
      CreateNumbersFresh(pool, env, d, n - 1);
      AddTimesNumbers(pool, env, d, n - 1);
    }
  }

  // ---------- Removing all ----------

  lemma {:induction false} WithoutQueueIsQueueless(pool: seq<Worker>, name: string)
    ensures forall w :: w in WithoutQueue(pool, name) <==> w in pool && w.queueName != name
    ensures ByQueue(pool, name) == [] ==> WithoutQueue(pool, name) == pool
  {
    if pool != [] {
      WithoutQueueIsQueueless(pool[1..], name);
      assert forall w :: w in pool <==> w == pool[0] || w in pool[1..];
    }
  }

  lemma {:induction false} DeleteWithoutQueue(pool: seq<Worker>, id: string, name: string)
    requires forall i :: 0 <= i < |pool| && pool[i].id == id ==> pool[i].queueName == name
    ensures WithoutQueue(Delete(pool, id), name) == WithoutQueue(pool, name)
  {
    if pool != [] {
      DeleteWithoutQueue(pool[1..], id, name);
      if pool[0].id != id {
        assert Delete(pool, id)[1..] == Delete(pool[1..], id);
      } else {
        assert Delete(pool, id) == Delete(pool[1..], id);
        assert WithoutQueue(pool, name) == WithoutQueue(pool[1..], name);
      }
    }
  }

  lemma RemoveLastWithoutQueue(pool: seq<Worker>, strategy: string, name: string)
    requires WellNumbered(pool, strategy)
    ensures WithoutQueue(RemoveLast(pool, name), name) == WithoutQueue(pool, name)
  {
    var q := ByQueue(pool, name);
    if q != [] {
      QueueIds(pool, strategy, name);
      var id := q[|q| - 1].id;
      forall i | 0 <= i < |pool| && pool[i].id == id ensures pool[i].queueName == name {
        WorkerIdInjective(pool[i].queueName, name, strategy, pool[i].number, |q|);
      }
      DeleteWithoutQueue(pool, id, name);
    }
  }

  /** Removing one by one until none is left takes the queue's workers and nothing else, in place. */
  lemma {:induction false} RemoveTimesFilters(pool: seq<Worker>, strategy: string, name: string, n: nat)
    requires WellNumbered(pool, strategy) && n <= |ByQueue(pool, name)|
    ensures WithoutQueue(RemoveTimes(pool, name, n), name) == WithoutQueue(pool, name)
    ensures n == |ByQueue(pool, name)| ==> RemoveTimes(pool, name, n) == WithoutQueue(pool, name)
  {
    hide WellNumbered, WithoutQueue, RemoveLast, ByQueue;
    RemoveTimesNumbers(pool, strategy, name, n);
    if n > 0 {
      RemoveTimesFilters(pool, strategy, name, n - 1);
      RemoveTimesNumbers(pool, strategy, name, n - 1);
      RemoveLastWithoutQueue(RemoveTimes(pool, name, n - 1), strategy, name);
    }
    WithoutQueueIsQueueless(RemoveTimes(pool, name, n), name);
  }
}
