/** IdempotencyService: its two maps and what one synchronous stretch of a call does to them. */
module Idempotency {
  type Key = string
  /** A promise stored in operationsInProgress is named by the call that created it. */
  type CallId = nat

  datatype Outcome<+T> = Resolved(value: T) | Rejected(error: string)

  datatype Stored<+T> = Stored(data: T, timestamp: int)

  datatype Tables<T> = Tables(inProgress: map<Key, CallId>, completed: map<Key, Stored<T>>)

  const TTL_MS: int := 60 * 60 * 1000

  datatype Decision<+T> = Replay(data: T) | Join(promise: CallId) | Execute

  function Decide<T>(t: Tables<T>, key: Key): Decision<T> {
    if key in t.completed then Replay(t.completed[key].data)
    else if key in t.inProgress then Join(t.inProgress[key])
    else Execute
  }

  function Register<T>(t: Tables<T>, key: Key, id: CallId): Tables<T> {
    t.(inProgress := t.inProgress[key := id])
  }

  /** The initiator resumes: a value is recorded, and the entry of the key is deleted either way. */
  function Complete<T>(t: Tables<T>, key: Key, outcome: Outcome<T>, now: int): Tables<T> {
    Tables(t.inProgress - {key},
           if outcome.Resolved? then t.completed[key := Stored(outcome.value, now)] else t.completed)
  }

  function OverdueKeys<T>(completed: map<Key, Stored<T>>, now: int): set<Key> {
    set k | k in completed && now - completed[k].timestamp > TTL_MS
  }

  function Sweep<T>(t: Tables<T>, now: int): Tables<T> {
    t.(completed := t.completed - OverdueKeys(t.completed, now))
  }

  /** Each method is one synchronous stretch between two awaits of executeWithIdempotency, or the cleanup. */
  class IdempotencyService<T> {
    var operationsInProgress: map<Key, CallId>
    var completedOperations: map<Key, Stored<T>>

    ghost function Model(): Tables<T>
      reads this
    {
      Tables(operationsInProgress, completedOperations)
    }

    constructor ()
      ensures Model() == Tables(map[], map[])
    {
      operationsInProgress, completedOperations := map[], map[];
    }

    method Enter(key: Key) returns (decision: Decision<T>)
      ensures decision == Decide(Model(), key)
    {
      if key in completedOperations {
        return Replay(completedOperations[key].data);
      }
      if key in operationsInProgress {
        return Join(operationsInProgress[key]);
      }
      return Execute;
    }

    method RegisterPromise(key: Key, id: CallId)
      modifies this
      ensures Model() == Register(old(Model()), key, id)
    {
      operationsInProgress := operationsInProgress[key := id];
    }

    method Resume(key: Key, outcome: Outcome<T>, now: int)
      modifies this
      ensures Model() == Complete(old(Model()), key, outcome, now)
    {
      if outcome.Resolved? {
        completedOperations := completedOperations[key := Stored(outcome.value, now)];
      }
      operationsInProgress := operationsInProgress - {key};
    }

    method Cleanup(now: int)
      modifies this
      ensures Model() == Sweep(old(Model()), now)
    {
      var expiredKeys: set<Key> := {};
      var remaining := completedOperations.Keys;
      while remaining != {}
        invariant remaining <= completedOperations.Keys
        invariant expiredKeys == OverdueKeys(completedOperations, now) - remaining
        invariant Model() == old(Model())
        decreases remaining
      {
        var key :| key in remaining;
        remaining := remaining - {key};
        if now - completedOperations[key].timestamp > TTL_MS {
          expiredKeys := expiredKeys + {key};
        }
      }
      var doomed := expiredKeys;
      while doomed != {}
        invariant doomed <= expiredKeys
        invariant completedOperations == old(completedOperations) - (expiredKeys - doomed)
        invariant operationsInProgress == old(operationsInProgress)
        decreases doomed
      {
        var key :| key in doomed;
        doomed := doomed - {key};
        completedOperations := completedOperations - {key};
      }
    }
  }
}

/**
 * executeWithIdempotency under every interleaving. A call that executes runs the synchronous part of its
 * operation before its promise is registered; calls made by that part nest. Otherwise any waiting call may
 * resume, any operation may settle, and cleanup may run, in any order.
 */
module IdempotentRuns {
  import opened Options
  import opened Idempotency

  datatype Result<+T> = Returned(data: T, isNew: bool) | Threw(error: string)

  /** `from` names the execution a finished call reports. */
  datatype Call<+T> =
    | Entering(key: Key)
    | Awaiting(key: Key)
    | Joined(key: Key, promise: CallId)
    | Done(key: Key, result: Result<T>, from: CallId)

  datatype Execution<+T> = Execution(key: Key, startedAt: int, outcome: Option<Outcome<T>>, finishedAt: Option<int>)

  /** `authors` remembers which execution made each record; the service does not store it. */
  datatype System<T> = System(
    tables: Tables<T>,
    stack: seq<CallId>,
    calls: map<CallId, Call<T>>,
    execs: map<CallId, Execution<T>>,
    authors: map<Key, CallId>,
    now: int)

  datatype Step<+T> =
    | Call(id: CallId, key: Key)
    | RegisterTop
    | Settle(id: CallId, outcome: Outcome<T>)
    | ResumeInitiator(id: CallId)
    | ResumeJoiner(id: CallId)
    | Cleanup
    | Tick(ms: nat)

  function Start<T>(now: int): System<T> {
    System(Tables(map[], map[]), [], map[], map[], map[], now)
  }

  predicate Enabled<T>(s: System<T>, step: Step<T>) {
    match step
    case Call(id, _) => id !in s.calls
    case RegisterTop => s.stack != [] && Top(s) in s.calls && s.calls[Top(s)].Entering?
    case Settle(id, _) =>
      s.stack == [] && id in s.calls && s.calls[id].Awaiting? && id in s.execs && s.execs[id].outcome.None?
    case ResumeInitiator(id) =>
      s.stack == [] && id in s.calls && s.calls[id].Awaiting? && id in s.execs && s.execs[id].outcome.Some?
    case ResumeJoiner(id) =>
      s.stack == [] && id in s.calls && s.calls[id].Joined? && s.calls[id].promise in s.execs
      && s.execs[s.calls[id].promise].outcome.Some?
    case Cleanup => s.stack == []
    case Tick(_) => true
  }

  function Top<T>(s: System<T>): CallId
    requires s.stack != []
  {
    s.stack[|s.stack| - 1]
  }

  function ResultOf<T>(outcome: Outcome<T>, isNew: bool): Result<T> {
    match outcome
    case Resolved(v) => Returned(v, isNew)
    case Rejected(e) => Threw(e)
  }

  function Next<T>(s: System<T>, step: Step<T>): System<T>
    requires Enabled(s, step)
  {
    match step
    case Call(id, key) =>
      (match Decide(s.tables, key)
       case Replay(data) =>
         s.(calls := s.calls[id := Done(key, Returned(data, false), if key in s.authors then s.authors[key] else id)])
       case Join(p) => s.(calls := s.calls[id := Joined(key, p)])
       case Execute =>
         s.(calls := s.calls[id := Entering(key)],
            execs := s.execs[id := Execution(key, s.now, None, None)],
            stack := s.stack + [id]))
    case RegisterTop =>
      var key := s.calls[Top(s)].key;
      s.(tables := Register(s.tables, key, Top(s)),
         calls := s.calls[Top(s) := Awaiting(key)],
         stack := s.stack[..|s.stack| - 1])
    case Settle(id, outcome) => s.(execs := s.execs[id := s.execs[id].(outcome := Some(outcome))])
    case ResumeInitiator(id) =>
      var key, outcome := s.calls[id].key, s.execs[id].outcome.value;
      s.(tables := Complete(s.tables, key, outcome, s.now),
         calls := s.calls[id := Done(key, ResultOf(outcome, true), id)],
         execs := s.execs[id := s.execs[id].(finishedAt := Some(s.now))],
         authors := if outcome.Resolved? then s.authors[key := id] else s.authors)
    case ResumeJoiner(id) =>
      var c := s.calls[id];
      s.(calls := s.calls[id := Done(c.key, ResultOf(s.execs[c.promise].outcome.value, false), c.promise)])
    case Cleanup => s.(tables := Sweep(s.tables, s.now))
    case Tick(ms) => s.(now := s.now + ms)
  }

  // ---------- The invariant ----------

  /** The stack holds exactly the calls being entered, for different keys that have no promise yet. */
  ghost predicate StackSound<T>(s: System<T>) {
    && (forall i :: 0 <= i < |s.stack| ==>
          s.stack[i] in s.calls && s.calls[s.stack[i]].Entering?
          && s.calls[s.stack[i]].key !in s.tables.inProgress)
    && (forall i, j :: 0 <= i < j < |s.stack| ==> s.calls[s.stack[i]].key != s.calls[s.stack[j]].key)
    && (forall c :: c in s.calls && s.calls[c].Entering? ==> c in s.stack)
  }

  /** The in-progress map holds exactly the initiators that wait for their promise. */
  ghost predicate PromisesSound<T>(s: System<T>) {
    && (forall k :: k in s.tables.inProgress ==>
          s.tables.inProgress[k] in s.calls && s.calls[s.tables.inProgress[k]] == Awaiting(k))
    && (forall c :: c in s.calls && s.calls[c].Awaiting? ==>
          s.calls[c].key in s.tables.inProgress && s.tables.inProgress[s.calls[c].key] == c)
  }

  /** What a call's stage says about its own execution, or the one it has joined. */
  predicate CallSound<T>(c: CallId, call: Call<T>, execs: map<CallId, Execution<T>>) {
    match call
    case Entering(_) => c in execs && execs[c].finishedAt.None? && execs[c].outcome.None?
    case Awaiting(_) => c in execs && execs[c].finishedAt.None?
    case Joined(key, p) => c !in execs && p in execs && execs[p].key == key
    case Done(_, _, _) => c in execs ==> execs[c].finishedAt.Some? && execs[c].outcome.Some?
  }

  ghost predicate ExecutionsSound<T>(s: System<T>) {
    && (forall x :: x in s.execs ==> x in s.calls && s.calls[x].key == s.execs[x].key)
    && (forall c :: c in s.calls ==> CallSound(c, s.calls[c], s.execs))
  }

  ghost predicate Linked<T>(s: System<T>) {
    StackSound(s) && PromisesSound(s) && ExecutionsSound(s)
  }

  /** A finished call reports the outcome of an execution of its key, and is new only for its own. */
  ghost predicate Reports<T>(s: System<T>) {
    forall c :: c in s.calls && s.calls[c].Done? ==>
      var from := s.calls[c].from;
      && from in s.execs && s.execs[from].key == s.calls[c].key
      && s.execs[from].outcome.Some?
      && s.calls[c].result == ResultOf(s.execs[from].outcome.value, c == from)
      && (c in s.execs ==> from == c)
  }

  /** A record holds the value of the execution that made it. */
  ghost predicate Recorded<T>(s: System<T>) {
    forall k :: k in s.tables.completed ==>
      && k in s.authors && s.authors[k] in s.execs
      && var x := s.execs[s.authors[k]];
         x.key == k && x.outcome == Some(Resolved(s.tables.completed[k].data))
         && x.finishedAt == Some(s.tables.completed[k].timestamp)
  }

  predicate Succeeded<T>(x: Execution<T>) {
    x.finishedAt.Some? && x.outcome.Some? && x.outcome.value.Resolved?
  }

  ghost predicate Unfinished<T>(s: System<T>, x: CallId)
    requires x in s.execs
  {
    s.execs[x].finishedAt.None?
  }

  ghost predicate AtMostOneRunning<T>(s: System<T>) {
    forall a, b :: a in s.execs && b in s.execs && a != b && s.execs[a].key == s.execs[b].key ==>
      !Unfinished(s, a) || !Unfinished(s, b)
  }

  /** `a` is over before `b` starts, and by more than TTL_MS when it succeeded. */
  predicate Before<T>(a: Execution<T>, b: Execution<T>) {
    && a.finishedAt.Some? && a.outcome.Some?
    && a.finishedAt.value <= b.startedAt
    && (a.outcome.value.Resolved? ==> b.startedAt > a.finishedAt.value + TTL_MS)
  }

  ghost predicate AllOrdered<T>(execs: map<CallId, Execution<T>>) {
    forall a, b :: a in execs && b in execs && a != b && execs[a].key == execs[b].key ==>
      Before(execs[a], execs[b]) || Before(execs[b], execs[a])
  }

  ghost predicate Ordered<T>(s: System<T>) {
    AllOrdered(s.execs)
  }

  /** Every success is still recorded, superseded, or more than TTL_MS old; nothing ends in the future. */
  ghost predicate Remembered<T>(s: System<T>) {
    && (forall x :: x in s.execs && s.execs[x].finishedAt.Some? ==> s.execs[x].finishedAt.value <= s.now)
    && (forall x :: x in s.execs && Succeeded(s.execs[x]) ==>
          || s.now > s.execs[x].finishedAt.value + TTL_MS
          || (s.execs[x].key in s.tables.completed
              && s.tables.completed[s.execs[x].key].timestamp >= s.execs[x].finishedAt.value))
  }

  /** While a key has an unfinished execution it has no record. */
  ghost predicate Exclusive<T>(s: System<T>) {
    forall x :: x in s.execs && Unfinished(s, x) ==> s.execs[x].key !in s.tables.completed
  }

  ghost predicate Invariant<T>(s: System<T>) {
    Linked(s) && Reports(s) && Recorded(s) && Ordered(s) && Remembered(s) && Exclusive(s)
  }

  /** The operation on the stack calls again for a key that is being entered. */
  predicate Reenters<T>(s: System<T>, step: Step<T>) {
    step.Call? && exists i :: 0 <= i < |s.stack| && s.stack[i] in s.calls && s.calls[s.stack[i]].key == step.key
  }

  // ---------- Every step keeps it ----------

  lemma StackKept<T>(s: System<T>, step: Step<T>)
    requires Enabled(s, step) && StackSound(s) && !Reenters(s, step)
    ensures StackSound(Next(s, step))
  {
    hide StackSound, Next, Reenters, Enabled;
    match step
    case Call(id, key) => StackCall(s, step);
    case RegisterTop => StackRegister(s);
    case _ => StackElse(s, step);
  }

  lemma StackCall<T>(s: System<T>, step: Step<T>)
    requires Enabled(s, step) && step.Call? && StackSound(s) && !Reenters(s, step)
    ensures StackSound(Next(s, step))
  {
    NoneReentered(s, step);
    hide Reenters;
    var t := Next(s, step);
    if Decide(s.tables, step.key) == Execute {
      StackPushed(s, t, step.id, step.key);
    } else {
      assert t.stack == s.stack && t.tables == s.tables && !t.calls[step.id].Entering?;
    }
  }

  lemma NoneReentered<T>(s: System<T>, step: Step<T>)
    requires step.Call? && StackSound(s) && !Reenters(s, step)
    ensures forall i :: 0 <= i < |s.stack| ==> s.calls[s.stack[i]].key != step.key
  {
  }

  lemma StackPushed<T>(s: System<T>, t: System<T>, id: CallId, key: Key)
    requires StackSound(s) && id !in s.calls && key !in s.tables.inProgress
    requires t.stack == s.stack + [id] && t.calls == s.calls[id := Entering(key)] && t.tables == s.tables
    requires forall i :: 0 <= i < |s.stack| ==> s.calls[s.stack[i]].key != key
    ensures StackSound(t)
  {
    assert forall i :: 0 <= i < |s.stack| ==> t.stack[i] == s.stack[i];
    assert t.stack[|s.stack|] == id;
    forall c | c in t.calls && t.calls[c].Entering? ensures c in t.stack {
      assert c == id || c in s.stack;
    }
  }

  lemma StackElse<T>(s: System<T>, step: Step<T>)
    requires Enabled(s, step) && !step.Call? && !step.RegisterTop? && StackSound(s)
    ensures StackSound(Next(s, step))
  {
  }

  lemma StackRegister<T>(s: System<T>)
    requires Enabled(s, RegisterTop) && StackSound(s)
    ensures StackSound(Next(s, RegisterTop))
  {
    var t := Next(s, RegisterTop);
    var n := |s.stack| - 1;
    assert s.stack == t.stack + [s.stack[n]];
    assert forall i :: 0 <= i < n ==> t.stack[i] == s.stack[i] && s.calls[s.stack[i]].key != s.calls[s.stack[n]].key;
    forall c | c in t.calls && t.calls[c].Entering? ensures c in t.stack {
      assert c in s.stack && c != s.stack[n];
    }
  }

  lemma PromisesKept<T>(s: System<T>, step: Step<T>)
    requires Enabled(s, step) && StackSound(s) && PromisesSound(s)
    ensures PromisesSound(Next(s, step))
  {
    hide StackSound, PromisesSound, Next, Enabled;
    match step
    case RegisterTop => PromisesRegister(s);
    case ResumeInitiator(id) => PromisesInitiator(s, id);
    case Call(id, key) => PromisesCall(s, id, key);
    case ResumeJoiner(id) => PromisesJoiner(s, id);
    case _ => PromisesElse(s, step);
  }

  lemma PromisesInitiator<T>(s: System<T>, id: CallId)
    requires Enabled(s, ResumeInitiator(id)) && PromisesSound(s)
    ensures PromisesSound(Next(s, ResumeInitiator(id)))
  {
  }

  lemma PromisesCall<T>(s: System<T>, id: CallId, key: Key)
    requires Enabled(s, Call(id, key)) && PromisesSound(s)
    ensures PromisesSound(Next(s, Call(id, key)))
  {
  }

  lemma PromisesJoiner<T>(s: System<T>, id: CallId)
    requires Enabled(s, ResumeJoiner(id)) && PromisesSound(s)
    ensures PromisesSound(Next(s, ResumeJoiner(id)))
  {
  }

  lemma PromisesElse<T>(s: System<T>, step: Step<T>)
    requires Enabled(s, step) && (step.Settle? || step.Cleanup? || step.Tick?) && PromisesSound(s)
    ensures PromisesSound(Next(s, step))
  {
  }

  lemma PromisesRegister<T>(s: System<T>)
    requires Enabled(s, RegisterTop) && StackSound(s) && PromisesSound(s)
    ensures PromisesSound(Next(s, RegisterTop))
  {
    assert s.stack[|s.stack| - 1] == Top(s);
  }

  lemma ExecutionsKept<T>(s: System<T>, step: Step<T>)
    requires Enabled(s, step) && PromisesSound(s) && ExecutionsSound(s)
    ensures ExecutionsSound(Next(s, step))
  {
    hide PromisesSound, ExecutionsSound, Next;
    match step
    case Call(id, key) => ExecutionsCall(s, id, key);
    case RegisterTop => ExecutionsRegister(s);
    case Settle(id, outcome) => ExecutionsSettle(s, id, outcome);
    case ResumeInitiator(id) => ExecutionsInitiator(s, id);
    case ResumeJoiner(id) => ExecutionsJoiner(s, id);
    case _ => ExecutionsElse(s, step);
  }

  lemma ExecutionsRegister<T>(s: System<T>)
    requires Enabled(s, RegisterTop) && ExecutionsSound(s)
    ensures ExecutionsSound(Next(s, RegisterTop))
  {
    assert CallSound(Top(s), s.calls[Top(s)], s.execs);
  }

  lemma ExecutionsSettle<T>(s: System<T>, id: CallId, outcome: Outcome<T>)
    requires Enabled(s, Settle(id, outcome)) && ExecutionsSound(s)
    ensures ExecutionsSound(Next(s, Settle(id, outcome)))
  {
    var t := Next(s, Settle(id, outcome));
    forall c | c in t.calls ensures CallSound(c, t.calls[c], t.execs) {
      assert CallSound(c, s.calls[c], s.execs);
    }
  }

  lemma ExecutionsInitiator<T>(s: System<T>, id: CallId)
    requires Enabled(s, ResumeInitiator(id)) && ExecutionsSound(s)
    ensures ExecutionsSound(Next(s, ResumeInitiator(id)))
  {
    var t := Next(s, ResumeInitiator(id));
    forall c | c in t.calls ensures CallSound(c, t.calls[c], t.execs) {
      assert CallSound(c, s.calls[c], s.execs);
    }
  }

  lemma ExecutionsElse<T>(s: System<T>, step: Step<T>)
    requires Enabled(s, step) && (step.Cleanup? || step.Tick?) && ExecutionsSound(s)
    ensures ExecutionsSound(Next(s, step))
  {
    hide CallSound;
  }

  lemma ExecutionsCall<T>(s: System<T>, id: CallId, key: Key)
    requires id !in s.calls && PromisesSound(s) && ExecutionsSound(s)
    ensures ExecutionsSound(Next(s, Call(id, key)))
  {
    hide ExecutionsSound, PromisesSound, Next;
    OwnIsNew(s, id);
    JoinedIsSound(s, key);
    match Decide(s.tables, key)
    case Replay(_) => ExecutionsAnswered(s, id, key);
    case Join(_) => ExecutionsAnswered(s, id, key);
    case Execute => ExecutionsExecute(s, id, key);
  }

  lemma ExecutionsAnswered<T>(s: System<T>, id: CallId, key: Key)
    requires id !in s.calls && id !in s.execs && !Decide(s.tables, key).Execute? && ExecutionsSound(s)
    requires Decide(s.tables, key).Join? ==> var p := Decide(s.tables, key).promise; p in s.execs && s.execs[p].key == key
    ensures ExecutionsSound(Next(s, Call(id, key)))
  {
    hide Decide;
  }

  lemma ExecutionsExecute<T>(s: System<T>, id: CallId, key: Key)
    requires id !in s.calls && id !in s.execs && Decide(s.tables, key).Execute? && ExecutionsSound(s)
    ensures ExecutionsSound(Next(s, Call(id, key)))
  {
    hide Decide;
    OthersSound(s.calls, s.execs, Next(s, Call(id, key)).execs, id);
    assert Next(s, Call(id, key)).calls == s.calls[id := Entering(key)];
  }

  lemma JoinedIsSound<T>(s: System<T>, key: Key)
    requires PromisesSound(s) && ExecutionsSound(s)
    ensures Decide(s.tables, key).Join? ==> var p := Decide(s.tables, key).promise; p in s.execs && s.execs[p].key == key
  {
    if Decide(s.tables, key).Join? {
      var p := s.tables.inProgress[key];
      assert CallSound(p, s.calls[p], s.execs);
    }
  }

  lemma OwnIsNew<T>(s: System<T>, id: CallId)
    requires id !in s.calls && ExecutionsSound(s)
    ensures id !in s.execs
  {
  }

  /** A new execution changes nothing for the calls there were. */
  lemma OthersSound<T>(calls: map<CallId, Call<T>>, was: map<CallId, Execution<T>>, execs: map<CallId, Execution<T>>, id: CallId)
    requires id !in calls && (forall c :: c in calls ==> CallSound(c, calls[c], was))
    requires id !in was && (execs == was || (id in execs && execs == was[id := execs[id]]))
    ensures forall c :: c in calls ==> CallSound(c, calls[c], execs)
  {
    forall c | c in calls ensures CallSound(c, calls[c], execs) {
      assert CallSound(c, calls[c], was);
    }
  }

  lemma ExecutionsJoiner<T>(s: System<T>, id: CallId)
    requires Enabled(s, ResumeJoiner(id)) && ExecutionsSound(s)
    ensures ExecutionsSound(Next(s, ResumeJoiner(id)))
  {
    assert CallSound(id, s.calls[id], s.execs);
  }

  lemma ReportsKept<T>(s: System<T>, step: Step<T>)
    requires Enabled(s, step) && Linked(s) && Reports(s) && Recorded(s)
    ensures Reports(Next(s, step))
  {
    hide StackSound, PromisesSound, ExecutionsSound, Reports, Recorded, Next, Enabled;
    match step
    case Call(id, key) => ReportsCall(s, id, key);
    case Settle(id, outcome) => ReportsSettle(s, id, outcome);
    case ResumeInitiator(id) => ReportsInitiator(s, id);
    case ResumeJoiner(id) => ReportsJoiner(s, id);
    case _ => ReportsElse(s, step);
  }

  lemma ReportsCall<T>(s: System<T>, id: CallId, key: Key)
    requires Enabled(s, Call(id, key)) && ExecutionsSound(s) && Reports(s) && Recorded(s)
    ensures Reports(Next(s, Call(id, key)))
  {
    hide CallSound;
  }

  lemma ReportsSettle<T>(s: System<T>, id: CallId, outcome: Outcome<T>)
    requires Enabled(s, Settle(id, outcome)) && Reports(s)
    ensures Reports(Next(s, Settle(id, outcome)))
  {
  }

  lemma ReportsInitiator<T>(s: System<T>, id: CallId)
    requires Enabled(s, ResumeInitiator(id)) && ExecutionsSound(s) && Reports(s)
    ensures Reports(Next(s, ResumeInitiator(id)))
  {
    hide CallSound;
  }

  lemma ReportsJoiner<T>(s: System<T>, id: CallId)
    requires Enabled(s, ResumeJoiner(id)) && ExecutionsSound(s) && Reports(s)
    ensures Reports(Next(s, ResumeJoiner(id)))
  {
    assert CallSound(id, s.calls[id], s.execs);
  }

  lemma ReportsElse<T>(s: System<T>, step: Step<T>)
    requires Enabled(s, step) && (step.RegisterTop? || step.Cleanup? || step.Tick?) && Reports(s)
    ensures Reports(Next(s, step))
  {
  }

  lemma RecordedKept<T>(s: System<T>, step: Step<T>)
    requires Enabled(s, step) && Linked(s) && Recorded(s)
    ensures Recorded(Next(s, step))
  {
    hide StackSound, PromisesSound, ExecutionsSound, Recorded, Next, Enabled;
    match step
    case Call(id, key) => RecordedCall(s, id, key);
    case Settle(id, outcome) => RecordedSettle(s, id, outcome);
    case ResumeInitiator(id) => RecordedInitiator(s, id);
    case _ => RecordedElse(s, step);
  }

  lemma RecordedCall<T>(s: System<T>, id: CallId, key: Key)
    requires Enabled(s, Call(id, key)) && ExecutionsSound(s) && Recorded(s)
    ensures Recorded(Next(s, Call(id, key)))
  {
    hide CallSound;
  }

  lemma RecordedSettle<T>(s: System<T>, id: CallId, outcome: Outcome<T>)
    requires Enabled(s, Settle(id, outcome)) && Recorded(s)
    ensures Recorded(Next(s, Settle(id, outcome)))
  {
  }

  lemma RecordedInitiator<T>(s: System<T>, id: CallId)
    requires Enabled(s, ResumeInitiator(id)) && ExecutionsSound(s) && PromisesSound(s) && Recorded(s)
    ensures Recorded(Next(s, ResumeInitiator(id)))
  {
    assert CallSound(id, s.calls[id], s.execs);
  }

  lemma RecordedElse<T>(s: System<T>, step: Step<T>)
    requires Enabled(s, step) && !step.Call? && !step.Settle? && !step.ResumeInitiator? && Recorded(s)
    ensures Recorded(Next(s, step))
  {
  }

  /** A call executes only when every earlier execution of its key is over, successes by more than TTL_MS. */
  lemma ExecuteFindsAllOver<T>(s: System<T>, key: Key, x: CallId, id: CallId)
    requires Invariant(s) && Decide(s.tables, key) == Execute && !Reenters(s, Call(id, key))
    requires x in s.execs && s.execs[x].key == key
    ensures Before(s.execs[x], Execution(key, s.now, None, None))
  {
    assert CallSound(x, s.calls[x], s.execs);
    assert !s.calls[x].Awaiting?;
    assert s.calls[x].Entering? ==> x in s.stack;
  }

  /** Changing how an unfinished execution ends keeps all of them in order. */
  lemma OrderedChange<T>(before: map<CallId, Execution<T>>, after: map<CallId, Execution<T>>, x: CallId)
    requires x in before && before[x].finishedAt.None?
    requires exists e: Execution<T> :: e.key == before[x].key && e.startedAt == before[x].startedAt && after == before[x := e]
    requires AllOrdered(before)
    ensures AllOrdered(after)
  {
  }

  lemma OrderedKept<T>(s: System<T>, step: Step<T>)
    requires Enabled(s, step) && Invariant(s) && !Reenters(s, step)
    ensures Ordered(Next(s, step))
  {
    hide AllOrdered, Linked, Reports, Recorded, Remembered, Exclusive, Reenters;
    match step
    case Call(id, key) =>
      if Decide(s.tables, key) == Execute {
        OrderedCall(s, id, key);
      }
    case Settle(id, outcome) =>
      ExecutionsAreSound(s);
      OrderedSettle(s, id, outcome);
    case ResumeInitiator(id) =>
      ExecutionsAreSound(s);
      OrderedInitiator(s, id);
    case _ =>
  }

  lemma ExecutionsAreSound<T>(s: System<T>)
    requires Invariant(s)
    ensures ExecutionsSound(s)
  {
  }

  lemma OrderedSettle<T>(s: System<T>, id: CallId, outcome: Outcome<T>)
    requires Enabled(s, Settle(id, outcome)) && ExecutionsSound(s) && Ordered(s)
    ensures Ordered(Next(s, Settle(id, outcome)))
  {
    hide AllOrdered;
    assert CallSound(id, s.calls[id], s.execs);
    OrderedChange(s.execs, Next(s, Settle(id, outcome)).execs, id);
  }

  lemma OrderedInitiator<T>(s: System<T>, id: CallId)
    requires Enabled(s, ResumeInitiator(id)) && ExecutionsSound(s) && Ordered(s)
    ensures Ordered(Next(s, ResumeInitiator(id)))
  {
    hide AllOrdered;
    assert CallSound(id, s.calls[id], s.execs);
    OrderedChange(s.execs, Next(s, ResumeInitiator(id)).execs, id);
  }

  lemma OrderedCall<T>(s: System<T>, id: CallId, key: Key)
    requires id !in s.calls && Invariant(s) && Decide(s.tables, key) == Execute && !Reenters(s, Call(id, key))
    ensures Ordered(Next(s, Call(id, key)))
  {
    forall x | x in s.execs && s.execs[x].key == key
      ensures Before(s.execs[x], Execution(key, s.now, None, None))
    {
      ExecuteFindsAllOver(s, key, x, id);
    }
    hide Linked, Reports, Recorded, Remembered, Exclusive, Before;
  }

  lemma RememberedKept<T>(s: System<T>, step: Step<T>)
    requires Enabled(s, step) && ExecutionsSound(s) && Remembered(s)
    ensures Remembered(Next(s, step))
  {
    match step
    case Call(id, key) =>
    case RegisterTop =>
    case Settle(id, outcome) =>
    case ResumeInitiator(id) => RememberedResume(s, id);
    case ResumeJoiner(id) =>
    case Cleanup =>
    case Tick(ms) =>
  }

  lemma RememberedResume<T>(s: System<T>, id: CallId)
    requires Enabled(s, ResumeInitiator(id)) && ExecutionsSound(s) && Remembered(s)
    ensures Remembered(Next(s, ResumeInitiator(id)))
  {
  }

  lemma ExclusiveKept<T>(s: System<T>, step: Step<T>)
    requires Enabled(s, step) && Linked(s) && Exclusive(s)
    ensures Exclusive(Next(s, step))
  {
    match step
    case ResumeInitiator(id) => ExclusiveResume(s, id);
    case Call(id, key) => hide StackSound, PromisesSound;
    case Settle(id, outcome) => hide StackSound, PromisesSound;
    case _ => hide Linked;
  }

  lemma ExclusiveResume<T>(s: System<T>, id: CallId)
    requires Enabled(s, ResumeInitiator(id)) && Linked(s) && Exclusive(s)
    ensures Exclusive(Next(s, ResumeInitiator(id)))
  {
    var t := Next(s, ResumeInitiator(id));
    forall x | x in t.execs && Unfinished(t, x) ensures t.execs[x].key !in t.tables.completed {
      assert x != id && Unfinished(s, x) && CallSound(x, s.calls[x], s.execs);
      assert !s.calls[x].Entering? && !s.calls[x].Done? && s.calls[x].Awaiting?;
      assert s.tables.inProgress[s.calls[x].key] == x && s.tables.inProgress[s.calls[id].key] == id;
    }
  }

  lemma InvariantKept<T>(s: System<T>, step: Step<T>)
    requires Enabled(s, step) && Invariant(s) && !Reenters(s, step)
    ensures Invariant(Next(s, step))
  {
    StackKept(s, step);
    PromisesKept(s, step);
    ExecutionsKept(s, step);
    ReportsKept(s, step);
    RecordedKept(s, step);
    OrderedKept(s, step);
    RememberedKept(s, step);
    ExclusiveKept(s, step);
    hide StackSound, PromisesSound, ExecutionsSound, Reports, Recorded, Ordered, Remembered, Exclusive;
  }

  // ---------- Over whole runs ----------

  /** `steps` can happen in this order, and no operation re-enters its own key while it is being entered. */
  ghost predicate Legal<T>(steps: seq<Step<T>>, now: int)
    decreases |steps|, 0
  {
    steps == [] ||
    var n := |steps| - 1;
    Legal(steps[..n], now) && Enabled(After(steps[..n], now), steps[n]) && !Reenters(After(steps[..n], now), steps[n])
  }

  ghost function After<T>(steps: seq<Step<T>>, now: int): System<T>
    requires Legal(steps, now)
    decreases |steps|, 1
  {
    if steps == [] then Start(now) else Next(After(steps[..|steps| - 1], now), steps[|steps| - 1])
  }

  lemma {:induction false} InvariantInEveryRun<T>(steps: seq<Step<T>>, now: int)
    requires Legal(steps, now)
    ensures Invariant(After(steps, now))
    decreases |steps|
  {
    if steps != [] {
      hide Invariant, Next, Enabled;
      var n := |steps| - 1;
      InvariantInEveryRun(steps[..n], now);
      InvariantKept(After(steps[..n], now), steps[n]);
    }
  }

  /** In every run a key has at most one unfinished execution; the executions of a key follow one another,
      and after a success the next starts more than TTL_MS after the moment the success was recorded. */
  lemma ExecutionsNeverOverlap<T>(steps: seq<Step<T>>, now: int, a: CallId, b: CallId)
    requires Legal(steps, now)
    requires var s := After(steps, now); a in s.execs && b in s.execs && a != b && s.execs[a].key == s.execs[b].key
    ensures var s := After(steps, now);
      && (s.execs[a].finishedAt.Some? || s.execs[b].finishedAt.Some?)
      && (Before(s.execs[a], s.execs[b]) || Before(s.execs[b], s.execs[a]))
  {
    InvariantInEveryRun(steps, now);
    hide Linked, Reports, Recorded, Remembered, Exclusive;
  }

  /** When an initiator resumes, the entry its finally clause deletes is its own, and no other changes. */
  lemma FinallyDeletesOwnEntry<T>(steps: seq<Step<T>>, now: int, id: CallId)
    requires Legal(steps, now) && Enabled(After(steps, now), ResumeInitiator(id))
    ensures var s := After(steps, now); var t := Next(s, ResumeInitiator(id));
      && s.calls[id].key in s.tables.inProgress && s.tables.inProgress[s.calls[id].key] == id
      && (forall k :: k in t.tables.inProgress <==> k in s.tables.inProgress && s.tables.inProgress[k] != id)
      && (forall k :: k in t.tables.inProgress ==> t.tables.inProgress[k] == s.tables.inProgress[k])
  {
    InvariantInEveryRun(steps, now);
    hide StackSound, ExecutionsSound, Reports, Recorded, Ordered, Remembered, Exclusive;
  }

  /** Whoever a finished call was answered by: an execution of the same key whose outcome it reports exactly;
      it says isNew only for its own execution. */
  lemma AnswersAreExact<T>(steps: seq<Step<T>>, now: int, c: CallId)
    requires Legal(steps, now)
    requires var s := After(steps, now); c in s.calls && s.calls[c].Done?
    ensures var s := After(steps, now); var x := s.calls[c].from;
      && x in s.execs && s.execs[x].key == s.calls[c].key
      && s.execs[x].outcome.Some?
      && (match s.execs[x].outcome.value
          case Resolved(v) => s.calls[c].result == Returned(v, c == x)
          case Rejected(e) => s.calls[c].result == Threw(e))
      && (c in s.execs <==> c == x)
  {
    InvariantInEveryRun(steps, now);
    hide StackSound, PromisesSound, ExecutionsSound, Recorded, Ordered, Remembered, Exclusive;
  }

  /** Each success is new exactly once: its own call has reported it as new, and no other call does. */
  lemma SuccessIsNewExactlyOnce<T>(steps: seq<Step<T>>, now: int, x: CallId)
    requires Legal(steps, now)
    requires var s := After(steps, now); x in s.execs && Succeeded(s.execs[x])
    ensures var s := After(steps, now); var value := s.execs[x].outcome.value.value;
      && x in s.calls && s.calls[x] == Done(s.execs[x].key, Returned(value, true), x)
      && (forall c :: c in s.calls && s.calls[c].Done? && s.calls[c].from == x ==>
            s.calls[c].result == Returned(value, c == x))
  {
    InvariantInEveryRun(steps, now);
    hide StackSound, PromisesSound, Recorded, Ordered, Remembered, Exclusive;
    var s := After(steps, now);
    assert CallSound(x, s.calls[x], s.execs);
  }

  lemma {:induction false} LegalPrefix<T>(steps: seq<Step<T>>, now: int, k: nat)
    requires Legal(steps, now) && k <= |steps|
    ensures Legal(steps[..k], now)
    decreases |steps|
  {
    if k < |steps| {
      LegalPrefix(steps[..|steps| - 1], now, k);
      assert steps[..|steps| - 1][..k] == steps[..k];
    } else {
      assert steps[..k] == steps;
    }
  }

  /** The state after the first k steps of a run. */
  ghost function At<T>(steps: seq<Step<T>>, now: int, k: nat): System<T>
    requires Legal(steps, now) && k <= |steps|
  {
    LegalPrefix(steps, now, k);
    After(steps[..k], now)
  }

  /** A joined call stays joined until it reports the execution it joined. */
  ghost predicate JoinedTo<T>(s: System<T>, c: CallId, p: CallId, key: Key) {
    && c in s.calls && p in s.execs
    && (s.calls[c] == Joined(key, p)
        || (s.execs[p].outcome.Some? && s.calls[c] == Done(key, ResultOf(s.execs[p].outcome.value, false), p)))
  }

  lemma JoinedStays<T>(s: System<T>, step: Step<T>, c: CallId, p: CallId, key: Key)
    requires Enabled(s, step) && ExecutionsSound(s) && JoinedTo(s, c, p, key)
    ensures JoinedTo(Next(s, step), c, p, key)
  {
  }

  /** Over a run: whoever joins an execution is answered by it and by nothing else, with its data and never as new,
      or with its error. */
  lemma {:induction false} JoinersAreAnswered<T>(steps: seq<Step<T>>, now: int, k: nat, c: CallId)
    requires Legal(steps, now) && k <= |steps|
    requires var s := At(steps, now, k); c in s.calls && s.calls[c].Joined?
    ensures var joined := At(steps, now, k).calls[c];
      JoinedTo(After(steps, now), c, joined.promise, joined.key)
    decreases |steps|
  {
    if k == |steps| {
      assert steps[..k] == steps;
      InvariantInEveryRun(steps, now);
      assert CallSound(c, After(steps, now).calls[c], After(steps, now).execs);
    } else {
      hide Enabled, Next, JoinedTo;
      var n := |steps| - 1;
      assert steps[..n][..k] == steps[..k];
      JoinersAreAnswered(steps[..n], now, k, c);
      InvariantInEveryRun(steps[..n], now);
      hide StackSound, PromisesSound, ExecutionsSound, Reports, Recorded, Ordered, Remembered, Exclusive;
      var joined := At(steps, now, k).calls[c];
      JoinedStays(After(steps[..n], now), steps[n], c, joined.promise, joined.key);
    }
  }

  /** Every call that joins an execution is answered by it, and a call that finds a record by the execution
      that made the record. */
  lemma JoinersGetTheirExecution<T>(steps: seq<Step<T>>, now: int, c: CallId, key: Key)
    requires Legal(steps, now)
    ensures var s := After(steps, now);
      && (Enabled(s, ResumeJoiner(c)) ==>
            Next(s, ResumeJoiner(c)).calls[c].Done? && Next(s, ResumeJoiner(c)).calls[c].from == s.calls[c].promise)
      && (Enabled(s, Call(c, key)) && key in s.tables.completed ==>
            key in s.authors &&
            var x := s.authors[key];
            && Next(s, Call(c, key)).calls[c] == Done(key, Returned(s.tables.completed[key].data, false), x)
            && x in s.execs && s.execs[x].outcome == Some(Resolved(s.tables.completed[key].data)))
  {
    InvariantInEveryRun(steps, now);
    hide StackSound, PromisesSound, ExecutionsSound, Ordered, Remembered, Exclusive;
  }

  /** A failed execution leaves its key free: the next call executes again. */
  lemma FailureFreesKey<T>(steps: seq<Step<T>>, now: int, id: CallId)
    requires Legal(steps, now) && Enabled(After(steps, now), ResumeInitiator(id))
    requires After(steps, now).execs[id].outcome.value.Rejected?
    ensures var s := After(steps, now);
      Decide(Next(s, ResumeInitiator(id)).tables, s.calls[id].key) == Execute
  {
    InvariantInEveryRun(steps, now);
    var s := After(steps, now);
    assert CallSound(id, s.calls[id], s.execs);
    hide StackSound, PromisesSound, Reports, Recorded, Ordered, Remembered;
  }

  /** Re-entry is the exact limit: from any state of a run, a call keeps at most one execution per key
      unfinished if and only if its key is not being entered further down the stack. */
  lemma SingleFlightExactlyWithoutReentry<T>(s: System<T>, id: CallId, key: Key)
    requires Invariant(s) && Enabled(s, Call(id, key))
    ensures AtMostOneRunning(Next(s, Call(id, key))) <==> !Reenters(s, Call(id, key))
  {
    var t := Next(s, Call(id, key));
    if Reenters(s, Call(id, key)) {
      var i :| 0 <= i < |s.stack| && s.stack[i] in s.calls && s.calls[s.stack[i]].key == key;
      var x := s.stack[i];
      assert CallSound(x, s.calls[x], s.execs);
      assert Unfinished(s, x) && key !in s.tables.completed && key !in s.tables.inProgress;
      assert x != id && Unfinished(t, x) && Unfinished(t, id);
    } else {
      OrderedKept(s, Call(id, key));
      OrderedIsAtMostOne(t);
    }
  }

  lemma OrderedIsAtMostOne<T>(s: System<T>)
    requires Ordered(s)
    ensures AtMostOneRunning(s)
  {
  }

  /** Such a call does occur: an operation that calls again for its own key before its promise is registered. */
  lemma ReentryRunsTwice<T>(key: Key, now: int)
    ensures var first: seq<Step<T>> := [Call(0, key)];
      && Legal(first, now) && Enabled(After(first, now), Call(1, key)) && Reenters(After(first, now), Call(1, key))
      && !AtMostOneRunning(Next(After(first, now), Call(1, key)))
  {
    var first: seq<Step<T>> := [Call(0, key)];
    assert first[..0] == [];
    assert Legal(first[..0], now) && After(first[..0], now) == Start(now);
    var s := After(first, now);
    assert s.stack[0] == 0 && s.calls[0].key == key;
    var t := Next(s, Call(1, key));
    assert 0 in t.execs && 1 in t.execs && t.execs[0].key == t.execs[1].key;
  }

  // ---------- What can happen next ----------

  /** In every state of a run: a new call can always be made, the clock can run, and a call being entered can register.
      When none is being entered, a call that waits for its own operation goes on once that has settled, which can
      happen at any time before; one that has joined goes on once the other has; and cleanup can run then only. */
  lemma WaitersGoOn<T>(steps: seq<Step<T>>, now: int, c: CallId, key: Key, outcome: Outcome<T>, ms: nat)
    requires Legal(steps, now)
    ensures var s := After(steps, now);
      && (c !in s.calls ==> Enabled(s, Call(c, key)))
      && Enabled(s, Tick(ms)) && Next(s, Tick(ms)).now == s.now + ms
      && (s.stack != [] <==> Enabled(s, RegisterTop)) && (s.stack == [] <==> Enabled(s, Cleanup))
      && (s.stack == [] ==>
            && (c in s.calls && s.calls[c].Awaiting? ==>
                  c in s.execs && if s.execs[c].outcome.None? then Enabled(s, Settle(c, outcome)) else Enabled(s, ResumeInitiator(c)))
            && (c in s.calls && s.calls[c].Joined? ==>
                  var p := s.calls[c].promise;
                  p in s.execs && (s.execs[p].outcome.Some? <==> Enabled(s, ResumeJoiner(c)))))
  {
    hide Invariant, StackSound, ExecutionsSound, Legal, After;
    InvariantInEveryRun(steps, now);
    var s := After(steps, now);
    LinkedOf(s);
    StackGoesOn(s);
    CallGoesOn(s, c, outcome);
  }

  lemma LinkedOf<T>(s: System<T>)
    requires Invariant(s)
    ensures StackSound(s) && ExecutionsSound(s)
  {
    hide StackSound, PromisesSound, ExecutionsSound, Reports, Recorded, Ordered, Remembered, Exclusive;
  }

  lemma StackGoesOn<T>(s: System<T>)
    requires StackSound(s)
    ensures s.stack != [] <==> Enabled(s, RegisterTop)
  {
    if s.stack != [] {
      assert s.stack[|s.stack| - 1] == Top(s);
    }
  }

  lemma CallGoesOn<T>(s: System<T>, c: CallId, outcome: Outcome<T>)
    requires ExecutionsSound(s)
    ensures c in s.calls && s.calls[c].Awaiting? ==> c in s.execs
    ensures s.stack == [] && c in s.calls && s.calls[c].Awaiting? ==>
      if s.execs[c].outcome.None? then Enabled(s, Settle(c, outcome)) else Enabled(s, ResumeInitiator(c))
    ensures c in s.calls && s.calls[c].Joined? ==> s.calls[c].promise in s.execs
    ensures s.stack == [] && c in s.calls && s.calls[c].Joined? ==>
      (s.execs[s.calls[c].promise].outcome.Some? <==> Enabled(s, ResumeJoiner(c)))
  {
    if c in s.calls {
      assert CallSound(c, s.calls[c], s.execs);
    }
  }

  // ---------- Records go after an hour ----------

  /** Right after a cleanup a key has a record if and only if it had one before it, whose execution had finished at most
      an hour earlier; and the record is unchanged. */
  lemma RecordsAfterCleanup<T>(steps: seq<Step<T>>, now: int, key: Key)
    requires Legal(steps, now) && steps != [] && steps[|steps| - 1] == Cleanup
    ensures var s, t := After(steps[..|steps| - 1], now), After(steps, now);
      && (key in t.tables.completed <==>
            && key in s.tables.completed && key in s.authors && s.authors[key] in s.execs
            && s.execs[s.authors[key]].finishedAt.Some?
            && s.now - s.execs[s.authors[key]].finishedAt.value <= 60 * 60 * 1000)
      && (key in t.tables.completed ==> t.tables.completed[key] == s.tables.completed[key])
      && t.tables.inProgress == s.tables.inProgress && t.execs == s.execs && t.calls == s.calls
  {
    InvariantInEveryRun(steps[..|steps| - 1], now);
    hide StackSound, PromisesSound, ExecutionsSound, Reports, Ordered, Remembered, Exclusive;
  }

  /** No record is of an earlier time. */
  ghost predicate YoungRecords<T>(s: System<T>, key: Key, since: int) {
    key in s.tables.completed ==> s.tables.completed[key].timestamp >= since
  }

  lemma YoungStays<T>(s: System<T>, step: Step<T>, key: Key, since: int)
    requires Enabled(s, step) && YoungRecords(s, key, since) && since <= s.now
    ensures YoungRecords(Next(s, step), key, since) && since <= Next(s, step).now
  {
  }

  lemma {:induction false} YoungSinceCleanup<T>(steps: seq<Step<T>>, now: int, k: nat, key: Key)
    requires Legal(steps, now) && k < |steps| && steps[k] == Cleanup
    ensures YoungRecords(After(steps, now), key, At(steps, now, k).now - 60 * 60 * 1000)
    ensures At(steps, now, k).now <= After(steps, now).now
    decreases |steps|
  {
    var n := |steps| - 1;
    hide Next, Enabled;
    assert steps[..n][..k] == steps[..k];
    if k == n {
      CleanupLeavesYoung(After(steps[..n], now), key);
    } else {
      YoungSinceCleanup(steps[..n], now, k, key);
      YoungStays(After(steps[..n], now), steps[n], key, At(steps, now, k).now - 60 * 60 * 1000);
      ClockRuns(After(steps[..n], now), steps[n]);
    }
  }

  lemma CleanupLeavesYoung<T>(s: System<T>, key: Key)
    requires Enabled(s, Cleanup)
    ensures YoungRecords(Next(s, Cleanup), key, s.now - 60 * 60 * 1000) && Next(s, Cleanup).now == s.now
  {
  }

  lemma ClockRuns<T>(s: System<T>, step: Step<T>)
    requires Enabled(s, step)
    ensures s.now <= Next(s, step).now
  {
  }

  /** Once a cleanup has come more than an hour after the last success of a key, and nothing of the key is in flight, a
      call of the key executes anew. */
  lemma CleanupFreesKey<T>(steps: seq<Step<T>>, now: int, k: nat, id: CallId, key: Key)
    requires Legal(steps, now) && k < |steps| && steps[k] == Cleanup
    requires var s := After(steps, now);
      && (forall x :: x in s.execs && s.execs[x].key == key && Succeeded(s.execs[x]) ==>
            At(steps, now, k).now - s.execs[x].finishedAt.value > 60 * 60 * 1000)
      && key !in s.tables.inProgress && id !in s.calls
    ensures Enabled(After(steps, now), Call(id, key))
    ensures var t := Next(After(steps, now), Call(id, key));
      t.calls[id] == Entering(key) && id in t.execs && t.execs[id].key == key && t.stack == After(steps, now).stack + [id]
  {
    YoungSinceCleanup(steps, now, k, key);
    InvariantInEveryRun(steps, now);
    hide StackSound, PromisesSound, ExecutionsSound, Reports, Ordered, Remembered, Exclusive;
    RecordIsOfSuccess(After(steps, now), key);
  }

  lemma RecordIsOfSuccess<T>(s: System<T>, key: Key)
    requires Recorded(s)
    ensures key in s.tables.completed ==>
      && key in s.authors && s.authors[key] in s.execs
      && var x := s.execs[s.authors[key]];
         x.key == key && Succeeded(x) && x.finishedAt == Some(s.tables.completed[key].timestamp)
  {
  }

  /** And no earlier: a success is replayed for an hour at least. */
  lemma SuccessIsReplayed<T>(steps: seq<Step<T>>, now: int, x: CallId, id: CallId)
    requires Legal(steps, now) && id !in After(steps, now).calls
    requires var s := After(steps, now);
      x in s.execs && Succeeded(s.execs[x]) && s.now - s.execs[x].finishedAt.value <= 60 * 60 * 1000
    ensures var s := After(steps, now); var key := s.execs[x].key;
      && key in s.tables.completed
      && Next(s, Call(id, key)).calls[id].Done? && Next(s, Call(id, key)).execs == s.execs
      && Next(s, Call(id, key)).calls[id].result == Returned(s.tables.completed[key].data, false)
  {
    InvariantInEveryRun(steps, now);
    hide StackSound, PromisesSound, ExecutionsSound, Reports, Recorded, Ordered, Exclusive;
  }

  // ---------- Runs in which operations may re-enter ----------

  /** `steps` can happen in this order. */
  ghost predicate Possible<T>(steps: seq<Step<T>>, now: int)
    decreases |steps|, 0
  {
    steps == [] ||
    var n := |steps| - 1;
    Possible(steps[..n], now) && Enabled(Reached(steps[..n], now), steps[n])
  }

  ghost function Reached<T>(steps: seq<Step<T>>, now: int): System<T>
    requires Possible(steps, now)
    decreases |steps|, 1
  {
    if steps == [] then Start(now) else Next(Reached(steps[..|steps| - 1], now), steps[|steps| - 1])
  }

  lemma {:induction false} PossiblePrefix<T>(steps: seq<Step<T>>, now: int, k: nat)
    requires Possible(steps, now) && k <= |steps|
    ensures Possible(steps[..k], now)
    ensures k < |steps| ==>
      && Enabled(Reached(steps[..k], now), steps[k])
      && Possible(steps[..k + 1], now) && Reached(steps[..k + 1], now) == Next(Reached(steps[..k], now), steps[k])
    decreases |steps|
  {
    hide Enabled, Next;
    if k < |steps| - 1 {
      var init := steps[..|steps| - 1];
      PossiblePrefix(init, now, k);
      assert init[..k] == steps[..k] && init[..k + 1] == steps[..k + 1];
    } else if k < |steps| {
      assert steps[..k + 1] == steps;
    } else {
      assert steps[..k] == steps;
    }
  }

  ghost predicate SingleAt<T>(steps: seq<Step<T>>, now: int, k: nat)
    requires Possible(steps, now) && k <= |steps|
  {
    PossiblePrefix(steps, now, k);
    AtMostOneRunning(Reached(steps[..k], now))
  }

  ghost predicate ReentersAt<T>(steps: seq<Step<T>>, now: int, k: nat)
    requires Possible(steps, now) && k < |steps|
  {
    PossiblePrefix(steps, now, k);
    Reenters(Reached(steps[..k], now), steps[k])
  }

  /** As long as nothing re-enters, a possible run is a legal one. */
  lemma {:induction false} LegalSoFar<T>(steps: seq<Step<T>>, now: int, k: nat)
    requires Possible(steps, now) && k <= |steps| && forall i :: 0 <= i < k ==> !ReentersAt(steps, now, i)
    ensures Legal(steps[..k], now) && Possible(steps[..k], now) && After(steps[..k], now) == Reached(steps[..k], now)
  {
    hide Enabled, Next, Reenters;
    PossiblePrefix(steps, now, k);
    if k > 0 {
      LegalSoFar(steps, now, k - 1);
      PossiblePrefix(steps, now, k - 1);
      assert !ReentersAt(steps, now, k - 1);
      assert steps[..k][..k - 1] == steps[..k - 1];
    }
  }

  lemma SingleSoFar<T>(steps: seq<Step<T>>, now: int, k: nat)
    requires Possible(steps, now) && k <= |steps| && forall i :: 0 <= i < k ==> !ReentersAt(steps, now, i)
    ensures SingleAt(steps, now, k)
  {
    hide ReentersAt, Legal, After, Possible, Reached, AtMostOneRunning;
    LegalSoFar(steps, now, k);
    InvariantInEveryRun(steps[..k], now);
    hide Linked, Reports, Recorded, Remembered, Exclusive, Ordered;
    OrderedIsAtMostOne(After(steps[..k], now));
  }

  /** The first re-entry makes two executions of its key run at once. */
  lemma FirstReentryDoubles<T>(steps: seq<Step<T>>, now: int, k: nat)
    requires Possible(steps, now) && k < |steps| && forall i :: 0 <= i < k ==> !ReentersAt(steps, now, i)
    requires ReentersAt(steps, now, k)
    ensures !SingleAt(steps, now, k + 1)
  {
    hide Legal, After, Invariant, Reenters, Enabled, Next, AtMostOneRunning;
    LegalSoFar(steps, now, k);
    PossiblePrefix(steps, now, k);
    InvariantInEveryRun(steps[..k], now);
    var s := Reached(steps[..k], now);
    ReentryIsCall(s, steps[k]);
    SingleFlightExactlyWithoutReentry(s, steps[k].id, steps[k].key);
  }

  lemma ReentryIsCall<T>(s: System<T>, step: Step<T>)
    requires Reenters(s, step)
    ensures step.Call?
  {
  }

  lemma {:induction false} NoReentryBefore<T>(steps: seq<Step<T>>, now: int, k: nat)
    requires Possible(steps, now) && k <= |steps| && forall i :: 0 <= i <= |steps| ==> SingleAt(steps, now, i)
    ensures forall i :: 0 <= i < k ==> !ReentersAt(steps, now, i)
  {
    hide Possible, SingleAt, ReentersAt;
    if k > 0 {
      NoReentryBefore(steps, now, k - 1);
      if ReentersAt(steps, now, k - 1) {
        FirstReentryDoubles(steps, now, k - 1);
        assert SingleAt(steps, now, k);
      }
    }
  }

  /** Over any run at all: every key has at most one unfinished execution all along if and only if no call re-enters. */
  lemma SingleFlightAllAlongExactlyWhen<T>(steps: seq<Step<T>>, now: int)
    requires Possible(steps, now)
    ensures (forall k :: 0 <= k <= |steps| ==> SingleAt(steps, now, k)) <==>
      (forall k :: 0 <= k < |steps| ==> !ReentersAt(steps, now, k))
  {
    hide Possible, SingleAt, ReentersAt;
    if forall k :: 0 <= k <= |steps| ==> SingleAt(steps, now, k) {
      NoReentryBefore(steps, now, |steps|);
    }
    if forall k :: 0 <= k < |steps| ==> !ReentersAt(steps, now, k) {
      forall k | 0 <= k <= |steps| ensures SingleAt(steps, now, k) {
        SingleSoFar(steps, now, k);
      }
    }
  }

  // ---------- Which entry finally deletes ----------

  /** Step k registers the promise of call x under `key`. */
  ghost predicate Registers<T>(steps: seq<Step<T>>, now: int, k: nat, key: Key, x: CallId)
    requires Possible(steps, now) && k < |steps|
  {
    PossiblePrefix(steps, now, k);
    var s := Reached(steps[..k], now);
    steps[k].RegisterTop? && Top(s) == x && s.calls[x].key == key
  }

  /** Step k registers a promise under `key`, or ends an execution of it and so deletes the entry. */
  ghost predicate Touches<T>(steps: seq<Step<T>>, now: int, k: nat, key: Key)
    requires Possible(steps, now) && k < |steps|
  {
    PossiblePrefix(steps, now, k);
    var s := Reached(steps[..k], now);
    (steps[k].RegisterTop? && s.calls[Top(s)].key == key) || (steps[k].ResumeInitiator? && s.calls[steps[k].id].key == key)
  }

  /** Call x was the last to register under `key`, and no execution of it has ended since. */
  ghost predicate RegisteredLast<T>(steps: seq<Step<T>>, now: int, key: Key, x: CallId)
    requires Possible(steps, now)
  {
    exists k :: 0 <= k < |steps| && Registers(steps, now, k, key, x) && forall i :: k < i < |steps| ==> !Touches(steps, now, i, key)
  }

  /** How one step changes the entry of a key. */
  lemma EntryNext<T>(s: System<T>, step: Step<T>, key: Key)
    requires Enabled(s, step)
    ensures var was, now := s.tables.inProgress, Next(s, step).tables.inProgress;
      if step.RegisterTop? && s.calls[Top(s)].key == key then key in now && now[key] == Top(s)
      else if step.ResumeInitiator? && s.calls[step.id].key == key then key !in now
      else (key in now <==> key in was) && (key in was ==> now[key] == was[key])
  {
  }

  lemma SameSteps<T>(steps: seq<Step<T>>, now: int, n: nat, k: nat, key: Key, x: CallId)
    requires Possible(steps, now) && k < n <= |steps|
    ensures Possible(steps[..n], now)
    ensures Registers(steps[..n], now, k, key, x) <==> Registers(steps, now, k, key, x)
    ensures Touches(steps[..n], now, k, key) <==> Touches(steps, now, k, key)
  {
    PossiblePrefix(steps, now, n);
    assert steps[..n][..k] == steps[..k] && steps[..n][k] == steps[k];
  }

  /** Over any run at all, re-entries included: the in-progress entry of a key names the call that registered last,
      unless an execution of the key has ended since; then there is none. */
  lemma {:induction false} EntryExactlyWhen<T>(steps: seq<Step<T>>, now: int, key: Key, x: CallId)
    requires Possible(steps, now)
    ensures var entries := Reached(steps, now).tables.inProgress;
      key in entries && entries[key] == x <==> RegisteredLast(steps, now, key, x)
    decreases |steps|
  {
    if steps != [] {
      hide Possible, Reached, Enabled, Next, Registers, Touches;
      var n := |steps| - 1;
      PossiblePrefix(steps, now, n);
      assert steps[..n + 1] == steps;
      EntryNext(Reached(steps[..n], now), steps[n], key);
      EntryExactlyWhen(steps[..n], now, key, x);
      LastRegistered(steps, now, key, x);
      LastTouch(steps, now, key, x);
    }
  }

  lemma LastTouch<T>(steps: seq<Step<T>>, now: int, key: Key, x: CallId)
    requires Possible(steps, now) && steps != []
    ensures var n := |steps| - 1;
      && Possible(steps[..n], now)
      && var s := Reached(steps[..n], now);
      && Enabled(s, steps[n])
      && (Registers(steps, now, n, key, x) <==> steps[n].RegisterTop? && Top(s) == x && s.calls[x].key == key)
      && (Touches(steps, now, n, key) <==>
            (steps[n].RegisterTop? && s.calls[Top(s)].key == key) || (steps[n].ResumeInitiator? && s.calls[steps[n].id].key == key))
  {
    PossiblePrefix(steps, now, |steps| - 1);
  }

  lemma SameEarlier<T>(steps: seq<Step<T>>, now: int, key: Key, x: CallId)
    requires Possible(steps, now) && steps != []
    ensures var n := |steps| - 1;
      && Possible(steps[..n], now)
      && (forall k :: 0 <= k < n ==> (Registers(steps[..n], now, k, key, x) <==> Registers(steps, now, k, key, x)))
      && (forall k :: 0 <= k < n ==> (Touches(steps[..n], now, k, key) <==> Touches(steps, now, k, key)))
  {
    hide Possible, Registers, Touches;
    var n := |steps| - 1;
    PossiblePrefix(steps, now, n);
    forall k | 0 <= k < n
      ensures Registers(steps[..n], now, k, key, x) <==> Registers(steps, now, k, key, x)
      ensures Touches(steps[..n], now, k, key) <==> Touches(steps, now, k, key)
    {
      SameSteps(steps, now, n, k, key, x);
    }
  }

  lemma LastRegistered<T>(steps: seq<Step<T>>, now: int, key: Key, x: CallId)
    requires Possible(steps, now) && steps != []
    ensures var n := |steps| - 1;
      && Possible(steps[..n], now)
      && (RegisteredLast(steps, now, key, x) <==>
            Registers(steps, now, n, key, x) || (!Touches(steps, now, n, key) && RegisteredLast(steps[..n], now, key, x)))
  {
    hide Possible, Registers, Touches;
    var n := |steps| - 1;
    SameEarlier(steps, now, key, x);
    if RegisteredLast(steps, now, key, x) {
      var k :| 0 <= k < |steps| && Registers(steps, now, k, key, x) && forall i :: k < i < |steps| ==> !Touches(steps, now, i, key);
      if k < n {
        assert Registers(steps[..n], now, k, key, x);
      }
    }
    if !Touches(steps, now, n, key) && RegisteredLast(steps[..n], now, key, x) {
      var k :| 0 <= k < n && Registers(steps[..n], now, k, key, x) && forall i :: k < i < n ==> !Touches(steps[..n], now, i, key);
      assert Registers(steps, now, k, key, x);
    }
  }

  /** Which entry the finally clause of a call deletes, in any run: that of the call of its key that registered last, if
      no execution of the key has ended since, and no other. It is its own only when it registered last itself. */
  lemma FinallyDeletesExactly<T>(steps: seq<Step<T>>, now: int, id: CallId, x: CallId)
    requires Possible(steps, now) && Enabled(Reached(steps, now), ResumeInitiator(id))
    ensures var s := Reached(steps, now); var key := s.calls[id].key;
      var was, left := s.tables.inProgress, Next(s, ResumeInitiator(id)).tables.inProgress;
      && left == was - {key}
      && ((exists k :: k in was && was[k] == x && k !in left) <==> RegisteredLast(steps, now, key, x))
  {
    EntryExactlyWhen(steps, now, Reached(steps, now).calls[id].key, x);
    hide RegisteredLast, Possible, Reached;
  }

  lemma OneMoreStep<T>(steps: seq<Step<T>>, now: int, step: Step<T>)
    requires Possible(steps, now) && Enabled(Reached(steps, now), step)
    ensures Possible(steps + [step], now) && Reached(steps + [step], now) == Next(Reached(steps, now), step)
  {
    assert (steps + [step])[..|steps|] == steps;
  }

  /** After a re-entry the outer call registers last, so that the inner one, when it fails first, deletes the outer's
      entry: the outer execution still runs, and the next call of the key executes again. */
  lemma InnerFinallyDeletesOuterEntry<T>(key: Key, error: string, now: int)
    ensures var steps: seq<Step<T>> := [Call(0, key), Call(1, key), RegisterTop, RegisterTop, Settle(1, Rejected(error))];
      && Possible(steps, now) && Enabled(Reached(steps, now), ResumeInitiator(1))
      && var s := Reached(steps, now); var t := Next(s, ResumeInitiator(1));
      && s.tables.inProgress == map[key := 0] && t.tables.inProgress == map[]
      && 0 in t.execs && Unfinished(t, 0) && Decide(t.tables, key) == Execute
  {
    hide Enabled, Next;
    var s2 := ReentrySoFar<T>(key, now);
    var two: seq<Step<T>> := [Call(0, key), Call(1, key)];
    BothRegister(s2, key);
    OneMoreStep(two, now, RegisterTop);
    OneMoreStep(two + [RegisterTop], now, RegisterTop);
    var four := two + [RegisterTop] + [RegisterTop];
    InnerFails(Reached(four, now), key, error);
    OneMoreStep(four, now, Settle(1, Rejected(error)));
    assert four + [Settle(1, Rejected(error))] == [Call(0, key), Call(1, key), RegisterTop, RegisterTop, Settle(1, Rejected(error))];
  }

  ghost predicate BothEntered<T>(s: System<T>, key: Key) {
    && s.stack == [0, 1] && s.calls == map[0 := Entering(key), 1 := Entering(key)] && s.tables == Tables(map[], map[])
    && 0 in s.execs && s.execs[0].finishedAt.None? && 1 in s.execs && s.execs[1].outcome.None?
  }

  ghost predicate BothRegistered<T>(s: System<T>, key: Key) {
    && s.stack == [] && s.calls == map[0 := Awaiting(key), 1 := Awaiting(key)] && s.tables == Tables(map[key := 0], map[])
    && 0 in s.execs && s.execs[0].finishedAt.None? && 1 in s.execs && s.execs[1].outcome.None?
  }

  lemma ReentrySoFar<T>(key: Key, now: int) returns (s: System<T>)
    ensures var two: seq<Step<T>> := [Call(0, key), Call(1, key)]; Possible(two, now) && s == Reached(two, now)
    ensures BothEntered(s, key)
  {
    var none: seq<Step<T>> := [];
    OneMoreStep(none, now, Call(0, key));
    OneMoreStep(none + [Call(0, key)], now, Call(1, key));
    assert none + [Call(0, key)] + [Call(1, key)] == [Call(0, key), Call(1, key)];
    s := Reached(none + [Call(0, key)] + [Call(1, key)], now);
  }

  lemma BothRegister<T>(s: System<T>, key: Key)
    requires BothEntered(s, key)
    ensures Enabled(s, RegisterTop) && Enabled(Next(s, RegisterTop), RegisterTop)
    ensures BothRegistered(Next(Next(s, RegisterTop), RegisterTop), key)
  {
    assert Next(s, RegisterTop).stack == [0];
  }

  lemma InnerFails<T>(s: System<T>, key: Key, error: string)
    requires BothRegistered(s, key)
    ensures Enabled(s, Settle(1, Rejected(error)))
    ensures var t := Next(s, Settle(1, Rejected(error)));
      && Enabled(t, ResumeInitiator(1)) && t.tables.inProgress == map[key := 0]
      && var u := Next(t, ResumeInitiator(1));
      && u.tables.inProgress == map[] && 0 in u.execs && Unfinished(u, 0) && Decide(u.tables, key) == Execute
  {
  }
}
