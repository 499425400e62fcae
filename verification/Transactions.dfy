/** TransactionService: one transaction with its clean-up, and retries with exponential back-off. */
module Transactions {

  /** An error with the code of the database, if any; Unspecified is what executeWithRetry starts from. */
  datatype Error = Coded(code: string) | Uncoded | Unspecified

  datatype Result<T> = Ok(value: T) | Thrown(error: Error)

  type Check = Result<()>

  /** How the calls of one transaction turn out; work is the callback raced against the timeout. */
  datatype Attempt<T> = Attempt(creation: Check, connection: Check, start: Check, work: Result<T>, commit: Check,
                                rollback: Check, release: Check)

  /** The calls the service makes, with their success. */
  datatype Effect =
    | CreateRunner
    | Connect(ok: bool)
    | Start(ok: bool)
    | Work(ok: bool)
    | Commit(ok: bool)
    | Rollback(ok: bool)
    | Release(ok: bool)
    | Sleep(ms: nat)

  function Outcome<T>(a: Attempt<T>): Result<T> {
    if a.creation.Thrown? then Thrown(a.creation.error)
    else if a.connection.Thrown? then Thrown(a.connection.error)
    else if a.start.Thrown? then Thrown(a.start.error)
    else if a.work.Thrown? then a.work
    else if a.commit.Thrown? then Thrown(a.commit.error)
    else a.work
  }

  function Calls<T>(a: Attempt<T>): seq<Effect> {
    if a.creation.Thrown? then []
    else
      [CreateRunner, Connect(a.connection.Ok?)] + Body(a) + (if Outcome(a).Ok? then [] else [Rollback(a.rollback.Ok?)]) +
      [Release(a.release.Ok?)]
  }

  function Body<T>(a: Attempt<T>): seq<Effect> {
    if a.connection.Thrown? then []
    else if a.start.Thrown? then [Start(false)]
    else if a.work.Thrown? then [Start(true), Work(false)]
    else [Start(true), Work(true), Commit(a.commit.Ok?)]
  }

  predicate ShouldRetry(e: Error) {
    e.Coded? && e.code in ["40001", "40P01", "55P03"]
  }

  /** A serialization failure, a deadlock and a lock that is not available are worth another attempt, and nothing else. */
  lemma RetriedExactlyWhen<T>(a: Attempt<T>)
    ensures Retried(a) <==> Outcome(a).Thrown? && Outcome(a).error in {Coded("40001"), Coded("40P01"), Coded("55P03")}
  {
    hide Outcome;
  }

  /** How the five steps of an attempt turn out, in order. */
  function Steps<T>(a: Attempt<T>): seq<Check> {
    [a.creation, a.connection, a.start, if a.work.Ok? then Ok(()) else Thrown(a.work.error), a.commit]
  }

  /** The attempt gives the value of the work when all steps succeed, and otherwise the error of the first that fails. */
  lemma FirstFailureDecides<T>(a: Attempt<T>, k: nat)
    requires k <= 5 && forall i :: 0 <= i < k ==> Steps(a)[i].Ok?
    ensures k == 5 ==> Outcome(a) == a.work && a.work.Ok?
    ensures k < 5 && Steps(a)[k].Thrown? ==> Outcome(a) == Thrown(Steps(a)[k].error)
  {
    assert forall i :: 0 <= i < k ==> Steps(a)[i].Ok?;
    assert k > 0 ==> Steps(a)[0].Ok?;
    assert k > 1 ==> Steps(a)[1].Ok?;
    assert k > 2 ==> Steps(a)[2].Ok?;
    assert k > 3 ==> Steps(a)[3].Ok?;
    assert k > 4 ==> Steps(a)[4].Ok?;
  }

  /** The calls made: those of the steps up to the first that fails, then the roll-back if one failed, then the release;
      nothing at all when there is no runner. */
  lemma CallsAre<T>(a: Attempt<T>)
    ensures var rollback, release := Rollback(a.rollback.Ok?), Release(a.release.Ok?);
      && (a.creation.Thrown? ==> Calls(a) == [])
      && (a.creation.Ok? && a.connection.Thrown? ==> Calls(a) == [CreateRunner, Connect(false), rollback, release])
      && (a.creation.Ok? && a.connection.Ok? && a.start.Thrown? ==>
            Calls(a) == [CreateRunner, Connect(true), Start(false), rollback, release])
      && (a.creation.Ok? && a.connection.Ok? && a.start.Ok? && a.work.Thrown? ==>
            Calls(a) == [CreateRunner, Connect(true), Start(true), Work(false), rollback, release])
      && (a.creation.Ok? && a.connection.Ok? && a.start.Ok? && a.work.Ok? && a.commit.Thrown? ==>
            Calls(a) == [CreateRunner, Connect(true), Start(true), Work(true), Commit(false), rollback, release])
      && (a.creation.Ok? && a.connection.Ok? && a.start.Ok? && a.work.Ok? && a.commit.Ok? ==>
            Calls(a) == [CreateRunner, Connect(true), Start(true), Work(true), Commit(true), release])
  {
  }

  function Pow2(n: nat): nat {
    if n == 0 then 1 else 2 * Pow2(n - 1)
  }

  function Delay(attempt: nat): nat
    requires attempt >= 1
  {
    if 100 * Pow2(attempt - 1) < 1000 then 100 * Pow2(attempt - 1) else 1000
  }

  predicate Retried<T>(a: Attempt<T>) {
    Outcome(a).Thrown? && ShouldRetry(Outcome(a).error)
  }

  /** Attempt n, from 1, is the last: all before it were worth a retry and it is not, or there are no more. */
  ghost predicate Last<T>(attempts: nat -> Attempt<T>, n: nat, maxRetries: int) {
    && 1 <= n <= maxRetries
    && (forall i :: 1 <= i < n ==> Retried(attempts(i)))
    && (n == maxRetries || !Retried(attempts(n)))
  }

  /** Everything done up to and including attempt n. */
  function Trail<T>(attempts: nat -> Attempt<T>, n: nat): seq<Effect>
    decreases n, 0
  {
    if n == 0 then [] else Pauses(attempts, n - 1) + Calls(attempts(n))
  }

  /** Everything done by n attempts that were each followed by a pause. */
  function Pauses<T>(attempts: nat -> Attempt<T>, n: nat): seq<Effect>
    decreases n, 1
  {
    if n == 0 then [] else Trail(attempts, n) + [Sleep(Delay(n))]
  }

  class TransactionService<T> {
    var log: seq<Effect>

    constructor ()
      ensures log == []
    {
      log := [];
    }

    /** The error of a failing rollback or release is dropped; creating the runner is outside the try. */
    method ExecuteTransaction(a: Attempt<T>) returns (result: Result<T>)
      modifies this
      ensures result == Outcome(a)
      ensures log == old(log) + Calls(a)
    {
      if a.creation.Thrown? {
        return Thrown(a.creation.error);
      }
      log := log + [CreateRunner];
      result := RunInTransaction(a);
      if result.Thrown? {
        log := log + [Rollback(a.rollback.Ok?)];
      }
      log := log + [Release(a.release.Ok?)];
    }

    method RunInTransaction(a: Attempt<T>) returns (result: Result<T>)
      requires a.creation.Ok?
      modifies this
      ensures result == Outcome(a)
      ensures log == old(log) + [Connect(a.connection.Ok?)] + Body(a)
    {
      log := log + [Connect(a.connection.Ok?)];
      if a.connection.Thrown? {
        return Thrown(a.connection.error);
      }
      log := log + [Start(a.start.Ok?)];
      if a.start.Thrown? {
        return Thrown(a.start.error);
      }
      log := log + [Work(a.work.Ok?)];
      if a.work.Thrown? {
        return a.work;
      }
      log := log + [Commit(a.commit.Ok?)];
      if a.commit.Thrown? {
        return Thrown(a.commit.error);
      }
      return a.work;
    }

    method ExecuteWithRetry(attempts: nat -> Attempt<T>, maxRetries: int) returns (result: Result<T>, tries: nat)
      modifies this
      ensures maxRetries <= 0 ==> tries == 0 && result == Thrown(Unspecified)
      ensures maxRetries > 0 ==> Last(attempts, tries, maxRetries) && result == Outcome(attempts(tries))
      ensures log == old(log) + Trail(attempts, tries)
    {
      hide Calls, Outcome, Delay;
      var lastError := Unspecified;
      var attempt := 1;
      tries := 0;
      while attempt <= maxRetries
        invariant 1 <= attempt && (attempt <= maxRetries || attempt == 1)
        invariant forall i :: 1 <= i < attempt ==> Retried(attempts(i))
        invariant log == old(log) + Pauses(attempts, attempt - 1)
        invariant attempt == 1 ==> lastError == Unspecified
      {
        tries := attempt;
        result := ExecuteTransaction(attempts(attempt));
        Appended(old(log), Pauses(attempts, attempt - 1), Calls(attempts(attempt)));
        if result.Ok? {
          return;
        }
        lastError := result.error;
        if ShouldRetry(result.error) && attempt < maxRetries {
          log := log + [Sleep(Delay(attempt))];
          Appended(old(log), Trail(attempts, attempt), [Sleep(Delay(attempt))]);
          attempt := attempt + 1;
          continue;
        }
        return;
      }
      assert Trail(attempts, 0) == [];
      return Thrown(lastError), 0;
    }
  }

  lemma Appended<E>(a: seq<E>, b: seq<E>, c: seq<E>)
    ensures (a + b) + c == a + (b + c)
  {
  }

  /** The last attempt is determined by how the attempts turn out. */
  lemma LastIsUnique<T>(attempts: nat -> Attempt<T>, m: nat, n: nat, maxRetries: int)
    requires Last(attempts, m, maxRetries) && Last(attempts, n, maxRetries)
    ensures m == n
  {
  }

  // ---------- Time ----------

  function Slept(log: seq<Effect>): nat {
    if log == [] then 0 else (if log[0].Sleep? then log[0].ms else 0) + Slept(log[1..])
  }

  lemma {:induction false} SleptConcat(a: seq<Effect>, b: seq<Effect>)
    ensures Slept(a + b) == Slept(a) + Slept(b)
  {
    if a == [] {
      assert a + b == b;
    } else {
      SleptConcat(a[1..], b);
      assert (a + b)[1..] == a[1..] + b;
    }
  }

  lemma {:induction false} AwakeSleepsNothing(log: seq<Effect>)
    requires forall i :: 0 <= i < |log| ==> !log[i].Sleep?
    ensures Slept(log) == 0
  {
    if log != [] {
      AwakeSleepsNothing(log[1..]);
    }
  }

  /** The delay doubles from 100 ms and stays at a second from the fifth retry. */
  lemma {:induction false} DelayCaps(attempt: nat)
    requires attempt >= 1
    ensures Delay(attempt) == if attempt <= 4 then 100 * Pow2(attempt - 1) else 1000
    ensures attempt >= 5 ==> Pow2(attempt - 1) >= 16
  {
    if attempt > 5 {
      DelayCaps(attempt - 1);
    } else {
      assert Pow2(1) == 2 && Pow2(2) == 4 && Pow2(3) == 8 && Pow2(4) == 16;
    }
  }

  /** The delays in milliseconds. */
  lemma DelaysAre(attempt: nat)
    ensures Delay(1) == 100 && Delay(2) == 200 && Delay(3) == 400 && Delay(4) == 800
    ensures attempt >= 5 ==> Delay(attempt) == 1000
  {
    assert Pow2(0) == 1 && Pow2(1) == 2 && Pow2(2) == 4 && Pow2(3) == 8;
    if attempt >= 5 {
      DelayCaps(attempt);
    }
  }

  function Backoff(r: nat): int {
    if r <= 4 then 100 * (Pow2(r) - 1) else 1500 + 1000 * (r - 4)
  }

  lemma BackoffStep(r: nat)
    requires r >= 1
    ensures Backoff(r) == Backoff(r - 1) + Delay(r)
  {
    DelayCaps(r);
    assert Pow2(4) == 16;
  }

  lemma CallsSleepNothing<T>(a: Attempt<T>)
    ensures Slept(Calls(a)) == 0
  {
    AwakeSleepsNothing(Calls(a));
  }

  /** The time slept over r retries, and the attempt after them adds nothing. */
  lemma {:induction false} TotalSleep<T>(attempts: nat -> Attempt<T>, r: nat)
    ensures Slept(Pauses(attempts, r)) == Backoff(r)
    ensures Slept(Trail(attempts, r + 1)) == Backoff(r)
  {
    hide Calls, Delay, Backoff;
    if r == 0 {
      assert Backoff(0) == 0 by { BackoffStart(); }
    } else {
      TotalSleep(attempts, r - 1);
      SleptConcat(Trail(attempts, r), [Sleep(Delay(r))]);
      assert Slept([Sleep(Delay(r))]) == Delay(r);
      BackoffStep(r);
    }
    CallsSleepNothing(attempts(r + 1));
    SleptConcat(Pauses(attempts, r), Calls(attempts(r + 1)));
  }

  lemma BackoffStart()
    ensures Backoff(0) == 0
  {
  }

  // ---------- Commits ----------

  /** A commit that succeeded is the end: only its release follows. */
  ghost predicate CommitIsFinal(log: seq<Effect>) {
    forall i :: 0 <= i < |log| && log[i] == Commit(true) ==> i == |log| - 2 && log[i + 1].Release?
  }

  lemma CallsCommit<T>(a: Attempt<T>)
    ensures Outcome(a).Ok? <==> Commit(true) in Calls(a)
    ensures CommitIsFinal(Calls(a))
  {
    var calls := Calls(a);
    if Outcome(a).Ok? {
      assert calls[4] == Commit(true);
    }
  }

  lemma {:induction false} RetriesCommitNothing<T>(attempts: nat -> Attempt<T>, n: nat)
    requires forall i :: 1 <= i <= n ==> Retried(attempts(i))
    ensures Commit(true) !in Pauses(attempts, n)
  {
    if n > 0 {
      RetriesCommitNothing(attempts, n - 1);
      CallsCommit(attempts(n));
      hide Calls, Outcome;
      assert Commit(true) !in Trail(attempts, n);
    }
  }

  /** Over the whole retry loop: a success is reported exactly when a commit succeeded, it is the only one, and
      nothing but the release of its runner comes after it. */
  lemma OneCommitAtTheEnd<T>(attempts: nat -> Attempt<T>, n: nat, maxRetries: int)
    requires Last(attempts, n, maxRetries)
    ensures Outcome(attempts(n)).Ok? <==> Commit(true) in Trail(attempts, n)
    ensures CommitIsFinal(Trail(attempts, n))
  {
    hide Calls, Outcome, Pauses, Retried;
    RetriesCommitNothing(attempts, n - 1);
    CallsCommit(attempts(n));
    var before, calls, trail := Pauses(attempts, n - 1), Calls(attempts(n)), Trail(attempts, n);
    forall i | 0 <= i < |trail| && trail[i] == Commit(true) ensures i == |trail| - 2 && trail[i + 1].Release? {
      assert forall k :: 0 <= k < |before| ==> trail[k] == before[k] && before[k] != Commit(true);
      assert calls[i - |before|] == Commit(true);
    }
  }

  // ---------- Runners ----------

  /** Runners created and not yet released. */
  function Open(log: seq<Effect>): int {
    if log == [] then 0
    else
      var n := |log| - 1;
      Open(log[..n]) + if log[n] == CreateRunner then 1 else if log[n].Release? then -1 else 0
  }

  /** At any moment at most one runner is open, and none at the end. */
  ghost predicate Balanced(log: seq<Effect>) {
    Open(log) == 0 && forall i :: 0 <= i <= |log| ==> 0 <= Open(log[..i]) <= 1
  }

  lemma {:induction false} OpenConcat(a: seq<Effect>, b: seq<Effect>)
    ensures Open(a + b) == Open(a) + Open(b)
    decreases |b|
  {
    if b == [] {
      assert a + b == a;
    } else {
      var n := |b| - 1;
      OpenConcat(a, b[..n]);
      assert (a + b)[..|a| + n] == a + b[..n];
      assert (a + b)[|a| + n] == b[n];
    }
  }

  lemma BalancedConcat(a: seq<Effect>, b: seq<Effect>)
    requires Balanced(a) && Balanced(b)
    ensures Balanced(a + b)
  {
    OpenConcat(a, b);
    hide Open;
    forall i | 0 <= i <= |a + b| ensures 0 <= Open((a + b)[..i]) <= 1 {
      if i <= |a| {
        assert (a + b)[..i] == a[..i];
      } else {
        OpenConcat(a, b[..i - |a|]);
        assert (a + b)[..i] == a + b[..i - |a|];
      }
    }
  }

  /** A stretch between creation and release in which no runner comes or goes. */
  lemma {:induction false} InnerCalls(log: seq<Effect>, i: nat)
    requires 1 <= i <= |log| && log[0] == CreateRunner
    requires forall k :: 1 <= k < i ==> log[k] != CreateRunner && !log[k].Release?
    ensures Open(log[..i]) == 1
  {
    assert log[..i][..i - 1] == log[..i - 1];
    if i > 1 {
      InnerCalls(log, i - 1);
    } else {
      assert log[..1][..0] == [] && Open([]) == 0;
    }
  }

  lemma CallsBalanced<T>(a: Attempt<T>)
    ensures Balanced(Calls(a))
  {
    var calls := Calls(a);
    if calls != [] {
      var n := |calls| - 1;
      CallsShape(a);
      forall i | 0 <= i <= |calls| ensures 0 <= Open(calls[..i]) <= 1 && (i == |calls| ==> Open(calls[..i]) == 0) {
        if i == 0 {
          assert calls[..0] == [];
        } else if i <= n {
          InnerCalls(calls, i);
        } else {
          InnerCalls(calls, n);
          assert calls[..|calls|][..n] == calls[..n];
        }
      }
      assert calls[..|calls|] == calls;
    }
  }

  lemma CallsShape<T>(a: Attempt<T>)
    requires Calls(a) != []
    ensures var calls := Calls(a); var n := |calls| - 1;
      n >= 1 && calls[0] == CreateRunner && calls[n].Release? && forall k :: 1 <= k < n ==> calls[k] != CreateRunner && !calls[k].Release?
  {
  }

  /** Every runner that was created is released exactly once, before the next is created. */
  lemma {:induction false} RunnersAreReleased<T>(attempts: nat -> Attempt<T>, n: nat)
    ensures Balanced(Trail(attempts, n)) && Balanced(Pauses(attempts, n))
  {
    assert Balanced([]) by {
      assert Open([]) == 0;
    }
    if n > 0 {
      RunnersAreReleased(attempts, n - 1);
      CallsBalanced(attempts(n));
      hide Calls, Open;
      BalancedConcat(Pauses(attempts, n - 1), Calls(attempts(n)));
      SleepBalanced(Delay(n));
      BalancedConcat(Trail(attempts, n), [Sleep(Delay(n))]);
    }
  }

  lemma SleepBalanced(ms: nat)
    ensures Balanced([Sleep(ms)])
  {
    var log: seq<Effect> := [Sleep(ms)];
    assert log[..0] == [] && log[..1] == log && Open([]) == 0;
  }

  // ---------- The life of a runner ----------

  /** No runner; one at work; one that was committed or rolled back; a call out of order. */
  datatype Phase = Idle | Opened | Settled | Broken

  function Advance(p: Phase, e: Effect): Phase {
    match p
    case Idle => if e == CreateRunner then Opened else if e.Sleep? then Idle else Broken
    case Opened =>
      if e == Commit(true) || e.Rollback? then Settled
      else if e.Connect? || e.Start? || e.Work? || e.Commit? then Opened
      else Broken
    case Settled => if e.Release? then Idle else Broken
    case Broken => Broken
  }

  function PhaseAfter(p: Phase, log: seq<Effect>): Phase
    decreases log
  {
    if log == [] then p else PhaseAfter(Advance(p, log[0]), log[1..])
  }

  lemma {:induction false} PhaseConcat(p: Phase, a: seq<Effect>, b: seq<Effect>)
    ensures PhaseAfter(p, a + b) == PhaseAfter(PhaseAfter(p, a), b)
    decreases a
  {
    if a == [] {
      assert a + b == b;
    } else {
      PhaseConcat(Advance(p, a[0]), a[1..], b);
      assert (a + b)[0] == a[0] && (a + b)[1..] == a[1..] + b;
    }
  }

  lemma PhaseOfTwo(p: Phase, e: Effect, f: Effect)
    ensures PhaseAfter(p, [e, f]) == Advance(Advance(p, e), f) && PhaseAfter(p, [e]) == Advance(p, e)
  {
    assert [e, f][1..] == [f] && [e][1..] == [] && [f][1..] == [];
    assert PhaseAfter(Advance(p, e), [f]) == Advance(Advance(p, e), f);
  }

  lemma BodyPhase<T>(a: Attempt<T>)
    requires a.creation.Ok?
    ensures PhaseAfter(Opened, Body(a)) == if Outcome(a).Ok? then Settled else Opened
  {
    var body := Body(a);
    if |body| == 1 {
      PhaseOfTwo(Opened, body[0], body[0]);
      assert body == [body[0]];
    } else if |body| == 2 {
      PhaseOfTwo(Opened, body[0], body[1]);
      assert body == [body[0], body[1]];
    } else if |body| == 3 {
      assert body == [body[0], body[1]] + [body[2]];
      PhaseConcat(Opened, [body[0], body[1]], [body[2]]);
      PhaseOfTwo(Opened, body[0], body[1]);
      PhaseOfTwo(Opened, body[2], body[2]);
    }
  }

  lemma CallsPhase<T>(a: Attempt<T>)
    ensures PhaseAfter(Idle, Calls(a)) == Idle
  {
    if a.creation.Ok? {
      var head, body, release := [CreateRunner, Connect(a.connection.Ok?)], Body(a), Release(a.release.Ok?);
      var rollback: seq<Effect> := if Outcome(a).Ok? then [] else [Rollback(a.rollback.Ok?)];
      PhaseOfTwo(Idle, head[0], head[1]);
      BodyPhase(a);
      PhaseOfTwo(Opened, Rollback(a.rollback.Ok?), release);
      PhaseOfTwo(Settled, release, release);
      hide Body, Outcome;
      assert Calls(a) == head + body + rollback + [release];
      PhaseConcat(Idle, head, body);
      PhaseConcat(Idle, head + body, rollback);
      PhaseConcat(Idle, head + body + rollback, [release]);
    }
  }

  /** Over the whole retry loop every runner that is created is either committed, by a commit that succeeds, or
      rolled back, never both and never neither, then released, and only then does the service sleep or create
      another. */
  lemma {:induction false} EveryRunnerIsSettledOnce<T>(attempts: nat -> Attempt<T>, n: nat)
    ensures PhaseAfter(Idle, Trail(attempts, n)) == Idle && PhaseAfter(Idle, Pauses(attempts, n)) == Idle
  {
    hide Calls, Delay;
    if n > 0 {
      EveryRunnerIsSettledOnce(attempts, n - 1);
      CallsPhase(attempts(n));
      PhaseConcat(Idle, Pauses(attempts, n - 1), Calls(attempts(n)));
      PhaseConcat(Idle, Trail(attempts, n), [Sleep(Delay(n))]);
      PhaseOfTwo(Idle, Sleep(Delay(n)), Sleep(Delay(n)));
    }
  }

  function Rollbacks(log: seq<Effect>): nat {
    if log == [] then 0 else (if log[0].Rollback? then 1 else 0) + Rollbacks(log[1..])
  }

  /** The attempts among the first n that had a runner and failed. */
  function Failures<T>(attempts: nat -> Attempt<T>, n: nat): nat {
    if n == 0 then 0
    else Failures(attempts, n - 1) + if attempts(n).creation.Ok? && Outcome(attempts(n)).Thrown? then 1 else 0
  }

  lemma {:induction false} RollbacksConcat(a: seq<Effect>, b: seq<Effect>)
    ensures Rollbacks(a + b) == Rollbacks(a) + Rollbacks(b)
  {
    if a == [] {
      assert a + b == b;
    } else {
      RollbacksConcat(a[1..], b);
      assert (a + b)[1..] == a[1..] + b;
    }
  }

  lemma {:induction false} NoRollbacks(log: seq<Effect>)
    requires forall i :: 0 <= i < |log| ==> !log[i].Rollback?
    ensures Rollbacks(log) == 0
  {
    if log != [] {
      NoRollbacks(log[1..]);
    }
  }

  lemma CallsRollbacks<T>(a: Attempt<T>)
    ensures Rollbacks(Calls(a)) == if a.creation.Ok? && Outcome(a).Thrown? then 1 else 0
  {
    var n := |Calls(a)|;
    if a.creation.Ok? && Outcome(a).Thrown? {
      var before, rollback := Calls(a)[..n - 2], Calls(a)[n - 2..];
      assert Calls(a) == before + rollback;
      RollbacksConcat(before, rollback);
      NoRollbacks(before);
      assert rollback[1..] == [Release(a.release.Ok?)] && Rollbacks(rollback[1..]) == 0;
    } else {
      NoRollbacks(Calls(a));
    }
  }

  /** Over the whole retry loop there are as many roll-backs as attempts that had a runner and failed. */
  lemma {:induction false} RollbackExactlyOnFailure<T>(attempts: nat -> Attempt<T>, n: nat)
    ensures Rollbacks(Trail(attempts, n)) == Failures(attempts, n)
    ensures Rollbacks(Pauses(attempts, n)) == Failures(attempts, n)
  {
    hide Calls, Delay, Outcome;
    if n > 0 {
      RollbackExactlyOnFailure(attempts, n - 1);
      CallsRollbacks(attempts(n));
      RollbacksConcat(Pauses(attempts, n - 1), Calls(attempts(n)));
      RollbacksConcat(Trail(attempts, n), [Sleep(Delay(n))]);
      NoRollbacks([Sleep(Delay(n))]);
    }
  }
}
