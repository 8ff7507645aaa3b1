/** The job lifecycle as a state machine over the store: the invariant every
    request preserves, and the end-to-end runs the queue promises. */
module Lifecycle {
  import opened Wrappers
  import opened Models
  import opened Storage
  import opened Engine
  import opened Backoff

  /** Completed and dead jobs are never picked up again on their own. */
  predicate Terminal(s: JobState)
  {
    s == Completed || s == Dead
  }

  /** What holds of every stored job between requests: a job has a next run
      time exactly when it is not terminal; a pending job has no spent
      attempts; a failed job has budget left and a dead one has none. */
  ghost predicate JobInvariant(j: Job)
  {
    && (j.nextRunAt.None? <==> Terminal(j.state))
    && j.attempts >= 0
    && j.createdAt <= j.updatedAt
    && (j.state == Pending ==> j.attempts == 0)
    && (j.state == Failed ==> 1 <= j.attempts < j.maxRetries)
    && (j.state == Dead ==> j.attempts >= j.maxRetries)
  }

  ghost predicate StoreInvariant(store: Store)
  {
    forall id :: id in store ==> JobInvariant(store[id])
  }

  /** The clock reads no earlier than any recorded update. */
  ghost predicate ClockAfter(store: Store, now: int)
  {
    forall id :: id in store ==> store[id].updatedAt <= now
  }

  /** The requests the engine serves. */
  datatype Request =
    | Submit(spec: JobSpec, freshId: string, now: int)
    | Acquire(now: int)
    | Complete(job: Job, outputLogPath: Option<string>, now: int)
    | Fail(job: Job, errorMessage: string, now: int)
    | Requeue(id: string, now: int)

  /** The clock has not gone back, and an outcome is reported on a copy of a
      job as the store handed it out, no later than now. */
  ghost predicate Admissible(store: Store, req: Request)
  {
    && ClockAfter(store, req.now)
    && match req
       case Complete(job, _, now) => JobInvariant(job) && job.updatedAt <= now
       case Fail(job, _, now) => JobInvariant(job) && job.updatedAt <= now
       case _ => true
  }

  /** Serving `req` on `store` leaves `store'`; a rejected request leaves
      the store as it was. */
  ghost predicate Step(store: Store, config: Config, req: Request, store': Store)
  {
    match req
    case Submit(spec, freshId, now) =>
      var r := EnqueueJobFromSpec(store, spec, config, now, freshId);
      store' == if r.Success? then r.value.1 else store
    case Acquire(now) =>
      exists r: Option<Job> :: Acquired(store, now, r, store')
    case Complete(job, path, now) =>
      var r := CompleteJob(store, job, path, now);
      store' == if r.Success? then r.value.1 else store
    case Fail(job, message, now) =>
      var r := FailJob(store, job, message, now, config);
      store' == if r.Success? then r.value.1 else store
    case Requeue(id, now) =>
      var r := DlqRetry(store, id, now);
      store' == if r.Success? then r.value.1 else store
  }

  lemma EnqueuePreservesInvariant(store: Store, spec: JobSpec, config: Config, now: int, freshId: string)
    requires StoreInvariant(store)
    ensures var r := EnqueueJobFromSpec(store, spec, config, now, freshId);
      r.Success? ==> JobInvariant(r.value.0) && StoreInvariant(r.value.1)
  {
  }

  lemma AcquirePreservesInvariant(store: Store, now: int, r: Option<Job>, store': Store)
    requires StoreInvariant(store) && ClockAfter(store, now)
    requires Acquired(store, now, r, store')
    ensures StoreInvariant(store')
    ensures r.Some? ==> JobInvariant(r.value) && r.value.nextRunAt.Some?
  {
  }

  lemma CompletePreservesInvariant(store: Store, job: Job, path: Option<string>, now: int)
    requires StoreInvariant(store)
    requires JobInvariant(job) && job.updatedAt <= now
    ensures var r := CompleteJob(store, job, path, now);
      r.Success? ==> StoreInvariant(r.value.1)
  {
  }

  lemma FailPreservesInvariant(store: Store, job: Job, message: string, now: int, config: Config)
    requires StoreInvariant(store)
    requires JobInvariant(job) && job.updatedAt <= now
    ensures var r := FailJob(store, job, message, now, config);
      r.Success? ==> JobInvariant(r.value.0) && StoreInvariant(r.value.1)
  {
  }

  lemma RequeuePreservesInvariant(store: Store, id: string, now: int)
    requires StoreInvariant(store) && ClockAfter(store, now)
    ensures var r := DlqRetry(store, id, now);
      r.Success? ==> JobInvariant(r.value.0) && StoreInvariant(r.value.1)
  {
  }

  /** Every request the engine serves preserves the invariant. */
  lemma StepPreservesInvariant(store: Store, config: Config, req: Request, store': Store)
    requires StoreInvariant(store) && Admissible(store, req)
    requires Step(store, config, req, store')
    ensures StoreInvariant(store')
  {
    match req
    case Submit(spec, freshId, now) =>
      EnqueuePreservesInvariant(store, spec, config, now, freshId);
    case Acquire(now) =>
      var r :| Acquired(store, now, r, store');
      AcquirePreservesInvariant(store, now, r, store');
    case Complete(job, path, now) =>
      CompletePreservesInvariant(store, job, path, now);
    case Fail(job, message, now) =>
      FailPreservesInvariant(store, job, message, now, config);
    case Requeue(id, now) =>
      RequeuePreservesInvariant(store, id, now);
  }

  /** `stores[k]` to `stores[k+1]` serves `reqs[k]`. */
  ghost predicate Trace(stores: seq<Store>, config: Config, reqs: seq<Request>)
  {
    && |stores| == |reqs| + 1
    && forall k :: 0 <= k < |reqs| ==>
         Admissible(stores[k], reqs[k]) && Step(stores[k], config, reqs[k], stores[k + 1])
  }

  /** From a store that satisfies the invariant (the empty store, say), any
      run of requests keeps it. */
  lemma {:induction false} TracePreservesInvariant(stores: seq<Store>, config: Config, reqs: seq<Request>)
    requires Trace(stores, config, reqs) && StoreInvariant(stores[0])
    ensures forall k :: 0 <= k < |stores| ==> StoreInvariant(stores[k])
  {
    if reqs != [] {
      var n := |reqs| - 1;
      assert Trace(stores[..n + 1], config, reqs[..n]);
      TracePreservesInvariant(stores[..n + 1], config, reqs[..n]);
      assert StoreInvariant(stores[..n + 1][n]);
      StepPreservesInvariant(stores[n], config, reqs[n], stores[n + 1]);
      forall k | 0 <= k < |stores| ensures StoreInvariant(stores[k]) {
        if k <= n {
          assert stores[..n + 1][k] == stores[k];
        }
      }
    }
  }

  /** Acquisition never touches a completed or dead job: an exhausted job
      is not retried behind the operator's back. */
  lemma AcquireLeavesTerminalJobs(store: Store, now: int, r: Option<Job>, store': Store, id: string)
    requires Acquired(store, now, r, store')
    requires id in store && Terminal(store[id].state)
    ensures id in store' && store'[id] == store[id]
  {
  }

  /** A requeued job leaves the dead-letter queue and is due at once. */
  lemma RequeueLeavesDlq(store: Store, id: string, now: int)
    ensures var r := DlqRetry(store, id, now);
      r.Success? ==>
        && Eligible(r.value.1[id], now)
        && StateIds(r.value.1, Dead) == StateIds(store, Dead) - {id}
        && |StateIds(r.value.1, Dead)| == |StateIds(store, Dead)| - 1
  {
  }

  /** After the k-th failure of a job with budget R: below the budget the
      job waits exactly `base ^ k` seconds from the failure, unless that
      time is past the datetime range, which is an error; at or above the
      budget the job is dead with no next run. A count or budget the table
      cannot hold is refused instead. */
  lemma FailureSchedule(store: Store, job: Job, message: string, now: int, config: Config)
    requires job.attempts >= 0
    ensures var r := FailJob(store, job, message, now, config);
      var k := job.attempts + 1;
      var fits := FitsInteger(k) && FitsInteger(job.maxRetries);
      && (k < job.maxRetries && InRange(now + Pow(config.backoffBase, k)) && fits ==>
            r.Success? && r.value.0.state == Failed
            && r.value.0.nextRunAt == Some(r.value.0.updatedAt + Pow(config.backoffBase, k)))
      && (k < job.maxRetries && !InRange(now + Pow(config.backoffBase, k)) ==>
            r == Failure(TimeOutOfRange(now + Pow(config.backoffBase, k))))
      && (k >= job.maxRetries && fits ==> r.Success? && r.value.0.state == Dead && r.value.0.nextRunAt.None?)
      && ((k >= job.maxRetries || InRange(now + Pow(config.backoffBase, k))) && !fits ==>
            r == Failure(Rejected(IntegerOutOfRange)))
  {
  }

  /** A submission of `command` with budget `maxRetries` and no schedule. */
  function PlainSpec(command: string, maxRetries: int): JobSpec
  {
    JobSpec(None, Some(command), Some(maxRetries), None, None)
  }

  /** Submit `echo test_basic` with budget 2 to an empty store; whoever acquires
      next gets that job, and reporting success completes it for good. */
  lemma ScenarioSuccess(freshId: string, t0: int, j0: Job, s1: Store,
                        t1: int, r: Option<Job>, s2: Store, path: Option<string>, t2: int)
    requires EnqueueJobFromSpec(map[], PlainSpec("echo test_basic", 2), DefaultConfig, t0, freshId) == Success((j0, s1))
    requires t0 <= t1 && Acquired(s1, t1, r, s2)
    ensures r == Some(j0.(state := Processing, updatedAt := t1))
    ensures var q := CompleteJob(s2, r.value, path, t2);
      && q.Success?
      && var s3 := q.value.1;
         j0.id in s3 && s3[j0.id].state == Completed && s3[j0.id].nextRunAt.None?
         && s3[j0.id].outputLogPath == path
  {
  }

  /** Submit a job with budget 2 under base 2, acquire it and fail it twice:
      the first failure reschedules it 2 seconds later, the second sends it
      to the dead-letter queue, and a requeue makes it due again at once. */
  lemma ScenarioRetryThenDead(freshId: string, t0: int, j0: Job, s1: Store,
                              t1: int, r: Option<Job>, s2: Store, t2: int, t3: int, t4: int)
    requires EnqueueJobFromSpec(map[], PlainSpec("this_command_should_not_exist_123", 2), Config(2, 2, 60), t0, freshId) == Success((j0, s1))
    requires t0 <= t1 && Acquired(s1, t1, r, s2)
    requires InRange(t2 + 2)
    ensures r.Some? && r.value.id == j0.id
    ensures var q1 := FailJob(s2, r.value, "simulated failure 1", t2, Config(2, 2, 60));
      && q1.Success?
      && var (f1, s3) := q1.value;
         && s3[j0.id] == f1
         && f1.state == Failed && f1.attempts == 1
         && f1.nextRunAt == Some(t2 + 2) && f1.nextRunAt.value > f1.updatedAt
         && var q2 := FailJob(s3, s3[j0.id], "simulated failure 2", t3, Config(2, 2, 60));
            && q2.Success?
            && var (f2, s4) := q2.value;
               && s4[j0.id] == f2
               && f2.state == Dead && f2.attempts == 2 && f2.nextRunAt.None?
               && var q := DlqRetry(s4, j0.id, t4);
                  q.Success? && q.value.1[j0.id].state == Pending && Eligible(q.value.1[j0.id], t4)
  {
    FirstRetryWaitsBase(2);
  }
}
