# queuectl job lifecycle, modelled in Dafny

This project models the core of `queuectl`, a single-node job queue. Clients submit shell-command
jobs. Workers claim due jobs, run them and report success or failure. A failed job is retried
after an exponential backoff delay until its retry budget is spent. It then lands in the
dead-letter queue (DLQ), from which an operator can requeue it.

The model covers four parts.

- `Backoff` (`backoff.dfy`): `compute_backoff` is `Backoff.ComputeBackoff`, zero for no attempts and
  `base ^ attempts` otherwise.
- `Models` (`models.dfy`): the five-state `JobState` and the ten-field `Job` record. `Models.Value` is
  `JobState.value`, the text written in the `state` column, and `Models.FromValue` is `JobState(text)`.
- `Storage` (`storage.dfy`): the jobs table, modelled as a map from id to job. It covers insert, get,
  whole-row update, listing by creation time, per-state counts and the atomic acquisition of the
  oldest due job. `Storage.ToRow` is the parameter tuple that `enqueue` and `update_job` bind, and
  `Storage.RowToJob` is `_row_to_job`.
- `Engine` (`engine.dfy`): the live `QueueEngine`. It covers submission from an already-parsed spec,
  complete, fail with backoff or DLQ, DLQ list and requeue, status, and the integer part of the metrics.
  `acquire_job_for_worker` and `QueueEngine.list_jobs` (queuectl/engine.py:199-201, 228-229) only read
  the clock and delegate, so they are `Storage.AcquireDue` and `Storage.ListJobs`.

`Lifecycle` (`lifecycle.dfy`) treats the engine's requests as one state machine. It proves the
invariant that every request preserves, and it replays the two end-to-end runs of the tests.
`Wrappers` holds `Option` and `Result`.

Modelling choices:

- Time is an integer count of seconds. The source keeps naive-UTC ISO-8601 text with seconds
  precision and compares it as strings; for such text, string order is time order.
- A Python `datetime` only spans the years 1 to 9999. `Engine.MinTime` and `Engine.MaxTime` give
  that span in seconds from 1970-01-01. Adding a delay to the clock raises `OverflowError` when the
  sum leaves the span. The source adds seconds in two places: a submission's `delay`
  (queuectl/engine.py:177) and a failure's backoff (queuectl/engine.py:223). In both places the
  model returns the error `TimeOutOfRange` and writes no row. A clock reading carries
  microseconds, but the test on whole seconds gives the same answer.
- The `attempts` and `max_retries` columns are SQLite INTEGERs, which hold signed 64-bit values
  (queuectl/storage.py:34-35). Binding a Python int outside that range raises `OverflowError`
  before the statement runs. So `Storage.Enqueue` and `Storage.UpdateJob` refuse such a job with
  `IntegerOutOfRange` and change nothing. For an insert, this error comes before the duplicate-id
  error. Every stored row fits, so the `Store` type includes that fact. The engine passes a store
  error on as `Engine.EngineError.Rejected`.
- The clock, the id generator and the configuration are parameters: `now`, `freshId` and `Config`.
  `Engine.DefaultConfig` holds the defaults from queuectl/config.py:13-17: 3 retries, base 2, 60 s timeout.
- A store is a map whose keys are the jobs' own ids, because the table's primary key is the `id`
  column. Every transition returns a new store. Errors are `Result.Failure` values, and they
  produce no new store.
- Acquisition is one atomic transition, as the exclusive transaction makes it in the source.
  The SQL orders only by `created_at`, so the order among jobs created in the same second is
  open. `Storage.AcquireDue` therefore picks any oldest eligible job. The ghost predicate
  `Storage.Acquired` specifies it, and the lemmas about acquisition are stated over that
  predicate. Under this model, "no double dispatch" is a sequential property of runs of
  acquisitions.

Four behaviours of the code are easy to misread. The model follows the code in each:

- A job keeps its `next_run_at` while it is PROCESSING, because acquisition changes only the state
  and the update time (queuectl/storage.py:174-184). So `next_run_at` is absent exactly for
  COMPLETED and DEAD jobs. The narrower rule "set only for PENDING and FAILED jobs" does not hold.
- `update_job` with an unknown id changes nothing and raises no error.
- `complete_job` and `fail_job` do not check that the job is PROCESSING. They overwrite the row
  with the caller's copy whatever the row's state is. The invariant lemmas therefore assume only
  that the reported copy itself satisfies the invariant.
- The engine accepts a spec that has both `run_at` and `delay`, and `run_at` wins. The conflict is
  rejected only by the command-line layer.

## Model

| member | source | states |
|---|---|---|
| Backoff.ComputeBackoff | queuectl/backoff.py:3-10 | with no failed attempt (zero or fewer) the delay is 0; a non-negative base never gives a negative delay; for base at least 1, a failed job is rescheduled at least one second later |
| Backoff.FirstRetryWaitsBase | queuectl/backoff.py:10 | the first retry waits exactly `base` seconds |
| Backoff.NextDelayIsScaledByBase | queuectl/backoff.py:10 | each further failure multiplies the delay by `base` |
| Backoff.DelayStrictlyIncreasing | queuectl/backoff.py:3-10 | for base at least 2, more failed attempts always mean a strictly longer delay |
| Models.FromValue | queuectl/models.py:8-13 | looking a state up by text succeeds exactly for the five state texts, and gives the state with that text |
| Models.ExactlyFiveStates | queuectl/models.py:8-13 | the enumeration has exactly five pairwise distinct states, and every state is among them |
| Models.ValuesDistinct | queuectl/models.py:9-13 | distinct states have distinct texts |
| Models.ValueRoundTrip | queuectl/models.py:8-13 | decoding the text of any state gives back that state |
| Models.NewJob | queuectl/models.py:16-27 | a job built without the optional fields has no next run time, no last error and no output path |
| Storage.ToRow | queuectl/storage.py:76-87 | the row written for any job reads back as that same job |
| Storage.RowToJob | queuectl/storage.py:52-64 | a row decodes exactly when its state text names a state; the decoded job keeps the row's id and has the row's state text |
| Storage.RowReencodes | queuectl/storage.py:52-64 | a row that decodes is exactly the row its decoded job is written as |
| Storage.Enqueue | queuectl/storage.py:66-90 | a job with an attempt count or budget outside the signed 64-bit range is refused with `IntegerOutOfRange`; otherwise a used id is refused with `DuplicateId` of that id; otherwise exactly one row keyed by the job's id is added and every other row is left alone |
| Storage.GetJob | queuectl/storage.py:92-99 | returns the stored job for a known id and nothing for an unknown id |
| Storage.UpdateJob | queuectl/storage.py:101-126 | a job with an attempt count or budget outside the signed 64-bit range is refused with `IntegerOutOfRange`, whether or not its row exists; otherwise the row with the job's id is replaced by the job, other rows are untouched, and without such a row nothing changes |
| Storage.GetAfterEnqueue | queuectl/storage.py:66-99 | after a successful insert the new id reads back as the inserted job, and every other id reads back as before |
| Storage.GetAfterUpdate | queuectl/storage.py:92-126 | after a successful update of a stored id that id reads back as the written job, and every other id reads back as before |
| Storage.ListJobs | queuectl/storage.py:128-140 | lists every stored job that passes the state filter (all jobs without one), each once, nothing else, in non-decreasing creation time |
| Storage.CountsByState | queuectl/storage.py:142-152 | has an entry for every state, equal to the number of stored jobs in that state (0 if none) |
| Storage.CountsSumToSize | queuectl/storage.py:142-150 | the five per-state counts add up to the number of jobs |
| Storage.AcquireDue | queuectl/storage.py:154-191 | claims a pending or failed job that is due and created no later than any other due job; only its state (now processing) and update time (now `now`) change; with no due job it returns nothing and changes nothing |
| Storage.AcquiredJobNoLongerEligible | queuectl/storage.py:174-186 | a claimed job is processing afterwards and is not eligible at any later time |
| Storage.NoDoubleDispatch | queuectl/storage.py:158-186 | two consecutive acquisitions never return the same job |
| Storage.AcquireConsumesOneEligible | queuectl/storage.py:159-186 | a claim removes exactly the claimed job from the set of jobs due at that time |
| Storage.RunLeavesAcquiredProcessing | queuectl/storage.py:174-184 | after any run of acquisitions, every job handed out is still processing |
| Storage.RunNeverRepeatsAJob | queuectl/storage.py:154-191 | in any run of acquisitions no job is handed out twice |
| Storage.RunHandsOutEveryEligibleJob | queuectl/storage.py:159-172 | with M jobs due, N acquisitions at the same time hand out exactly min(N, M) jobs |
| Storage.ListingCounts | queuectl/engine.py:263-274 | bucketing the full listing by state gives the store's per-state counts, and the listing has as many jobs as the store |
| Engine.EnqueueJobFromSpec | queuectl/engine.py:145-197 | a missing or empty command is rejected first with `EmptyCommand`; then a delay whose due time leaves the datetime range is rejected with `TimeOutOfRange` of that time; then a budget (given or configured) outside the signed 64-bit range is refused by the store with `IntegerOutOfRange`; then an id in use is refused by the store with `DuplicateId` of that id; otherwise a new pending job is filed with 0 attempts, both timestamps at now, no error and no output path, the given or default budget, and first run at `run_at`, else now + delay, else now |
| Engine.CompleteJob | queuectl/engine.py:203-209 | a copy with integers outside the signed 64-bit range is refused with `IntegerOutOfRange` and changes nothing; otherwise the job becomes completed at now, with no next run or error and with the output path recorded; id, command, attempts, budget and creation time are kept; only that row changes |
| Engine.FailJob | queuectl/engine.py:211-226 | attempts go up by exactly one and the error and update time are recorded; the job is dead, with no next run, exactly when the new count reaches the budget; otherwise it is failed and due at now + backoff, unless that time leaves the datetime range, which is `TimeOutOfRange` with no row written; after that check, a new count or budget outside the signed 64-bit range is refused with `IntegerOutOfRange`, also with no row written |
| Engine.HugeBudgetIsRefused | queuectl/storage.py:69-88 | a submission with budget 2^63 is refused with `IntegerOutOfRange`, and no job is filed |
| Engine.HugeDelayIsRefused | queuectl/engine.py:169-178 | a delay of 10^12 seconds from any clock reading is refused with `TimeOutOfRange`, and no job is filed |
| Engine.HugeBackoffIsRefused | queuectl/engine.py:219-226 | with backoff base 10^12, the first failure of a job with budget left is refused with `TimeOutOfRange`, and no row is written |
| Engine.DlqRetry | queuectl/engine.py:238-251 | an unknown id gives "not found" and a job that is not dead gives "not in DLQ"; a dead job becomes pending with 0 attempts, no error and next run and update time now, with its other fields and all other rows kept |
| Engine.Status | queuectl/engine.py:231-233 | has an entry keyed by each state's text, equal to that state's count; the entries sum to the number of jobs |
| Engine.DlqList | queuectl/engine.py:235-236 | lists exactly the dead jobs, each once, oldest first |
| Engine.TallyStates | queuectl/engine.py:266-274 | each state's bucket counts the listed jobs in that state |
| Engine.ComputeMetrics | queuectl/engine.py:263-304 | the total is the number of jobs; there is a per-state count for each of the five states and they sum to the total; the completed count lies between 0 and the total and is 0 when there are no jobs |
| Lifecycle.EnqueuePreservesInvariant | queuectl/engine.py:183-194 | a newly filed job satisfies the lifecycle invariant, and so does the whole store |
| Lifecycle.AcquirePreservesInvariant | queuectl/storage.py:174-184 | a claim keeps the invariant, and the claimed job still has its next run time |
| Lifecycle.CompletePreservesInvariant | queuectl/engine.py:203-209 | an accepted report of success keeps the invariant; a refused one changes nothing |
| Lifecycle.FailPreservesInvariant | queuectl/engine.py:211-226 | an accepted report of failure keeps the invariant: a failed job has budget left and a next run, and a dead one has neither |
| Lifecycle.RequeuePreservesInvariant | queuectl/engine.py:245-250 | a requeue keeps the invariant |
| Lifecycle.StepPreservesInvariant | queuectl/engine.py:129-251 | every request (submit, acquire, complete, fail, requeue) keeps the invariant, including that the next run time is absent exactly for completed and dead jobs |
| Lifecycle.TracePreservesInvariant | queuectl/engine.py:129-251 | every store along any run of requests from an invariant store satisfies the invariant |
| Lifecycle.AcquireLeavesTerminalJobs | queuectl/storage.py:159-168 | acquisition never changes a completed or dead job |
| Lifecycle.RequeueLeavesDlq | queuectl/engine.py:238-251 | a successful requeue leaves the job due at once, and the dead-letter queue loses exactly that job |
| Lifecycle.FailureSchedule | queuectl/engine.py:216-224 | after the k-th failure below the budget, the job is due exactly `base ^ k` seconds after the failure when that time is a valid datetime, and the report is refused otherwise; at or above the budget it is dead with no next run; a count or budget outside the signed 64-bit range is refused instead |
| Lifecycle.ScenarioSuccess | tests/test_basic.py:33-54 | a job submitted to an empty store is the one acquired next, and reporting success leaves it completed with no next run and with the output path |
| Lifecycle.ScenarioRetryThenDead | tests/test_retry_backoff.py:39-67 | with budget 2 and base 2, the first failure leaves the job failed and due 2 s later; the second leaves it dead with no next run. The lemma extends the test by one step, a requeue through `dlq_retry` (queuectl/engine.py:238-251), which makes the job pending and due at once |

## Left out

- SQLite, WAL mode, connections, `BEGIN IMMEDIATE`, `COMMIT` and `ROLLBACK` (queuectl/storage.py:19-49, 187-191) are left out. Acquisition is one atomic transition, so the isolation the transaction provides is assumed, not checked.
- Transient store I/O errors, which the engine lets propagate, are left out: they are not part of the job logic.
- The worker loop, the supervisor, signal handlers, the stop-flag file, PID files and the 1-second polling sleep (queuectl/worker.py, queuectl/utils.py:44-76) are left out: they are concurrency and filesystem concerns. The sequential run lemmas about acquisition stand in for concurrent workers.
- Running commands, timeouts and log files (queuectl/executor.py) are OS calls. An outcome enters the model only as the arguments of `CompleteJob` and `FailJob`.
- The JSON-backed configuration store (queuectl/config.py) is left out. Only its defaults appear, as `Engine.DefaultConfig`. The job timeout is carried but not used.
- Argument parsing and printing (queuectl/cli.py) are left out, including the check that rejects `--run-at` together with `--delay` (queuectl/cli.py:135-136).
- Parsing inside `enqueue_job_from_json` is left out: `json.loads`, `datetime.fromisoformat` and `int()`, and the `ValueError`s they raise (queuectl/engine.py:140-143, 161-167, 171-176). The spec arrives already parsed, with `run_at` and `delay` as optional integers. A parsed `run_at` is always a valid datetime, so the model takes `runAt` as given and checks the range only for `now + delay`.
- Timestamps are integers. An explicit `run_at` with a time-zone offset keeps the offset in its text, and the source would then compare it to naive times as text. The model cannot express that case.
- Engine.FailJob: on an error the model returns only the error. In the source, `fail_job` has already changed the caller's `Job` object in memory by then (queuectl/engine.py:212-220): one more attempt, a new update time, the error message and the FAILED state. The model does not return that changed copy. The worker's exception handler (queuectl/worker.py:57-61) reports the changed copy a second time, which spends a further attempt. The worker loop is left out, so that double count is not modelled.
- Engine.CompleteJob: on an error the model returns only the error. In the source, `complete_job` has already changed the caller's `Job` object in memory (queuectl/engine.py:204-208), and the model does not return that changed copy.
- Lifecycle.StepPreservesInvariant: holds only for clocks that never go back. The precondition `Admissible` asks that `now` is no earlier than any stored update time. The source reads `datetime.utcnow()` (queuectl/utils.py:31-33), which gives no such guarantee. If the wall clock steps back, a requeue can record an update time earlier than the creation time.
- Lifecycle.TracePreservesInvariant: holds only for clocks that never go back, as for `Lifecycle.StepPreservesInvariant`.
- UUID generation is left out. The fresh id is a parameter.
- `fail_job` reads the clock twice (queuectl/engine.py:213, 223). The model uses one `now` for both the update time and the backoff base time.
- Engine.ComputeMetrics: reports the success rate as the pair (completed, total), not as a floating-point quotient. It leaves out `avg_attempts_completed`, `avg_attempts_dead` and `avg_duration_completed_seconds`, which are floating-point averages that skip unparsable timestamps.
- Restarting the store against the same database file (tests/test_persistence.py) is about durability on disk. It is not modelled: a store value simply persists between transitions.
- The commented-out earlier engine (queuectl/engine.py:1-106) is dead code and is not modelled.
