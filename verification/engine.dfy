/** The queue engine: every request is a deterministic transition on the
    store, given the current time `now` and the configuration. */
module Engine {
  import opened Wrappers
  import opened Models
  import opened Storage
  import opened Backoff

  /** Operator settings. */
  datatype Config = Config(maxRetries: int, backoffBase: int, jobTimeout: int)

  /** The settings in force when the operator has changed nothing. */
  const DefaultConfig: Config := Config(3, 2, 60)

  /** The span of a Python `datetime`, 0001-01-01T00:00:00 to
      9999-12-31T23:59:59, in seconds from 1970-01-01T00:00:00. A clock
      reading lies inside it; a time computed by adding seconds to one may
      not, and then the addition raises `OverflowError`. */
  const MinTime: int := -62135596800
  const MaxTime: int := 253402300799

  predicate InRange(t: int)
  {
    MinTime <= t <= MaxTime
  }

  /** An already parsed submission: every field may be absent. `runAt` is an
      absolute time and `delay` a number of seconds from now. */
  datatype JobSpec = JobSpec(
    id: Option<string>,
    command: Option<string>,
    maxRetries: Option<int>,
    runAt: Option<int>,
    delay: Option<int>)

  datatype EngineError =
    | EmptyCommand
    | Rejected(cause: StoreError)
    | NotFound(id: string)
    | NotInDlq(id: string, state: JobState)
    | TimeOutOfRange(t: int)

  /** The id a submission is filed under: its own when it brings a non-empty
      one, the freshly generated one otherwise. */
  function ChosenId(spec: JobSpec, freshId: string): string
  {
    if spec.id.Some? && spec.id.value != "" then spec.id.value else freshId
  }

  /** The retry budget of a submission: its own, else the configured one. */
  function ChosenBudget(spec: JobSpec, config: Config): int
  {
    if spec.maxRetries.Some? then spec.maxRetries.value else config.maxRetries
  }

  /** When a new job first becomes due: an explicit time wins over a delay,
      and with neither the job is due at once. */
  function FirstRunAt(spec: JobSpec, now: int): int
  {
    if spec.runAt.Some? then spec.runAt.value
    else if spec.delay.Some? then now + spec.delay.value
    else now
  }

  /** The submission asks for a delay whose due time is no valid datetime. */
  predicate DelayOverflows(spec: JobSpec, now: int)
  {
    spec.runAt.None? && spec.delay.Some? && !InRange(now + spec.delay.value)
  }

  /** Validates a submission and files it as a new pending job. A missing or
      empty command is rejected before anything else, then a delay that
      leaves the datetime range; the store then rejects a budget its column
      cannot hold and, last, an id already in use. On failure no row is
      created. */
  function EnqueueJobFromSpec(store: Store, spec: JobSpec, config: Config, now: int, freshId: string)
    : (r: Result<(Job, Store), EngineError>)
    ensures r == Failure(EmptyCommand) <==> spec.command.None? || spec.command.value == ""
    ensures r.Failure? && r.error.TimeOutOfRange? <==>
      spec.command.Some? && spec.command.value != "" && DelayOverflows(spec, now)
    ensures r.Failure? && r.error.TimeOutOfRange? ==> r.error.t == now + spec.delay.value
    ensures r == Failure(Rejected(IntegerOutOfRange)) <==>
      spec.command.Some? && spec.command.value != "" && !DelayOverflows(spec, now)
      && !FitsInteger(ChosenBudget(spec, config))
    ensures r == Failure(Rejected(DuplicateId(ChosenId(spec, freshId)))) <==>
      spec.command.Some? && spec.command.value != "" && !DelayOverflows(spec, now)
      && FitsInteger(ChosenBudget(spec, config)) && ChosenId(spec, freshId) in store
    ensures r.Failure? <==>
      spec.command.None? || spec.command.value == "" || DelayOverflows(spec, now)
      || !FitsInteger(ChosenBudget(spec, config)) || ChosenId(spec, freshId) in store
    ensures r.Success? ==> r.value.0.state == Pending && r.value.0.attempts == 0
    ensures r.Success? ==> r.value.0.createdAt == now && r.value.0.updatedAt == now
    ensures r.Success? ==> r.value.0.lastError.None? && r.value.0.outputLogPath.None?
    ensures r.Success? ==> spec.command == Some(r.value.0.command)
    ensures r.Success? && spec.id.Some? && spec.id.value != "" ==> r.value.0.id == spec.id.value
    ensures r.Success? && (spec.id.None? || spec.id.value == "") ==> r.value.0.id == freshId
    ensures r.Success? && spec.maxRetries.Some? ==> r.value.0.maxRetries == spec.maxRetries.value
    ensures r.Success? && spec.maxRetries.None? ==> r.value.0.maxRetries == config.maxRetries
    ensures r.Success? && spec.runAt.Some? ==> r.value.0.nextRunAt == spec.runAt
    ensures r.Success? && spec.runAt.None? && spec.delay.Some? ==> r.value.0.nextRunAt == Some(now + spec.delay.value)
    ensures r.Success? && spec.runAt.None? && spec.delay.None? ==> r.value.0.nextRunAt == Some(now)
    ensures r.Success? ==> r.value.1.Keys == store.Keys + {r.value.0.id}
    ensures r.Success? ==> r.value.1[r.value.0.id] == r.value.0
    ensures r.Success? ==> forall id :: id in store ==> r.value.1[id] == store[id]
  {
    if spec.command.None? || spec.command.value == "" then
      Failure(EmptyCommand)
    else if DelayOverflows(spec, now) then
      Failure(TimeOutOfRange(now + spec.delay.value))
    else
      var job := NewJob(ChosenId(spec, freshId), spec.command.value, Pending, 0, ChosenBudget(spec, config), now, now)
        .(nextRunAt := Some(FirstRunAt(spec, now)));
      match Enqueue(store, job)
      case Failure(e) => Failure(Rejected(e))
      case Success(store') => Success((job, store'))
  }

  /** Records a successful run of the caller's copy `job` and writes the
      whole copy back over the row with its id. The row's current state is
      not checked. A copy whose integers the table cannot hold is an error
      and changes nothing. */
  function CompleteJob(store: Store, job: Job, outputLogPath: Option<string>, now: int)
    : (r: Result<(Job, Store), EngineError>)
    ensures r.Failure? <==> !Bindable(job)
    ensures r.Failure? ==> r.error == Rejected(IntegerOutOfRange)
    ensures r.Success? ==> r.value.0.state == Completed && r.value.0.updatedAt == now
    ensures r.Success? ==>
      r.value.0.nextRunAt.None? && r.value.0.lastError.None? && r.value.0.outputLogPath == outputLogPath
    ensures r.Success? ==>
      r.value.0.id == job.id && r.value.0.command == job.command && r.value.0.attempts == job.attempts
    ensures r.Success? ==> r.value.0.maxRetries == job.maxRetries && r.value.0.createdAt == job.createdAt
    ensures r.Success? ==> r.value.1.Keys == store.Keys
    ensures r.Success? && job.id in store ==> r.value.1[job.id] == r.value.0
    ensures r.Success? ==> forall id :: id in store && id != job.id ==> r.value.1[id] == store[id]
  {
    var done := job.(state := Completed, updatedAt := now, nextRunAt := None,
                     lastError := None, outputLogPath := outputLogPath);
    match UpdateJob(store, done)
    case Failure(e) => Failure(Rejected(e))
    case Success(store') => Success((done, store'))
  }

  /** Records a failed run of the caller's copy `job`: one more attempt is
      spent; with the budget exhausted the job is dead, otherwise it is
      rescheduled after the backoff delay. A due time outside the datetime
      range is an error, and so, after it, is a copy whose integers the
      table cannot hold; either leaves the rows as they were. The row's
      current state is not checked. */
  function FailJob(store: Store, job: Job, errorMessage: string, now: int, config: Config)
    : (r: Result<(Job, Store), EngineError>)
    ensures r.Failure? && r.error.TimeOutOfRange? <==>
      job.attempts + 1 < job.maxRetries && !InRange(now + ComputeBackoff(config.backoffBase, job.attempts + 1))
    ensures r.Failure? && r.error.TimeOutOfRange? ==>
      r.error == TimeOutOfRange(now + ComputeBackoff(config.backoffBase, job.attempts + 1))
    ensures r.Failure? && !r.error.TimeOutOfRange? <==>
      !(job.attempts + 1 < job.maxRetries && !InRange(now + ComputeBackoff(config.backoffBase, job.attempts + 1)))
      && !(FitsInteger(job.attempts + 1) && FitsInteger(job.maxRetries))
    ensures r.Failure? && !r.error.TimeOutOfRange? ==> r.error == Rejected(IntegerOutOfRange)
    ensures r.Success? ==> r.value.0.attempts == job.attempts + 1
    ensures r.Success? ==> r.value.0.lastError == Some(errorMessage) && r.value.0.updatedAt == now
    ensures r.Success? ==> (r.value.0.state == Dead <==> r.value.0.attempts >= job.maxRetries)
    ensures r.Success? && r.value.0.state == Dead ==> r.value.0.nextRunAt.None?
    ensures r.Success? && r.value.0.state != Dead ==>
      && r.value.0.state == Failed
      && r.value.0.nextRunAt == Some(now + ComputeBackoff(config.backoffBase, r.value.0.attempts))
      && InRange(r.value.0.nextRunAt.value)
    ensures r.Success? ==> r.value.0.id == job.id && r.value.0.command == job.command && r.value.0.maxRetries == job.maxRetries
    ensures r.Success? ==> r.value.0.createdAt == job.createdAt && r.value.0.outputLogPath == job.outputLogPath
    ensures r.Success? ==> r.value.1.Keys == store.Keys
    ensures r.Success? && job.id in store ==> r.value.1[job.id] == r.value.0
    ensures r.Success? ==> forall id :: id in store && id != job.id ==> r.value.1[id] == store[id]
  {
    var attempts := job.attempts + 1;
    var due := now + ComputeBackoff(config.backoffBase, attempts);
    if attempts < job.maxRetries && !InRange(due) then
      Failure(TimeOutOfRange(due))
    else
      var failed :=
        if attempts >= job.maxRetries then
          job.(attempts := attempts, updatedAt := now, lastError := Some(errorMessage),
               state := Dead, nextRunAt := None)
        else
          job.(attempts := attempts, updatedAt := now, lastError := Some(errorMessage),
               state := Failed, nextRunAt := Some(due));
      match UpdateJob(store, failed)
      case Failure(e) => Failure(Rejected(e))
      case Success(store') => Success((failed, store'))
  }

  /** A delay of 10^12 seconds (some 31 700 years) from any clock reading is
      past year 9999: the submission is refused and nothing is filed. */
  lemma HugeDelayIsRefused(store: Store, now: int, freshId: string)
    requires InRange(now)
    ensures EnqueueJobFromSpec(store, JobSpec(None, Some("x"), None, None, Some(1000000000000)), DefaultConfig, now, freshId)
            == Failure(TimeOutOfRange(now + 1000000000000))
  {
  }

  /** A budget of 2^63 does not fit the signed 64-bit `max_retries` column:
      the store refuses the insert and nothing is filed. */
  lemma HugeBudgetIsRefused(store: Store, now: int, freshId: string)
    ensures EnqueueJobFromSpec(store, JobSpec(None, Some("x"), Some(0x8000_0000_0000_0000), None, None), DefaultConfig, now, freshId)
            == Failure(Rejected(IntegerOutOfRange))
  {
  }

  /** With a backoff base of 10^12 even the first failure of a job with
      budget left asks for a due time past year 9999: the report is refused
      and the row keeps its state. */
  lemma HugeBackoffIsRefused(store: Store, job: Job, errorMessage: string, now: int)
    requires InRange(now) && job.attempts == 0 && job.maxRetries > 1
    ensures FailJob(store, job, errorMessage, now, DefaultConfig.(backoffBase := 1000000000000))
            == Failure(TimeOutOfRange(now + 1000000000000))
  {
    FirstRetryWaitsBase(1000000000000);
  }

  /** Puts a dead job back in the queue with a fresh attempt budget, due now.
      An unknown id and a job that is not dead are errors and change nothing. */
  function DlqRetry(store: Store, id: string, now: int): (r: Result<(Job, Store), EngineError>)
    ensures id !in store ==> r == Failure(NotFound(id))
    ensures id in store && store[id].state != Dead ==> r == Failure(NotInDlq(id, store[id].state))
    ensures r.Success? <==> id in store && store[id].state == Dead
    ensures r.Success? ==> r.value.0.id == id && r.value.0.state == Pending && r.value.0.attempts == 0
    ensures r.Success? ==> r.value.0.lastError.None? && r.value.0.updatedAt == now && r.value.0.nextRunAt == Some(now)
    ensures r.Success? ==> r.value.0.command == store[id].command && r.value.0.maxRetries == store[id].maxRetries
    ensures r.Success? ==> r.value.0.createdAt == store[id].createdAt && r.value.0.outputLogPath == store[id].outputLogPath
    ensures r.Success? ==> r.value.1.Keys == store.Keys && r.value.1[id] == r.value.0
    ensures r.Success? ==> forall k :: k in store && k != id ==> r.value.1[k] == store[k]
  {
    match GetJob(store, id)
    case None => Failure(NotFound(id))
    case Some(job) =>
      if job.state != Dead then
        Failure(NotInDlq(id, job.state))
      else
        var requeued := job.(state := Pending, attempts := 0, updatedAt := now,
                             nextRunAt := Some(now), lastError := None);
        Success((requeued, UpdateJob(store, requeued).value))
  }

  /** Re-keys per-state counts by the states' texts. */
  function ByValue(counts: map<JobState, int>): (r: map<string, int>)
    requires forall s: JobState :: s in counts
    ensures forall s: JobState :: Value(s) in r && r[Value(s)] == counts[s]
    ensures forall v :: v in r ==> FromValue(v).Some?
  {
    map[Value(Pending) := counts[Pending], Value(Processing) := counts[Processing],
        Value(Completed) := counts[Completed], Value(Failed) := counts[Failed],
        Value(Dead) := counts[Dead]]
  }

  /** The sum of a report's entries over the five states. */
  function SumByState(byState: map<string, int>): int
    requires forall s: JobState :: Value(s) in byState
  {
    byState[Value(Pending)] + byState[Value(Processing)] + byState[Value(Completed)]
      + byState[Value(Failed)] + byState[Value(Dead)]
  }

  /** Number of jobs per state text, an entry for each of the five states. */
  method Status(store: Store) returns (r: map<string, int>)
    ensures forall s: JobState :: Value(s) in r && r[Value(s)] == |StateIds(store, s)|
    ensures forall v :: v in r ==> FromValue(v).Some?
    ensures SumByState(r) == |store|
  {
    var counts := CountsByState(store);
    r := ByValue(counts);
    CountsSumToSize(store);
  }

  /** The dead-letter queue: the dead jobs, oldest first. */
  method DlqList(store: Store) returns (r: seq<Job>)
    ensures forall i :: 0 <= i < |r| ==> r[i].state == Dead
    ensures ListsExactly(store, Some(Dead), r)
    ensures SortedByCreation(r)
  {
    r := ListJobs(store, Some(Dead));
  }

  /** The integer part of the metrics report. The success rate is the
      fraction `completed / totalJobs`, taken as 0 when there are no jobs. */
  datatype Metrics = Metrics(totalJobs: int, byState: map<string, int>, completed: int)

  /** Buckets a listing by state, as the metrics report does. */
  method TallyStates(jobs: seq<Job>) returns (counts: map<JobState, int>)
    ensures forall s: JobState :: s in counts && counts[s] == CountState(jobs, s)
  {
    counts := map s: JobState | s in AllStates :: 0;
    ExactlyFiveStates();
    var i := 0;
    while i < |jobs|
      invariant i <= |jobs|
      invariant forall s: JobState :: s in counts && counts[s] == CountState(jobs[..i], s)
    {
      assert jobs[..i + 1][..i] == jobs[..i];
      counts := counts[jobs[i].state := counts[jobs[i].state] + 1];
      i := i + 1;
    }
    assert jobs[..i] == jobs;
  }

  method ComputeMetrics(store: Store) returns (m: Metrics)
    ensures m.totalJobs == |store|
    ensures forall s: JobState :: Value(s) in m.byState && m.byState[Value(s)] == |StateIds(store, s)|
    ensures forall v :: v in m.byState ==> FromValue(v).Some?
    ensures SumByState(m.byState) == m.totalJobs
    ensures m.completed == m.byState[Value(Completed)]
    ensures 0 <= m.completed <= m.totalJobs
    ensures m.totalJobs == 0 ==> m.completed == 0
  {
    var jobs := ListJobs(store, None);
    var counts := TallyStates(jobs);
    forall s: JobState ensures counts[s] == |StateIds(store, s)| {
      ListingCounts(store, jobs, s);
    }
    ListingCounts(store, jobs, Completed);
    CountsSumToSize(store);
    m := Metrics(|jobs|, ByValue(counts), counts[Completed]);
  }
}
