/** The persistent job table, abstracted as a finite map from job id to job.
    Every operation is one atomic transition from a store to a store. */
module Storage {
  import opened Wrappers
  import opened Models

  /** The `attempts` and `max_retries` columns are SQLite INTEGERs, signed
      64-bit values. Binding a Python int outside that range raises
      `OverflowError` before the statement runs. */
  const MinInteger: int := -0x8000_0000_0000_0000
  const MaxInteger: int := 0x7FFF_FFFF_FFFF_FFFF

  predicate FitsInteger(n: int)
  {
    MinInteger <= n <= MaxInteger
  }

  /** A job whose integer columns the table can hold. */
  predicate Bindable(j: Job)
  {
    FitsInteger(j.attempts) && FitsInteger(j.maxRetries)
  }

  /** The table's primary key is the job's own `id` column, so a row is
      always filed under its own id; and every row's integers fit their
      columns. */
  type Store = s: map<string, Job> | forall id :: id in s ==> s[id].id == id && Bindable(s[id])
    witness map[]

  datatype StoreError = DuplicateId(id: string) | IntegerOutOfRange

  /** A row as the table holds it: the state is kept as its text. */
  datatype Row = Row(
    id: string,
    command: string,
    state: string,
    attempts: int,
    maxRetries: int,
    createdAt: int,
    updatedAt: int,
    nextRunAt: Option<int>,
    lastError: Option<string>,
    outputLogPath: Option<string>)

  /** The row written for a job: the state goes in as its text, and the
      row reads back as the same job. */
  function ToRow(j: Job): (r: Row)
    ensures RowToJob(r) == Some(j)
  {
    Row(j.id, j.command, Value(j.state), j.attempts, j.maxRetries, j.createdAt,
        j.updatedAt, j.nextRunAt, j.lastError, j.outputLogPath)
  }

  /** Decodes a row; a row whose state text names no state is an error. */
  function RowToJob(row: Row): (r: Option<Job>)
    ensures r.Some? <==> FromValue(row.state).Some?
    ensures r.Some? ==> r.value.id == row.id && Value(r.value.state) == row.state
  {
    match FromValue(row.state)
    case None => None
    case Some(s) =>
      Some(Job(row.id, row.command, s, row.attempts, row.maxRetries, row.createdAt,
               row.updatedAt, row.nextRunAt, row.lastError, row.outputLogPath))
  }

  /** A row that decodes is exactly the row its job is written as. */
  lemma RowReencodes(row: Row)
    ensures RowToJob(row).Some? ==> ToRow(RowToJob(row).value) == row
  {
  }

  /** Inserts a new row. An integer the table cannot hold is an error,
      raised while binding and so before an id already present is. */
  function Enqueue(store: Store, job: Job): (r: Result<Store, StoreError>)
    ensures r.Failure? <==> !Bindable(job) || job.id in store
    ensures !Bindable(job) ==> r == Failure(IntegerOutOfRange)
    ensures Bindable(job) && job.id in store ==> r == Failure(DuplicateId(job.id))
    ensures r.Success? ==> r.value.Keys == store.Keys + {job.id}
    ensures r.Success? ==> |r.value| == |store| + 1
    ensures r.Success? ==> r.value[job.id] == job
    ensures r.Success? ==> forall id :: id in store ==> r.value[id] == store[id]
  {
    if !Bindable(job) then Failure(IntegerOutOfRange)
    else if job.id in store then Failure(DuplicateId(job.id))
    else Success(store[job.id := job])
  }

  /** The stored job for a known id, `None` for an unknown one. */
  function GetJob(store: Store, id: string): (r: Option<Job>)
    ensures r.Some? <==> id in store
    ensures r.Some? ==> r.value == store[id] && r.value.id == id
  {
    if id in store then Some(store[id]) else None
  }

  /** Overwrites every column of the row whose id is `job.id`; when there is
      no such row nothing changes. An integer the table cannot hold is an
      error whether or not the row exists. */
  function UpdateJob(store: Store, job: Job): (r: Result<Store, StoreError>)
    ensures r.Failure? <==> !Bindable(job)
    ensures r.Failure? ==> r.error == IntegerOutOfRange
    ensures r.Success? ==> r.value.Keys == store.Keys
    ensures r.Success? && job.id in store ==> r.value[job.id] == job
    ensures r.Success? ==> forall id :: id in store && id != job.id ==> r.value[id] == store[id]
    ensures r.Success? && job.id !in store ==> r.value == store
  {
    if !Bindable(job) then Failure(IntegerOutOfRange)
    else if job.id in store then Success(store[job.id := job])
    else Success(store)
  }

  /** A job just inserted reads back as itself; every other id reads back
      as before. */
  lemma GetAfterEnqueue(store: Store, job: Job, id: string)
    ensures Enqueue(store, job).Success? ==> GetJob(Enqueue(store, job).value, job.id) == Some(job)
    ensures Enqueue(store, job).Success? && id != job.id ==>
      GetJob(Enqueue(store, job).value, id) == GetJob(store, id)
  {
  }

  /** After an update the row reads back as the written job; every other id
      reads back as before. */
  lemma GetAfterUpdate(store: Store, job: Job, id: string)
    ensures UpdateJob(store, job).Success? && job.id in store ==>
      GetJob(UpdateJob(store, job).value, job.id) == Some(job)
    ensures UpdateJob(store, job).Success? && id != job.id ==>
      GetJob(UpdateJob(store, job).value, id) == GetJob(store, id)
  {
  }

  /** Whether a job passes the optional state filter of a listing. */
  predicate Matches(j: Job, filter: Option<JobState>)
  {
    filter.None? || j.state == filter.value
  }

  function Ids(r: seq<Job>): set<string>
  {
    set i | 0 <= i < |r| :: r[i].id
  }

  predicate SortedByCreation(r: seq<Job>)
  {
    forall i, k :: 0 <= i < k < |r| ==> r[i].createdAt <= r[k].createdAt
  }

  predicate DistinctIds(r: seq<Job>)
  {
    forall i, k :: 0 <= i < k < |r| ==> r[i].id != r[k].id
  }

  /** `r` lists every stored job that passes `filter`, each exactly once,
      and nothing else. */
  ghost predicate ListsExactly(store: Store, filter: Option<JobState>, r: seq<Job>)
  {
    && DistinctIds(r)
    && (forall i :: 0 <= i < |r| ==> r[i].id in store && store[r[i].id] == r[i] && Matches(r[i], filter))
    && (forall id :: id in store && Matches(store[id], filter) ==> id in Ids(r))
  }

  /** Inserts `j` into a listing sorted by creation time, after every job
      created no later than it. */
  method InsertByCreation(r: seq<Job>, j: Job) returns (r': seq<Job>, p: nat)
    requires SortedByCreation(r)
    ensures p <= |r| && |r'| == |r| + 1
    ensures r'[p] == j
    ensures forall i :: 0 <= i < p ==> r'[i] == r[i]
    ensures forall i :: p < i < |r'| ==> r'[i] == r[i - 1]
    ensures SortedByCreation(r')
  {
    p := 0;
    while p < |r| && r[p].createdAt <= j.createdAt
      invariant p <= |r|
      invariant forall i :: 0 <= i < p ==> r[i].createdAt <= j.createdAt
    {
      p := p + 1;
    }
    r' := r[..p] + [j] + r[p..];
  }

  /** Every job of `r` is stored, passes `filter`, and its id is outside
      `pending`. */
  ghost predicate ListedFrom(store: Store, filter: Option<JobState>, pending: set<string>, r: seq<Job>)
  {
    forall i :: 0 <= i < |r| ==>
      r[i].id in store && r[i].id !in pending && store[r[i].id] == r[i] && Matches(r[i], filter)
  }

  lemma InsertKeepsListing(store: Store, filter: Option<JobState>, pending: set<string>,
                           r: seq<Job>, j: Job, r': seq<Job>, p: nat)
    requires p <= |r| && |r'| == |r| + 1 && r'[p] == j
    requires forall i :: 0 <= i < p ==> r'[i] == r[i]
    requires forall i :: p < i < |r'| ==> r'[i] == r[i - 1]
    requires DistinctIds(r) && ListedFrom(store, filter, pending + {j.id}, r)
    requires j.id in store && j.id !in pending && store[j.id] == j && Matches(j, filter)
    ensures DistinctIds(r') && ListedFrom(store, filter, pending, r')
    ensures Ids(r') == Ids(r) + {j.id}
  {
    forall i | 0 <= i < |r| ensures r[i].id in Ids(r') {
      if i < p {
        assert r'[i] == r[i];
      } else {
        assert r'[i + 1] == r[i];
      }
    }
    assert r'[p].id == j.id;
  }

  /** The jobs in `filter`'s state (all jobs when `filter` is `None`),
      oldest first. */
  method ListJobs(store: Store, filter: Option<JobState>) returns (r: seq<Job>)
    ensures ListsExactly(store, filter, r)
    ensures SortedByCreation(r)
  {
    var keys := store.Keys;
    r := [];
    while keys != {}
      invariant keys <= store.Keys
      invariant SortedByCreation(r) && DistinctIds(r)
      invariant ListedFrom(store, filter, keys, r)
      invariant forall id :: id in store && id !in keys && Matches(store[id], filter) ==> id in Ids(r)
      decreases keys
    {
      var id :| id in keys;
      keys := keys - {id};
      if Matches(store[id], filter) {
        var r', p := InsertByCreation(r, store[id]);
        InsertKeepsListing(store, filter, keys, r, store[id], r', p);
        r := r';
      }
    }
  }

  /** The ids of the stored jobs in state `s`. */
  function StateIds(store: Store, s: JobState): set<string>
  {
    set id | id in store && store[id].state == s
  }

  /** The ids among `done` of the stored jobs in state `s`. */
  function SeenIds(store: Store, done: set<string>, s: JobState): set<string>
  {
    set id | id in done && id in store && store[id].state == s
  }

  /** The number of jobs per state, with an entry (possibly 0) for every state. */
  method CountsByState(store: Store) returns (counts: map<JobState, int>)
    ensures forall s: JobState :: s in counts && counts[s] == |StateIds(store, s)|
  {
    counts := map s: JobState | s in AllStates :: 0;
    ExactlyFiveStates();
    var keys := store.Keys;
    ghost var done: set<string> := {};
    while keys != {}
      invariant keys <= store.Keys && done == store.Keys - keys
      invariant forall s: JobState :: s in counts && counts[s] == |SeenIds(store, done, s)|
      decreases keys
    {
      var id :| id in keys;
      var st := store[id].state;
      assert SeenIds(store, done + {id}, st) == SeenIds(store, done, st) + {id};
      forall s: JobState | s != st
        ensures SeenIds(store, done + {id}, s) == SeenIds(store, done, s)
      {
      }
      keys := keys - {id};
      done := done + {id};
      counts := counts[st := counts[st] + 1];
    }
    forall s: JobState ensures counts[s] == |StateIds(store, s)| {
      assert SeenIds(store, done, s) == StateIds(store, s);
    }
  }

  /** The store without the row `id`. */
  function Without(store: Store, id: string): (r: Store)
    ensures r.Keys == store.Keys - {id}
    ensures forall k :: k in r ==> r[k] == store[k]
  {
    store - {id}
  }

  /** Removing one row removes its id from its own state's ids only. */
  lemma StateIdsWithout(store: Store, id: string, s: JobState)
    requires id in store
    ensures StateIds(store, s) == StateIds(Without(store, id), s) + (if store[id].state == s then {id} else {})
    ensures id !in StateIds(Without(store, id), s)
  {
  }

  ghost function TotalCount(store: Store): int
  {
    |StateIds(store, Pending)| + |StateIds(store, Processing)| + |StateIds(store, Completed)|
      + |StateIds(store, Failed)| + |StateIds(store, Dead)|
  }

  lemma TotalCountWithout(store: Store, id: string)
    requires id in store
    ensures TotalCount(store) == TotalCount(Without(store, id)) + 1
  {
    StateIdsWithout(store, id, Pending);
    StateIdsWithout(store, id, Processing);
    StateIdsWithout(store, id, Completed);
    StateIdsWithout(store, id, Failed);
    StateIdsWithout(store, id, Dead);
    match store[id].state
    case Pending =>
    case Processing =>
    case Completed =>
    case Failed =>
    case Dead =>
  }

  /** Every job is in exactly one state, so the per-state counts add up to
      the number of jobs. */
  lemma {:induction false} CountsSumToSize(store: Store)
    ensures TotalCount(store) == |store|
    decreases |store|
  {
    if |store| == 0 {
      assert StateIds(store, Pending) == {} && StateIds(store, Processing) == {};
      assert StateIds(store, Completed) == {} && StateIds(store, Failed) == {};
      assert StateIds(store, Dead) == {};
    } else {
      var id :| id in store;
      var smaller := Without(store, id);
      assert |smaller| == |store| - 1;
      CountsSumToSize(smaller);
      TotalCountWithout(store, id);
    }
  }

  /** How many jobs of `r` are in state `s`. */
  function CountState(r: seq<Job>, s: JobState): nat
  {
    if r == [] then 0
    else CountState(r[..|r| - 1], s) + (if r[|r| - 1].state == s then 1 else 0)
  }

  lemma ListingWithoutLast(store: Store, r: seq<Job>)
    requires r != [] && ListsExactly(store, None, r)
    ensures r[|r| - 1].id in store
    ensures ListsExactly(Without(store, r[|r| - 1].id), None, r[..|r| - 1])
  {
  }

  /** Counting a full listing per state gives the store's per-state counts,
      and the listing is as long as the store is large. */
  lemma {:induction false} ListingCounts(store: Store, r: seq<Job>, s: JobState)
    requires ListsExactly(store, None, r)
    ensures |r| == |store|
    ensures CountState(r, s) == |StateIds(store, s)|
    decreases |r|
  {
    if r == [] {
      assert Ids(r) == {};
      assert store.Keys <= Ids(r);
      assert StateIds(store, s) == {};
    } else {
      var x := r[|r| - 1];
      ListingWithoutLast(store, r);
      ListingCounts(Without(store, x.id), r[..|r| - 1], s);
      StateIdsWithout(store, x.id, s);
    }
  }

  /** A job may be picked up: it waits (pending or failed) and its scheduled
      time, if any, has come. */
  predicate Eligible(j: Job, now: int)
  {
    && (j.state == Pending || j.state == Failed)
    && (j.nextRunAt.None? || j.nextRunAt.value <= now)
  }

  function EligibleIds(store: Store, now: int): set<string>
  {
    set id | id in store && Eligible(store[id], now)
  }

  /** One atomic acquisition at time `now` turned `store` into `store'` and
      returned `r`: either no job was eligible and nothing changed, or the
      oldest eligible job was claimed, and only its state (now processing)
      and update time (now `now`) changed. */
  ghost predicate Acquired(store: Store, now: int, r: Option<Job>, store': Store)
  {
    match r
    case None =>
      && (forall id :: id in store ==> !Eligible(store[id], now))
      && store' == store
    case Some(j) =>
      && j.id in store
      && Eligible(store[j.id], now)
      && (forall id :: id in store && Eligible(store[id], now) ==> store[j.id].createdAt <= store[id].createdAt)
      && j == store[j.id].(state := Processing, updatedAt := now)
      && store'.Keys == store.Keys
      && store'[j.id] == j
      && (forall id :: id in store && id != j.id ==> store'[id] == store[id])
  }

  /** Claims the oldest eligible job; SQL leaves the order among jobs created
      in the same second open, and so does this choice. */
  method AcquireDue(store: Store, now: int) returns (r: Option<Job>, store': Store)
    ensures Acquired(store, now, r, store')
  {
    var keys := store.Keys;
    var best: Option<string> := None;
    while keys != {}
      invariant keys <= store.Keys
      invariant best.None? ==> forall id :: id in store && id !in keys ==> !Eligible(store[id], now)
      invariant best.Some? ==> best.value in store && Eligible(store[best.value], now)
      invariant best.Some? ==> forall id :: id in store && id !in keys && Eligible(store[id], now) ==>
        store[best.value].createdAt <= store[id].createdAt
      decreases keys
    {
      var id :| id in keys;
      keys := keys - {id};
      if Eligible(store[id], now) && (best.None? || store[id].createdAt < store[best.value].createdAt) {
        best := Some(id);
      }
    }
    if best.None? {
      r, store' := None, store;
    } else {
      var j := store[best.value].(state := Processing, updatedAt := now);
      r, store' := Some(j), store[j.id := j];
    }
  }

  /** An acquired job is processing afterwards, hence not eligible again
      at any time. */
  lemma AcquiredJobNoLongerEligible(store: Store, now: int, j: Job, store': Store, later: int)
    requires Acquired(store, now, Some(j), store')
    ensures j.id in store' && !Eligible(store'[j.id], later)
  {
  }

  /** Two consecutive acquisitions never hand out the same job. */
  lemma NoDoubleDispatch(s0: Store, t0: int, j0: Job, s1: Store, t1: int, j1: Job, s2: Store)
    requires Acquired(s0, t0, Some(j0), s1)
    requires Acquired(s1, t1, Some(j1), s2)
    ensures j0.id != j1.id
  {
  }

  /** A successful acquisition at `now` removes exactly the acquired job from
      the set of jobs eligible at `now`. */
  lemma AcquireConsumesOneEligible(store: Store, now: int, j: Job, store': Store)
    requires Acquired(store, now, Some(j), store')
    ensures EligibleIds(store', now) == EligibleIds(store, now) - {j.id}
    ensures |EligibleIds(store', now)| == |EligibleIds(store, now)| - 1
  {
  }

  /** `stores[k]` to `stores[k+1]` is one acquisition at `nows[k]` returning
      `results[k]`; the steps are serialised, as the exclusive transaction
      around the acquisition ensures. */
  ghost predicate AcquireRun(stores: seq<Store>, nows: seq<int>, results: seq<Option<Job>>)
  {
    && |stores| == |results| + 1
    && |nows| == |results|
    && forall k :: 0 <= k < |results| ==> Acquired(stores[k], nows[k], results[k], stores[k + 1])
  }

  function CountSome(results: seq<Option<Job>>): nat
  {
    if results == [] then 0 else CountSome(results[..|results| - 1]) + (if results[|results| - 1].Some? then 1 else 0)
  }

  /** Along a run of acquisitions every job handed out is processing in the
      final store. */
  lemma {:induction false} RunLeavesAcquiredProcessing(stores: seq<Store>, nows: seq<int>, results: seq<Option<Job>>)
    requires AcquireRun(stores, nows, results)
    ensures forall k :: 0 <= k < |results| && results[k].Some? ==>
      results[k].value.id in stores[|results|] && stores[|results|][results[k].value.id].state == Processing
  {
    if results != [] {
      var n := |results| - 1;
      RunLeavesAcquiredProcessing(stores[..n + 1], nows[..n], results[..n]);
      assert forall k :: 0 <= k < n ==> results[..n][k] == results[k];
      assert Acquired(stores[n], nows[n], results[n], stores[n + 1]);
    }
  }

  /** However many acquisitions run one after another, no job is handed out
      twice. */
  lemma {:induction false} RunNeverRepeatsAJob(stores: seq<Store>, nows: seq<int>, results: seq<Option<Job>>)
    requires AcquireRun(stores, nows, results)
    ensures forall k, m :: 0 <= k < m < |results| && results[k].Some? && results[m].Some? ==>
      results[k].value.id != results[m].value.id
  {
    forall k, m | 0 <= k < m < |results| && results[k].Some? && results[m].Some?
      ensures results[k].value.id != results[m].value.id
    {
      RunLeavesAcquiredProcessing(stores[..m + 1], nows[..m], results[..m]);
      assert results[..m][k] == results[k];
      assert Acquired(stores[m], nows[m], results[m], stores[m + 1]);
    }
  }

  /** With M jobs eligible at `now`, N acquisitions at `now` hand out
      exactly min(N, M) jobs. */
  lemma {:induction false} RunHandsOutEveryEligibleJob(stores: seq<Store>, now: int, nows: seq<int>, results: seq<Option<Job>>)
    requires AcquireRun(stores, nows, results)
    requires forall k :: 0 <= k < |nows| ==> nows[k] == now
    ensures CountSome(results) == if |results| <= |EligibleIds(stores[0], now)| then |results| else |EligibleIds(stores[0], now)|
    ensures |EligibleIds(stores[|results|], now)| == |EligibleIds(stores[0], now)| - CountSome(results)
  {
    if results != [] {
      var n := |results| - 1;
      RunHandsOutEveryEligibleJob(stores[..n + 1], now, nows[..n], results[..n]);
      assert Acquired(stores[n], now, results[n], stores[n + 1]);
      match results[n]
      case None =>
        assert EligibleIds(stores[n], now) == {};
      case Some(j) =>
        AcquireConsumesOneEligible(stores[n], now, j, stores[n + 1]);
    }
  }
}
