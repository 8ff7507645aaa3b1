/** The job record and its lifecycle states. */
module Models {
  import opened Wrappers

  /** The five lifecycle states of a job. */
  datatype JobState = Pending | Processing | Completed | Failed | Dead

  const AllStates: seq<JobState> := [Pending, Processing, Completed, Failed, Dead]

  /** The text the store writes in the `state` column. */
  function Value(s: JobState): string
  {
    match s
    case Pending => "pending"
    case Processing => "processing"
    case Completed => "completed"
    case Failed => "failed"
    case Dead => "dead"
  }

  /** Looks a state up by its text, as `JobState(text)` does; an unknown
      text is an error (`None`). */
  function FromValue(v: string): (r: Option<JobState>)
    ensures r.Some? ==> Value(r.value) == v
    ensures r.None? ==> forall s: JobState :: Value(s) != v
  {
    if v == "pending" then Some(Pending)
    else if v == "processing" then Some(Processing)
    else if v == "completed" then Some(Completed)
    else if v == "failed" then Some(Failed)
    else if v == "dead" then Some(Dead)
    else None
  }

  /** The enumeration is closed: exactly five pairwise distinct states. */
  lemma ExactlyFiveStates()
    ensures |AllStates| == 5
    ensures forall s: JobState :: s in AllStates
    ensures forall i, k :: 0 <= i < k < |AllStates| ==> AllStates[i] != AllStates[k]
  {
    forall s: JobState ensures s in AllStates {
      match s
      case Pending => assert AllStates[0] == s;
      case Processing => assert AllStates[1] == s;
      case Completed => assert AllStates[2] == s;
      case Failed => assert AllStates[3] == s;
      case Dead => assert AllStates[4] == s;
    }
  }

  /** Distinct states are written as distinct texts. */
  lemma ValuesDistinct(s: JobState, t: JobState)
    requires s != t
    ensures Value(s) != Value(t)
  {
  }

  /** Reading back what was written yields the same state. */
  lemma ValueRoundTrip(s: JobState)
    ensures FromValue(Value(s)) == Some(s)
  {
  }

  /** A job; timestamps are whole seconds of naive UTC time. */
  datatype Job = Job(
    id: string,
    command: string,
    state: JobState,
    attempts: int,
    maxRetries: int,
    createdAt: int,
    updatedAt: int,
    nextRunAt: Option<int>,
    lastError: Option<string>,
    outputLogPath: Option<string>)

  /** Builds a job leaving the three optional fields at their default. */
  function NewJob(id: string, command: string, state: JobState, attempts: int,
                  maxRetries: int, createdAt: int, updatedAt: int): (j: Job)
    ensures j.nextRunAt.None? && j.lastError.None? && j.outputLogPath.None?
    ensures j.id == id && j.command == command && j.state == state
    ensures j.attempts == attempts && j.maxRetries == maxRetries
    ensures j.createdAt == createdAt && j.updatedAt == updatedAt
  {
    Job(id, command, state, attempts, maxRetries, createdAt, updatedAt, None, None, None)
  }
}
