/** The in-memory worker pool and its queue as interleaved steps of callers and workers. */
module Pool {
  import opened Common

  type ThreadId = nat
  type JobId = nat

  /** One submission of a job: two submissions with the same job ID have different ids. */
  datatype Job = Job(id: JobId, attempts: int, maxAttempts: int)

  /** Where a call of Pool.Submit is: registered, counted, in the queue's select with the
      read lock held, or refused by the queue and about to take its count back. */
  datatype Stage = Registered | Counted | Sending | Refusing

  /** What a thread is doing. Outside callers are Outside or Calling; workers the rest. */
  datatype Thread =
    | Outside
    | Calling(job: Job, stage: Stage)
    | Idle
    | Handling(own: Job)
    | Sleeping(own: Job)
    | Requeueing(own: Job)
    | Feeding(own: Job, todo: seq<Job>)
    | Submitting(own: Job, todo: seq<Job>, stage: Stage)
    | Exhausting(own: Job)
    | Checking
    | Closing(seen: set<JobId>)
    | Exited

  datatype Place = Queued | At(thread: ThreadId) | Completed | Exhausted | Dropped | Refused

  /** What is known of a job: how it was submitted, where it is, how often it was handled,
      whether it ever entered the channel, and the children it returned. */
  datatype Entry = Entry(start: Job, place: Place, runs: nat, accepted: bool, children: set<JobId>)

  datatype State = State(
    threads: map<ThreadId, Thread>, channel: seq<Job>, closing: bool, closed: bool, stopping: bool,
    inFlight: int, done: Option<set<JobId>>, ledger: map<JobId, Entry>)

  datatype Action =
    | Call(t: ThreadId, job: Job) | Count(t: ThreadId) | Enter(t: ThreadId) | Send(t: ThreadId)
    | Bounce(t: ThreadId) | Undo(t: ThreadId)
    | Take(t: ThreadId) | Exit(t: ThreadId) | Fail(t: ThreadId) | Succeed(t: ThreadId, kids: seq<Job>)
    | Wake(t: ThreadId) | Requeue(t: ThreadId) | Drop(t: ThreadId)
    | Feed(t: ThreadId) | Release(t: ThreadId) | Check(t: ThreadId) | CloseDone(t: ThreadId)
    | Stop | BeginClose | CloseChannel

  // ----------------------------------------------------------------------------- steps

  predicate HasStage(t: Thread, stage: Stage) {
    (t.Calling? || (t.Submitting? && t.todo != [])) && t.stage == stage
  }

  function Offered(t: Thread): Job
    requires t.Calling? || (t.Submitting? && t.todo != [])
  {
    if t.Calling? then t.job else t.todo[0]
  }

  function WithStage(t: Thread, stage: Stage): Thread
    requires t.Calling? || t.Submitting?
  {
    if t.Calling? then Calling(t.job, stage) else Submitting(t.own, t.todo, stage)
  }

  /** After the call of Submit has returned. */
  function Returned(t: Thread): Thread
    requires t.Calling? || (t.Submitting? && t.todo != [])
  {
    if t.Calling? then Outside else Feeding(t.own, t.todo[1..])
  }

  /** Threads that hold the queue's read lock. */
  predicate Locked(t: Thread) {
    t.Requeueing? || HasStage(t, Sending)
  }

  function IdSet(jobs: seq<Job>): set<JobId> {
    set j <- jobs :: j.id
  }

  predicate DistinctIds(jobs: seq<Job>) {
    forall i, k :: 0 <= i < k < |jobs| ==> jobs[i].id != jobs[k].id
  }

  function Accepted(s: State): set<JobId> {
    set id <- s.ledger | s.ledger[id].accepted
  }

  function SetThread(s: State, t: ThreadId, x: Thread): State {
    s.(threads := s.threads[t := x])
  }

  /** The ledger only records what happens; every job that moves is in it. */
  function EntryOf(s: State, job: Job): Entry {
    if job.id in s.ledger then s.ledger[job.id] else Entry(job, Queued, 0, false, {})
  }

  function Record(s: State, job: Job, entry: Entry): State {
    s.(ledger := s.ledger[job.id := entry])
  }

  function SetPlace(s: State, job: Job, place: Place): State {
    Record(s, job, EntryOf(s, job).(place := place))
  }

  /** The job enters the channel. */
  function Push(s: State, job: Job): State {
    Record(s, job, EntryOf(s, job).(place := Queued, accepted := true)).(channel := s.channel + [job])
  }

  function NewEntry(job: Job, t: ThreadId): Entry {
    Entry(job, At(t), 0, false, {})
  }

  function AddJobs(ledger: map<JobId, Entry>, jobs: seq<Job>, t: ThreadId): map<JobId, Entry> {
    if jobs == [] then ledger else AddJobs(ledger, jobs[1..], t)[jobs[0].id := NewEntry(jobs[0], t)]
  }

  predicate Enabled(s: State, a: Action) {
    match a
    case Call(t, job) => t in s.threads && s.threads[t].Outside? && !s.stopping && job.id !in s.ledger
    case Count(t) => t in s.threads && HasStage(s.threads[t], Registered)
    case Enter(t) => t in s.threads && HasStage(s.threads[t], Counted)
    case Send(t) => t in s.threads && HasStage(s.threads[t], Sending)
    case Bounce(t) => t in s.threads && HasStage(s.threads[t], Sending) && s.closing
    case Undo(t) => t in s.threads && HasStage(s.threads[t], Refusing)
    case Take(t) => t in s.threads && s.threads[t].Idle? && s.channel != []
    case Exit(t) => t in s.threads && s.threads[t].Idle? && s.channel == [] && s.closed
    case Fail(t) => t in s.threads && s.threads[t].Handling?
    case Succeed(t, kids) =>
      && t in s.threads && s.threads[t].Handling?
      && DistinctIds(kids) && IdSet(kids) !! s.ledger.Keys
    case Wake(t) => t in s.threads && s.threads[t].Sleeping?
    case Requeue(t) => t in s.threads && s.threads[t].Requeueing?
    case Drop(t) => t in s.threads && s.threads[t].Requeueing? && s.closing
    case Feed(t) => t in s.threads && s.threads[t].Feeding? && s.threads[t].todo != []
    case Release(t) =>
      t in s.threads && (s.threads[t].Exhausting? || (s.threads[t].Feeding? && s.threads[t].todo == []))
    case Check(t) => t in s.threads && s.threads[t].Checking?
    case CloseDone(t) => t in s.threads && s.threads[t].Closing?
    case Stop => true
    case BeginClose => true
    case CloseChannel => s.closing && forall t <- s.threads :: !Locked(s.threads[t])
  }

  function After(s: State, a: Action): State
    requires Enabled(s, a)
  {
    match a
    case Call(t, job) =>
      SetThread(Record(s, job, NewEntry(job, t)), t, Calling(job, Registered))
    case Count(t) => SetThread(s, t, WithStage(s.threads[t], Counted)).(inFlight := s.inFlight + 1)
    case Enter(t) => SetThread(s, t, WithStage(s.threads[t], if s.closed then Refusing else Sending))
    case Send(t) => SetThread(Push(s, Offered(s.threads[t])), t, Returned(s.threads[t]))
    case Bounce(t) => SetThread(s, t, WithStage(s.threads[t], Refusing))
    case Undo(t) =>
      SetThread(SetPlace(s, Offered(s.threads[t]), Refused), t, Returned(s.threads[t])).(inFlight := s.inFlight - 1)
    case Take(t) =>
      var job := s.channel[0];
      var entry := EntryOf(s, job);
      var taken := Record(s, job, entry.(place := At(t), runs := entry.runs + 1));
      SetThread(taken, t, Handling(job)).(channel := s.channel[1..])
    case Exit(t) => SetThread(s, t, Exited)
    case Fail(t) =>
      var job := s.threads[t].own.(attempts := s.threads[t].own.attempts + 1);
      SetThread(s, t, if job.attempts < job.maxAttempts then Sleeping(job) else Exhausting(job))
    case Succeed(t, kids) =>
      var job := s.threads[t].own;
      var ledger := AddJobs(s.ledger, kids, t);
      SetThread(s, t, Feeding(job, kids)).(ledger := ledger[job.id := EntryOf(s, job).(children := IdSet(kids))])
    case Wake(t) =>
      var job := s.threads[t].own;
      if s.closed then SetThread(SetPlace(s, job, Dropped), t, Idle) else SetThread(s, t, Requeueing(job))
    case Requeue(t) => SetThread(Push(s, s.threads[t].own), t, Idle)
    case Drop(t) => SetThread(SetPlace(s, s.threads[t].own, Dropped), t, Idle)
    case Feed(t) =>
      var Feeding(job, todo) := s.threads[t];
      if s.stopping then SetThread(SetPlace(s, todo[0], Refused), t, Feeding(job, todo[1..]))
      else SetThread(s, t, Submitting(job, todo, Registered))
    case Release(t) =>
      var outcome := if s.threads[t].Exhausting? then Exhausted else Completed;
      SetThread(SetPlace(s, s.threads[t].own, outcome), t, Checking).(inFlight := s.inFlight - 1)
    case Check(t) => SetThread(s, t, if s.inFlight == 0 then Closing(Accepted(s)) else Idle)
    case CloseDone(t) =>
      SetThread(s, t, Idle).(done := if s.done.None? then Some(s.threads[t].seen) else s.done)
    case Stop => s.(stopping := true)
    case BeginClose => s.(closing := true)
    case CloseChannel => s.(closed := true)
  }

  ghost predicate Initial(s: State) {
    && (forall t <- s.threads :: s.threads[t].Outside? || s.threads[t].Idle?)
    && DistinctIds(s.channel) && s.ledger.Keys == IdSet(s.channel)
    && (forall j <- s.channel :: j.id in s.ledger && s.ledger[j.id] == Entry(j, Queued, 0, true, {}))
    && s.inFlight == |s.channel| && s.done.None? && !s.closing && !s.closed && !s.stopping
  }

  ghost predicate StepAt(states: seq<State>, actions: seq<Action>, i: nat)
    requires |states| == |actions| + 1 && i < |actions|
  {
    Enabled(states[i], actions[i]) && states[i + 1] == After(states[i], actions[i])
  }

  /** Any interleaving of the threads from an initial state. */
  ghost predicate Run(states: seq<State>, actions: seq<Action>) {
    && |states| == |actions| + 1 && Initial(states[0])
    && forall i: nat {:trigger StepAt(states, actions, i)} :: i < |actions| ==> StepAt(states, actions, i)
  }
}
