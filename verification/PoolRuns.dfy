/** What holds over whole runs of the pool. */
module PoolRuns {
  import opened Common
  import opened Pool
  import opened PoolInvariant
  import opened PoolSteps

  /** At every interleaving the counter is the number of queued jobs, held jobs,
      submissions under way and jobs dropped by a requeue after close; in particular it is
      never negative. */
  lemma CounterIsExact(states: seq<State>, actions: seq<Action>, i: nat)
    requires Run(states, actions) && i < |states|
    ensures var s := states[i];
            s.inFlight ==
            |s.channel| + CountIf(s.threads, Holds) + CountIf(s.threads, Underway) + CountIf(s.ledger, IsDropped)
    ensures states[i].inFlight >= 0
  {
    ReachableInv(states, actions, i);
  }

  /** Nothing is sent on a closed channel. */
  lemma NoSendAfterClose(states: seq<State>, actions: seq<Action>, i: nat)
    requires Run(states, actions) && i < |actions| && (actions[i].Send? || actions[i].Requeue?)
    ensures !states[i].closed
  {
    ReachableInv(states, actions, i);
    assert StepAt(states, actions, i);
    var s, t := states[i], actions[i].t;
    assert ThreadOk(s.ledger, s.closing, s.closed, t, s.threads[t]);
  }

  // ------------------------------------------------------------------------------- done

  lemma AddedJobsKeep(ledger: map<JobId, Entry>, jobs: seq<Job>, t: ThreadId)
    requires DistinctIds(jobs) && IdSet(jobs) !! ledger.Keys
    ensures forall id <- ledger :: id in AddJobs(ledger, jobs, t) && AddJobs(ledger, jobs, t)[id] == ledger[id]
  {
    AddedJobs(ledger, jobs, t);
  }

  lemma AcceptedStep(s: State, a: Action)
    requires Enabled(s, a)
    ensures Accepted(s) <= Accepted(After(s, a))
  {
    if a.Succeed? {
      AddedJobsKeep(s.ledger, a.kids, a.t);
    }
  }

  lemma {:induction false} AcceptedGrows(states: seq<State>, actions: seq<Action>, i: nat, k: nat)
    requires Run(states, actions) && i <= k < |states|
    ensures Accepted(states[i]) <= Accepted(states[k])
    decreases k
  {
    if i < k {
      AcceptedGrows(states, actions, i, k - 1);
      assert StepAt(states, actions, k - 1);
      AcceptedStep(states[k - 1], actions[k - 1]);
    }
  }

  /** The counter was read as zero at step k, when these jobs had been accepted. */
  ghost predicate Decided(states: seq<State>, actions: seq<Action>, k: nat, seen: set<JobId>)
    requires Run(states, actions)
  {
    k < |actions| && actions[k].Check? && states[k].inFlight == 0 && seen == Accepted(states[k])
  }

  ghost predicate DecidedBefore(states: seq<State>, actions: seq<Action>, i: nat, seen: set<JobId>)
    requires Run(states, actions)
  {
    exists k: nat :: k < i && Decided(states, actions, k, seen)
  }

  ghost predicate Origins(states: seq<State>, actions: seq<Action>, i: nat)
    requires Run(states, actions) && i < |states|
  {
    && (forall u <- states[i].threads :: states[i].threads[u].Closing? ==>
          DecidedBefore(states, actions, i, states[i].threads[u].seen))
    && (states[i].done.Some? ==> DecidedBefore(states, actions, i, states[i].done.value))
  }

  lemma Later(states: seq<State>, actions: seq<Action>, i: nat, seen: set<JobId>)
    requires Run(states, actions) && DecidedBefore(states, actions, i, seen)
    ensures DecidedBefore(states, actions, i + 1, seen)
  {
  }

  predicate Submits(a: Action) {
    a.Call? || a.Count? || a.Enter? || a.Send? || a.Bounce? || a.Undo? || a.Feed? || a.Succeed?
  }

  lemma SubmitsClose(s: State, a: Action, u: ThreadId)
    requires Enabled(s, a) && Submits(a) && u in After(s, a).threads && After(s, a).threads[u].Closing?
    ensures u in s.threads && s.threads[u] == After(s, a).threads[u]
  {
  }

  /** A thread that is about to close done after the step was so before, or read zero. */
  lemma ClosingFrom(s: State, a: Action, u: ThreadId)
    requires Enabled(s, a) && u in After(s, a).threads && After(s, a).threads[u].Closing?
    ensures || (u in s.threads && s.threads[u] == After(s, a).threads[u])
            || (a == Check(u) && s.inFlight == 0 && After(s, a).threads[u].seen == Accepted(s))
  {
    if Submits(a) {
      SubmitsClose(s, a, u);
    }
  }

  lemma {:induction false} ReachableOrigins(states: seq<State>, actions: seq<Action>, i: nat)
    requires Run(states, actions) && i < |states|
    ensures Origins(states, actions, i)
    decreases i
  {
    if i > 0 {
      var s, a := states[i - 1], actions[i - 1];
      ReachableOrigins(states, actions, i - 1);
      assert StepAt(states, actions, i - 1);
      forall u <- states[i].threads | states[i].threads[u].Closing?
        ensures DecidedBefore(states, actions, i, states[i].threads[u].seen)
      {
        ClosingFrom(s, a, u);
        if u in s.threads && s.threads[u] == states[i].threads[u] {
          Later(states, actions, i - 1, s.threads[u].seen);
        } else {
          assert Decided(states, actions, i - 1, states[i].threads[u].seen);
        }
      }
      if states[i].done.Some? {
        if s.done.Some? {
          Later(states, actions, i - 1, s.done.value);
        } else {
          Later(states, actions, i - 1, s.threads[a.t].seen);
        }
      }
    }
  }

  /** Done is truthful. When it is closed, the counter was read as zero at some earlier
      step k; every job accepted up to then has succeeded or was handled as often as its
      attempts allow, and so have the children it returned, unless they were refused. */
  lemma DoneIsTruthful(states: seq<State>, actions: seq<Action>, i: nat) returns (k: nat)
    requires Run(states, actions) && i < |states| && states[i].done.Some?
    ensures k < i && actions[k].Check? && states[k].inFlight == 0
    ensures forall m: nat :: m <= k ==> Accepted(states[m]) <= Accepted(states[k])
    ensures forall id <- Accepted(states[k]) ::
              FinishedIn(states[i].ledger, Accepted(states[k]), id) && TrulyFinished(states, actions, i, id)
  {
    ReachableOrigins(states, actions, i);
    ReachableInv(states, actions, i);
    var seen := states[i].done.value;
    k :| k < i && Decided(states, actions, k, seen);
    forall m: nat | m <= k ensures Accepted(states[m]) <= Accepted(states[k]) {
      AcceptedGrows(states, actions, m, k);
    }
    forall id <- seen
      ensures FinishedIn(states[i].ledger, seen, id) && TrulyFinished(states, actions, i, id)
    {
      assert Settled(states[i].ledger, seen);
      assert FinishedIn(states[i].ledger, seen, id);
      FinishedTruly(states, actions, i, id);
    }
  }

  /** Whether every accepted job is finished depends on the counter alone: it is so exactly
      when nothing is counted but calls of Submit that have not returned. */
  lemma SettledExactly(s: State)
    requires Inv(s)
    ensures Settled(s.ledger, Accepted(s)) <==> s.inFlight == CountIf(s.threads, Underway)
  {
    if Settled(s.ledger, Accepted(s)) {
      NothingQueued(s);
      NothingHeld(s);
      NothingDropped(s);
    }
    if s.inFlight == CountIf(s.threads, Underway) {
      NothingLeft(s);
    }
  }

  /** A job that is queued, held or dropped was accepted and is not finished. */
  predicate Unfinished(s: State, id: JobId) {
    id in s.ledger && s.ledger[id].accepted && !s.ledger[id].place.Completed? && !s.ledger[id].place.Exhausted?
  }

  lemma NoneUnfinished(s: State, id: JobId)
    requires Settled(s.ledger, Accepted(s))
    ensures !Unfinished(s, id)
  {
    assert id in Accepted(s) ==> FinishedIn(s.ledger, Accepted(s), id);
  }

  lemma NothingQueued(s: State)
    requires ChannelOk(s) && Settled(s.ledger, Accepted(s))
    ensures s.channel == []
  {
    if s.channel != [] {
      assert Unfinished(s, s.channel[0].id) by {
        assert QueuedOk(s.ledger, s.channel[0]);
      }
      NoneUnfinished(s, s.channel[0].id);
    }
  }

  lemma NothingHeld(s: State)
    requires ThreadsOk(s) && Settled(s.ledger, Accepted(s))
    ensures CountIf(s.threads, Holds) == 0
  {
    forall u <- s.threads ensures !Holds(s.threads[u]) {
      var x := s.threads[u];
      assert ThreadOk(s.ledger, s.closing, s.closed, u, x);
      if Holds(x) {
        assert Unfinished(s, x.own.id);
        NoneUnfinished(s, x.own.id);
      }
    }
    assert Keys(s.threads, Holds) == {};
  }

  lemma NothingDropped(s: State)
    requires LedgerOk(s) && Settled(s.ledger, Accepted(s))
    ensures CountIf(s.ledger, IsDropped) == 0
  {
    forall id <- s.ledger ensures !IsDropped(s.ledger[id]) {
      assert EntryOk(s, id);
      NoneUnfinished(s, id);
    }
    assert Keys(s.ledger, IsDropped) == {};
  }

  /** At the step that closes done, every job accepted so far is finished exactly when the
      counter equals the number of calls of Submit under way. */
  lemma DoneExactly(states: seq<State>, actions: seq<Action>, i: nat)
    requires Run(states, actions) && i < |actions| && actions[i].CloseDone? && states[i].done.None?
    ensures states[i + 1].done.Some?
    ensures Settled(states[i + 1].ledger, Accepted(states[i + 1])) <==>
            states[i].inFlight == CountIf(states[i].threads, Underway)
  {
    assert StepAt(states, actions, i);
    ReachableInv(states, actions, i);
    SettledExactly(states[i]);
    assert states[i + 1].ledger == states[i].ledger;
  }

  /** Every thread has nothing in hand, and no call of Submit has begun without returning. */
  predicate Rests(t: Thread) {
    t.Outside? || t.Idle? || t.Checking? || t.Closing? || t.Exited?
  }

  ghost predicate Still(s: State) {
    s.inFlight == 0 && s.channel == [] && forall t <- s.threads :: Rests(s.threads[t])
  }

  /** When the counter is zero and no caller is inside Submit, nothing moves. */
  lemma ZeroIsStill(s: State)
    requires Inv(s) && s.inFlight == 0 && forall t <- s.threads :: !s.threads[t].Calling?
    ensures Still(s)
  {
    CountZero(s.threads, Holds);
  }

  lemma StillStep(s: State, a: Action)
    requires Still(s) && Enabled(s, a) && !a.Call?
    ensures Still(After(s, a))
  {
  }

  /** No caller is inside Submit at step k, and none calls it from there to step j. */
  ghost predicate NoCalls(states: seq<State>, actions: seq<Action>, k: nat, j: nat)
    requires |states| == |actions| + 1 && k <= j <= |actions|
  {
    && (forall t <- states[k].threads :: !states[k].threads[t].Calling?)
    && (forall m: nat :: k <= m < j ==> !actions[m].Call?)
  }

  lemma {:induction false} StaysStill(states: seq<State>, actions: seq<Action>, k: nat, j: nat)
    requires Run(states, actions) && k <= j <= |actions|
    requires states[k].inFlight == 0 && NoCalls(states, actions, k, j)
    ensures Still(states[j])
    decreases j
  {
    if k == j {
      ReachableInv(states, actions, k);
      ZeroIsStill(states[k]);
    } else {
      StaysStill(states, actions, k, j - 1);
      assert StepAt(states, actions, j - 1);
      StillStep(states[j - 1], actions[j - 1]);
    }
  }

  /** What a caller can see to: if all calls of Submit from outside have returned by the
      reading of zero, then until the next call every accepted job is finished, when done
      is closed and after it. */
  lemma DoneAfterTheLastCall(states: seq<State>, actions: seq<Action>, i: nat) returns (k: nat)
    requires Run(states, actions) && i < |states| && states[i].done.Some?
    ensures k < i && actions[k].Check? && states[k].inFlight == 0
    ensures forall j: nat | k <= j <= |actions| && NoCalls(states, actions, k, j) ::
              Settled(states[j].ledger, Accepted(states[j]))
  {
    k := DoneIsTruthful(states, actions, i);
    forall j: nat | k <= j <= |actions| && NoCalls(states, actions, k, j)
      ensures Settled(states[j].ledger, Accepted(states[j]))
    {
      StaysStill(states, actions, k, j);
      ReachableInv(states, actions, j);
      ZeroIsSettled(states[j]);
    }
  }

  // ------------------------------------------------- a job accepted before done is closed

  const FIRST := Job(0, 0, 3)
  const LATE := Job(1, 0, 3)

  /** One worker, one caller, one queued job. */
  const START := State(map[0 := Idle, 1 := Outside], [FIRST], false, false, false, 1, None,
                       map[0 := Entry(FIRST, Queued, 0, true, {})])

  /** Some run leads to the state. */
  ghost predicate Reached(s: State) {
    exists states, actions :: Run(states, actions) && states[|actions|] == s
  }

  lemma StartReached()
    ensures Reached(START)
  {
    assert Run([START], []);
  }

  lemma RunExtends(states: seq<State>, actions: seq<Action>, a: Action)
    requires Run(states, actions) && Enabled(states[|actions|], a)
    ensures Run(states + [After(states[|actions|], a)], actions + [a])
  {
    var more, steps := states + [After(states[|actions|], a)], actions + [a];
    forall i: nat | i < |steps| ensures StepAt(more, steps, i) {
      if i < |actions| {
        assert StepAt(states, actions, i);
      }
    }
  }

  ghost predicate Leads(s: State, a: Action, t: State) {
    Enabled(s, a) && After(s, a) == t
  }

  lemma ReachedNext(s: State, a: Action, t: State)
    requires Reached(s) && Leads(s, a, t)
    ensures Reached(t)
  {
    var states, actions :| Run(states, actions) && states[|actions|] == s;
    RunExtends(states, actions, a);
    assert (states + [t])[|actions + [a]|] == t;
  }

  /** The same threads and job, with the worker and the job as given. */
  function Scene(worker: Thread, place: Place, inFlight: int): State {
    State(map[0 := worker, 1 := Outside], [], false, false, false, inFlight, None,
          map[0 := Entry(FIRST, place, 1, true, {})])
  }

  lemma WorkerTakes()
    ensures Leads(START, Take(0), Scene(Handling(FIRST), At(0), 1))
  {
  }

  lemma WorkerHandles()
    ensures Leads(Scene(Handling(FIRST), At(0), 1), Succeed(0, []), Scene(Feeding(FIRST, []), At(0), 1))
  {
    assert IdSet([]) == {};
  }

  lemma WorkerReleases()
    ensures Leads(Scene(Feeding(FIRST, []), At(0), 1), Release(0), Scene(Checking, Completed, 0))
  {
  }

  lemma WorkerReadsZero()
    ensures Leads(Scene(Checking, Completed, 0), Check(0), Scene(Closing({0}), Completed, 0))
  {
    assert Accepted(Scene(Checking, Completed, 0)) == {0};
  }

  /** Meanwhile a caller submits another job. */
  function SceneWith(caller: Thread, inFlight: int): State {
    Scene(Closing({0}), Completed, inFlight).(
      threads := map[0 := Closing({0}), 1 := caller],
      ledger := map[0 := Entry(FIRST, Completed, 1, true, {}), 1 := NewEntry(LATE, 1)])
  }

  lemma CallerCalls()
    ensures Leads(Scene(Closing({0}), Completed, 0), Call(1, LATE), SceneWith(Calling(LATE, Registered), 0))
  {
  }

  lemma CallerCounts()
    ensures Leads(SceneWith(Calling(LATE, Registered), 0), Count(1), SceneWith(Calling(LATE, Counted), 1))
    ensures Leads(SceneWith(Calling(LATE, Counted), 1), Enter(1), SceneWith(Calling(LATE, Sending), 1))
  {
  }

  /** The late job is queued when the worker closes done. */
  function SceneLast(worker: Thread, done: Option<set<JobId>>): State {
    State(map[0 := worker, 1 := Outside], [LATE], false, false, false, 1, done,
          map[0 := Entry(FIRST, Completed, 1, true, {}), 1 := Entry(LATE, Queued, 0, true, {})])
  }

  lemma CallerSends()
    ensures Leads(SceneWith(Calling(LATE, Sending), 1), Send(1), SceneLast(Closing({0}), None))
  {
  }

  lemma WorkerCloses()
    ensures Leads(SceneLast(Closing({0}), None), CloseDone(0), SceneLast(Idle, Some({0})))
  {
  }

  /** A run in which a job is accepted between the reading of zero and the closing of
      done: done is closed while that job is still queued. */
  lemma DoneCanPrecedeAJob() returns (s: State)
    ensures Reached(s) && s.done.Some? && LATE in s.channel && LATE.id in Accepted(s)
    ensures !Settled(s.ledger, Accepted(s))
  {
    StartReached();
    WorkerTakes();
    ReachedNext(START, Take(0), Scene(Handling(FIRST), At(0), 1));
    WorkerHandles();
    ReachedNext(Scene(Handling(FIRST), At(0), 1), Succeed(0, []), Scene(Feeding(FIRST, []), At(0), 1));
    WorkerReleases();
    ReachedNext(Scene(Feeding(FIRST, []), At(0), 1), Release(0), Scene(Checking, Completed, 0));
    WorkerReadsZero();
    ReachedNext(Scene(Checking, Completed, 0), Check(0), Scene(Closing({0}), Completed, 0));
    CallerCalls();
    ReachedNext(Scene(Closing({0}), Completed, 0), Call(1, LATE), SceneWith(Calling(LATE, Registered), 0));
    CallerCounts();
    ReachedNext(SceneWith(Calling(LATE, Registered), 0), Count(1), SceneWith(Calling(LATE, Counted), 1));
    ReachedNext(SceneWith(Calling(LATE, Counted), 1), Enter(1), SceneWith(Calling(LATE, Sending), 1));
    CallerSends();
    ReachedNext(SceneWith(Calling(LATE, Sending), 1), Send(1), SceneLast(Closing({0}), None));
    WorkerCloses();
    s := SceneLast(Idle, Some({0}));
    ReachedNext(SceneLast(Closing({0}), None), CloseDone(0), s);
    LateIsUnfinished(s);
  }

  lemma LateIsUnfinished(s: State)
    requires s == SceneLast(Idle, Some({0}))
    ensures LATE.id in Accepted(s) && !Settled(s.ledger, Accepted(s))
  {
    assert !FinishedIn(s.ledger, Accepted(s), 1);
  }

  /** Jobs are refused or dropped only once shutdown or close has begun. */
  lemma NothingLostWhileOpen(states: seq<State>, actions: seq<Action>, i: nat, id: JobId)
    requires Run(states, actions) && i < |states| && id in states[i].ledger && !states[i].stopping && !states[i].closing
    ensures !states[i].ledger[id].place.Refused? && !states[i].ledger[id].place.Dropped?
  {
    ReachableInv(states, actions, i);
    assert EntryOk(states[i], id);
  }

  // --------------------------------------------------------------------------- handling

  ghost predicate Handles(s: State, a: Action, id: JobId) {
    a.Take? && s.channel != [] && s.channel[0].id == id
  }

  /** The number of times the job was handed to a handler in the first i steps. */
  ghost function Handlings(states: seq<State>, actions: seq<Action>, id: JobId, i: nat): nat
    requires Run(states, actions) && i <= |actions|
  {
    if i == 0 then 0
    else
      Handlings(states, actions, id, i - 1) +
      One(Handles(states[i - 1], actions[i - 1], id))
  }

  ghost function RunsOf(s: State, id: JobId): nat {
    if id in s.ledger then s.ledger[id].runs else 0
  }

  lemma SubmitsRuns(s: State, a: Action, id: JobId)
    requires Enabled(s, a) && Submits(a)
    ensures RunsOf(After(s, a), id) == RunsOf(s, id)
  {
    if a.Succeed? {
      AddedJobs(s.ledger, a.kids, a.t);
      if id in IdSet(a.kids) {
        var j :| j in a.kids && j.id == id;
      }
    }
  }

  lemma RunsStep(s: State, a: Action, id: JobId)
    requires Enabled(s, a)
    ensures RunsOf(After(s, a), id) == RunsOf(s, id) + One(Handles(s, a, id))
  {
    if Submits(a) {
      SubmitsRuns(s, a, id);
    }
  }

  lemma {:induction false} RunsAreHandlings(states: seq<State>, actions: seq<Action>, id: JobId, i: nat)
    requires Run(states, actions) && i <= |actions|
    ensures RunsOf(states[i], id) == Handlings(states, actions, id, i)
    decreases i
  {
    if i > 0 {
      RunsAreHandlings(states, actions, id, i - 1);
      assert StepAt(states, actions, i - 1);
      RunsStep(states[i - 1], actions[i - 1], id);
    } else {
      assert forall j <- states[0].channel :: states[0].ledger[j.id].runs == 0;
    }
  }

  /** In any run a job is handled at most as often as the attempts it had left when it was
      submitted, and at most once if it had none. */
  lemma HandledAtMost(states: seq<State>, actions: seq<Action>, i: nat, id: JobId)
    requires Run(states, actions) && i <= |actions| && id in states[i].ledger
    ensures Handlings(states, actions, id, i) <= Limit(states[i].ledger[id].start)
  {
    RunsAreHandlings(states, actions, id, i);
    ReachableInv(states, actions, i);
    assert EntryOk(states[i], id);
  }

  /** A handler call on the job returns without an error. */
  ghost predicate Succeeds(s: State, a: Action, id: JobId) {
    a.Succeed? && a.t in s.threads && s.threads[a.t].Handling? && s.threads[a.t].own.id == id
  }

  ghost function Successes(states: seq<State>, actions: seq<Action>, id: JobId, i: nat): nat
    requires Run(states, actions) && i <= |actions|
  {
    if i == 0 then 0
    else
      Successes(states, actions, id, i - 1) +
      One(Succeeds(states[i - 1], actions[i - 1], id))
  }

  /** Completed, or still in the hands of the worker whose handler has returned. */
  ghost predicate Succeeded(s: State, id: JobId) {
    && id in s.ledger
    && (s.ledger[id].place.Completed? ||
        (s.ledger[id].place.At? && HasSucceeded(s.threads, s.ledger[id].place.thread, id)))
  }

  ghost predicate HasSucceeded(threads: map<ThreadId, Thread>, t: ThreadId, id: JobId) {
    t in threads && (threads[t].Feeding? || threads[t].Submitting?) && threads[t].own.id == id
  }

  ghost predicate SuccessKept(s: State, a: Action, id: JobId)
    requires Enabled(s, a)
  {
    One(Succeeded(After(s, a), id)) == One(Succeeded(s, id)) + One(Succeeds(s, a, id))
  }

  /** The thread goes on with the same job and has succeeded with it as before. */
  ghost predicate SameSuccess(s: State, s': State, t: ThreadId) {
    && t in s.threads && t in s'.threads && s'.threads == s.threads[t := s'.threads[t]]
    && forall id :: HasSucceeded(s.threads, t, id) == HasSucceeded(s'.threads, t, id)
  }

  lemma SameLedgerSuccess(s: State, s': State, t: ThreadId, id: JobId)
    requires SameSuccess(s, s', t) && s'.ledger == s.ledger
    ensures Succeeded(s', id) == Succeeded(s, id)
  {
  }

  lemma OtherEntrySuccess(s: State, s': State, t: ThreadId, other: JobId, e: Entry, id: JobId)
    requires SameSuccess(s, s', t) && other in s.ledger && s'.ledger == s.ledger[other := e]
    requires s.ledger[other].place == At(t) && !HasSucceeded(s.threads, t, other) && !e.place.Completed? && !e.place.At?
    ensures Succeeded(s', id) == Succeeded(s, id)
  {
  }

  lemma SuccessStage(s: State, a: Action, id: JobId)
    requires Enabled(s, a) && (a.Count? || a.Enter? || a.Bounce?)
    ensures SuccessKept(s, a, id)
  {
    SameLedgerSuccess(s, After(s, a), a.t, id);
  }

  lemma SuccessOffer(s: State, a: Action, id: JobId)
    requires Inv(s) && Enabled(s, a) && (a.Send? || a.Undo?)
    ensures SuccessKept(s, a, id)
  {
    var x, s' := s.threads[a.t], After(s, a);
    assert ThreadOk(s.ledger, s.closing, s.closed, a.t, x);
    var job := Offered(x);
    assert NewAt(s.ledger, a.t, job);
    OtherEntrySuccess(s, s', a.t, job.id, s'.ledger[job.id], id);
  }

  lemma SuccessFeed(s: State, a: Action, id: JobId)
    requires Inv(s) && Enabled(s, a) && a.Feed?
    ensures SuccessKept(s, a, id)
  {
    var x, s' := s.threads[a.t], After(s, a);
    assert ThreadOk(s.ledger, s.closing, s.closed, a.t, x);
    assert NewAt(s.ledger, a.t, x.todo[0]);
    if s.stopping {
      OtherEntrySuccess(s, s', a.t, x.todo[0].id, s'.ledger[x.todo[0].id], id);
    } else {
      SameLedgerSuccess(s, s', a.t, id);
    }
  }

  lemma SuccessCall(s: State, a: Action, id: JobId)
    requires Enabled(s, a) && a.Call?
    ensures SuccessKept(s, a, id)
  {
  }

  /** The handler returns: its own job has succeeded then, and the children have not. */
  lemma SuccessSucceed(s: State, t: ThreadId, kids: seq<Job>, id: JobId)
    requires Inv(s) && Enabled(s, Succeed(t, kids))
    ensures SuccessKept(s, Succeed(t, kids), id)
  {
    assert ThreadOk(s.ledger, s.closing, s.closed, t, s.threads[t]);
    AddedJobs(s.ledger, kids, t);
    if id in IdSet(kids) {
      var j :| j in kids && j.id == id;
      assert AddJobs(s.ledger, kids, t)[id] == NewEntry(j, t);
    }
  }

  lemma SuccessRetry(s: State, a: Action, id: JobId)
    requires Inv(s) && Enabled(s, a) && (a.Fail? || a.Wake? || a.Requeue? || a.Drop?)
    ensures SuccessKept(s, a, id)
  {
    var x, s' := s.threads[a.t], After(s, a);
    assert ThreadOk(s.ledger, s.closing, s.closed, a.t, x);
    if s'.ledger == s.ledger {
      SameLedgerSuccess(s, s', a.t, id);
    } else {
      OtherEntrySuccess(s, s', a.t, x.own.id, s'.ledger[x.own.id], id);
    }
  }

  lemma SuccessRelease(s: State, t: ThreadId, id: JobId)
    requires Inv(s) && Enabled(s, Release(t))
    ensures SuccessKept(s, Release(t), id)
  {
    assert ThreadOk(s.ledger, s.closing, s.closed, t, s.threads[t]);
  }

  lemma SuccessTake(s: State, t: ThreadId, id: JobId)
    requires Inv(s) && Enabled(s, Take(t))
    ensures SuccessKept(s, Take(t), id)
  {
    assert QueuedOk(s.ledger, s.channel[0]);
  }

  lemma SuccessStep(s: State, a: Action, id: JobId)
    requires Inv(s) && Enabled(s, a)
    ensures SuccessKept(s, a, id)
  {
    if a.Call? {
      SuccessCall(s, a, id);
    } else if a.Succeed? {
      SuccessSucceed(s, a.t, a.kids, id);
    } else if a.Count? || a.Enter? || a.Bounce? {
      SuccessStage(s, a, id);
    } else if a.Send? || a.Undo? {
      SuccessOffer(s, a, id);
    } else if a.Feed? {
      SuccessFeed(s, a, id);
    } else if a.Take? {
      SuccessTake(s, a.t, id);
    } else if a.Fail? || a.Wake? || a.Requeue? || a.Drop? {
      SuccessRetry(s, a, id);
    } else if a.Release? {
      SuccessRelease(s, a.t, id);
    } else {
      SuccessIdle(s, a, id);
    }
  }

  lemma SuccessIdle(s: State, a: Action, id: JobId)
    requires Enabled(s, a)
    requires a.Exit? || a.Check? || a.CloseDone? || a.Stop? || a.BeginClose? || a.CloseChannel?
    ensures SuccessKept(s, a, id)
  {
  }

  lemma {:induction false} SuccessesCounted(states: seq<State>, actions: seq<Action>, id: JobId, i: nat)
    requires Run(states, actions) && i <= |actions|
    ensures Successes(states, actions, id, i) == One(Succeeded(states[i], id))
    decreases i
  {
    if i > 0 {
      SuccessesCounted(states, actions, id, i - 1);
      ReachableInv(states, actions, i - 1);
      assert StepAt(states, actions, i - 1);
      SuccessStep(states[i - 1], actions[i - 1], id);
    } else if id in states[0].ledger {
      var j :| j in states[0].channel && j.id == id;
      assert states[0].ledger[j.id].place == Queued;
    }
  }

  /** What the two ways to finish mean, counted over the steps of the run: a completed job
      succeeded once; an exhausted one never, and it was handled as often as the attempts
      it had left when it was submitted allow, or once if there were none. */
  ghost predicate TrulyFinished(states: seq<State>, actions: seq<Action>, i: nat, id: JobId)
    requires Run(states, actions) && i <= |actions|
  {
    id in states[i].ledger &&
    var left := states[i].ledger[id].start.maxAttempts - states[i].ledger[id].start.attempts;
    || (states[i].ledger[id].place.Completed? && Successes(states, actions, id, i) == 1)
    || (states[i].ledger[id].place.Exhausted? && Successes(states, actions, id, i) == 0
        && Handlings(states, actions, id, i) == if left > 1 then left else 1)
  }

  /** No job counts as exhausted while it had attempts left, nor as completed without a
      success. */
  lemma FinishedTruly(states: seq<State>, actions: seq<Action>, i: nat, id: JobId)
    requires Run(states, actions) && i <= |actions| && id in states[i].ledger
    requires states[i].ledger[id].place.Completed? || states[i].ledger[id].place.Exhausted?
    ensures TrulyFinished(states, actions, i, id)
  {
    RunsAreHandlings(states, actions, id, i);
    SuccessesCounted(states, actions, id, i);
    ReachableInv(states, actions, i);
    assert EntryOk(states[i], id);
  }
}
