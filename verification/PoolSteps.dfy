/** Every step of the pool keeps the invariant. */
module PoolSteps {
  import opened Pool
  import opened PoolInvariant

  // ------------------------------------------------------------- one step of one thread

  ghost predicate KeptAt(s: State, s': State, t: ThreadId, id: JobId)
    requires t in s.threads && t in s'.threads
  {
    && (id in s.ledger <==> id in s'.ledger) && (id in s.ledger ==> s'.ledger[id] == s.ledger[id])
    && (id in IdSet(s.channel) ==> id in IdSet(s'.channel))
    && (id in Carried(s.threads[t]) ==> id in Carried(s'.threads[t]))
  }

  /** The other entries are unchanged, and their jobs are still where they were. */
  ghost predicate Untouched(s: State, s': State, t: ThreadId, touched: set<JobId>)
    requires t in s.threads && t in s'.threads
  {
    forall id {:trigger KeptAt(s, s', t, id)} :: id in touched || KeptAt(s, s', t, id)
  }

  ghost predicate SameFlags(s: State, s': State) {
    s'.closing == s.closing && s'.closed == s.closed && s'.stopping == s.stopping && s'.done == s.done
  }

  /** How the step moves the counter. */
  ghost predicate Balanced(s: State, s': State, t: ThreadId)
    requires t in s.threads && t in s'.threads
  {
    s'.inFlight - s.inFlight ==
      |s'.channel| - |s.channel| +
      One(Holds(s'.threads[t])) - One(Holds(s.threads[t])) +
      One(Underway(s'.threads[t])) - One(Underway(s.threads[t])) +
      CountIf(s'.ledger, IsDropped) - CountIf(s.ledger, IsDropped)
  }

  lemma EntryKept(s: State, s': State, t: ThreadId, touched: set<JobId>, id: JobId)
    requires t in s.threads && t in s'.threads && s'.threads == s.threads[t := s'.threads[t]] && SameFlags(s, s')
    requires Grows(s.ledger, s'.ledger) && Untouched(s, s', t, touched)
    requires id in s'.ledger && id !in touched && LedgerOk(s)
    ensures EntryOk(s', id)
  {
    assert KeptAt(s, s', t, id) && EntryOk(s, id);
    var e := s.ledger[id];
    if e.place.Completed? {
      forall c <- e.children ensures Settles(s'.ledger, c) {
        assert Settles(s.ledger, c);
        SettlesGrows(s.ledger, s'.ledger, c);
      }
    }
  }

  lemma CountKept(s: State, s': State, t: ThreadId)
    requires CountOk(s) && t in s.threads && t in s'.threads && s'.threads == s.threads[t := s'.threads[t]]
    requires Balanced(s, s', t)
    ensures CountOk(s')
  {
    CountUpdate(s.threads, t, s'.threads[t], Holds);
    CountUpdate(s.threads, t, s'.threads[t], Underway);
  }

  /** A step of one thread that leaves all that it touches in order. */
  ghost predicate Moves(s: State, s': State, t: ThreadId, touched: set<JobId>) {
    && t in s.threads && t in s'.threads && s'.threads == s.threads[t := s'.threads[t]] && SameFlags(s, s')
    && Grows(s.ledger, s'.ledger) && Apart(s.ledger, s'.ledger, t) && Untouched(s, s', t, touched)
    && (forall id <- touched :: id in s'.ledger && EntryOk(s', id))
    && ThreadOk(s'.ledger, s'.closing, s'.closed, t, s'.threads[t]) && ChannelOk(s') && Balanced(s, s', t)
  }

  lemma ThreadStep(s: State, s': State, t: ThreadId, touched: set<JobId>)
    requires Inv(s) && Moves(s, s', t, touched)
    ensures Inv(s')
  {
    CountKept(s, s', t);
    OthersKept(s, s', t, s'.threads[t]);
    DoneKept(s, s');
    forall id <- s'.ledger ensures EntryOk(s', id) {
      if id !in touched {
        EntryKept(s, s', t, touched, id);
      }
    }
  }

  /** Changing the entry of one job that is queued or carried by the thread. */
  lemma OneEntry(ledger: map<JobId, Entry>, id: JobId, e: Entry, t: ThreadId)
    requires id in ledger && (ledger[id].place == Queued || ledger[id].place == At(t))
    requires (ledger[id].accepted ==> e.accepted)
    ensures Grows(ledger, ledger[id := e]) && Apart(ledger, ledger[id := e], t)
    ensures CountIf(ledger[id := e], IsDropped) == CountIf(ledger, IsDropped) + One(IsDropped(e))
  {
    CountUpdate(ledger, id, e, IsDropped);
  }

  /** A step that changes one entry. */
  ghost predicate MovesOne(s: State, s': State, t: ThreadId, id: JobId, e: Entry) {
    && t in s.threads && t in s'.threads && s'.threads == s.threads[t := s'.threads[t]] && SameFlags(s, s')
    && id in s.ledger && s'.ledger == s.ledger[id := e]
    && (s.ledger[id].place == Queued || s.ledger[id].place == At(t)) && (s.ledger[id].accepted ==> e.accepted)
    && IdSet(s.channel) <= IdSet(s'.channel) + {id} && Carried(s.threads[t]) <= Carried(s'.threads[t]) + {id}
    && EntryOk(s', id) && ThreadOk(s'.ledger, s'.closing, s'.closed, t, s'.threads[t]) && ChannelOk(s')
    && s'.inFlight == s.inFlight + |s'.channel| - |s.channel| + One(IsDropped(e)) +
       One(Holds(s'.threads[t])) - One(Holds(s.threads[t])) + One(Underway(s'.threads[t])) - One(Underway(s.threads[t]))
  }

  lemma EntryStep(s: State, s': State, t: ThreadId, id: JobId, e: Entry)
    requires Inv(s) && MovesOne(s, s', t, id, e)
    ensures Inv(s')
  {
    OneMoves(s, s', t, id, e);
    ThreadStep(s, s', t, {id});
  }

  lemma OneMoves(s: State, s': State, t: ThreadId, id: JobId, e: Entry)
    requires MovesOne(s, s', t, id, e)
    ensures Moves(s, s', t, {id})
  {
    OneEntry(s.ledger, id, e, t);
  }

  /** A step that changes no entry and no queued job. */
  lemma QuietStep(s: State, s': State, t: ThreadId)
    requires Inv(s) && t in s.threads && t in s'.threads && s'.threads == s.threads[t := s'.threads[t]]
    requires SameFlags(s, s')
    requires s'.ledger == s.ledger && s'.channel == s.channel && Carried(s.threads[t]) <= Carried(s'.threads[t])
    requires ThreadOk(s.ledger, s.closing, s.closed, t, s'.threads[t])
    requires s'.inFlight == s.inFlight +
             One(Holds(s'.threads[t])) - One(Holds(s.threads[t])) +
             One(Underway(s'.threads[t])) - One(Underway(s.threads[t]))
    ensures Inv(s')
  {
    ThreadStep(s, s', t, {});
  }

  /** A step from and to where the thread has no job. */
  lemma BareStep(s: State, t: ThreadId, x: Thread)
    requires Inv(s) && t in s.threads && (s.threads[t].Idle? || s.threads[t].Checking? || s.threads[t].Closing?)
    requires x.Idle? || x.Exited?
    ensures Inv(SetThread(s, t, x))
  {
    QuietStep(s, SetThread(s, t, x), t);
  }

  lemma NotQueued(s: State, job: Job)
    requires ChannelOk(s) && job.id in s.ledger && s.ledger[job.id].place != Queued
    ensures job.id !in IdSet(s.channel) && forall j <- s.channel :: j.id != job.id
  {
    forall j <- s.channel ensures j.id != job.id {
      assert QueuedOk(s.ledger, j);
    }
  }

  /** The other queued jobs are not affected by an entry that is not queued. */
  lemma ChannelKept(s: State, id: JobId, e: Entry)
    requires ChannelOk(s) && id !in IdSet(s.channel)
    ensures ChannelOk(s.(ledger := s.ledger[id := e]))
  {
    forall j <- s.channel ensures QueuedOk(s.ledger[id := e], j) {
      assert QueuedOk(s.ledger, j) && j.id in IdSet(s.channel);
    }
  }

  lemma PushedChannel(s: State, job: Job)
    requires ChannelOk(s) && job.id in s.ledger && s.ledger[job.id].place != Queued
    requires var e := s.ledger[job.id]; e.children == {} && Accounted(e, job, 0) && Retryable(e, job)
    ensures ChannelOk(Push(s, job)) && IdSet(Push(s, job).channel) == IdSet(s.channel) + {job.id}
  {
    NotQueued(s, job);
    var s' := Push(s, job);
    assert IdSet(s'.channel) == IdSet(s.channel) + {job.id};
    forall j <- s'.channel ensures QueuedOk(s'.ledger, j) {
      assert j == job || (j in s.channel && QueuedOk(s.ledger, j));
    }
  }

  /** The own job of a thread is none of the jobs it has yet to submit. */
  lemma OwnIsNotTodo(s: State, t: ThreadId)
    requires ThreadsOk(s) && t in s.threads && (s.threads[t].Feeding? || s.threads[t].Submitting?)
    ensures forall j <- s.threads[t].todo :: j.id != s.threads[t].own.id
  {
    assert ThreadOk(s.ledger, s.closing, s.closed, t, s.threads[t]);
    forall j <- s.threads[t].todo ensures j.id != s.threads[t].own.id {
      assert NewAt(s.ledger, t, j);
    }
  }

  lemma RestDistinct(todo: seq<Job>)
    requires DistinctIds(todo) && todo != []
    ensures DistinctIds(todo[1..]) && IdSet(todo) == IdSet(todo[1..]) + {todo[0].id} && todo[0].id !in IdSet(todo[1..])
  {
    assert todo == [todo[0]] + todo[1..];
    forall j <- todo[1..] ensures j.id != todo[0].id {
      var i :| 0 <= i < |todo| - 1 && todo[1..][i] == j;
      assert todo[i + 1] == j;
    }
  }

  // ------------------------------------------------------------------------ submitting

  lemma FreshEntry(ledger: map<JobId, Entry>, job: Job, t: ThreadId)
    requires job.id !in ledger
    ensures var b := ledger[job.id := NewEntry(job, t)];
            Grows(ledger, b) && Apart(ledger, b, t) && CountIf(b, IsDropped) == CountIf(ledger, IsDropped)
  {
    CountUpdate(ledger, job.id, NewEntry(job, t), IsDropped);
  }

  lemma CallKeeps(s: State, t: ThreadId, job: Job)
    requires Inv(s) && Enabled(s, Call(t, job))
    ensures Inv(After(s, Call(t, job)))
  {
    CallMoves(s, t, job);
    ThreadStep(s, After(s, Call(t, job)), t, {job.id});
  }

  lemma CallChannel(s: State, t: ThreadId, job: Job)
    requires ChannelOk(s) && job.id !in s.ledger
    ensures ChannelOk(Record(s, job, NewEntry(job, t)))
  {
    assert job.id !in IdSet(s.channel) by {
      forall j <- s.channel ensures j.id != job.id {
        assert QueuedOk(s.ledger, j);
      }
    }
    ChannelKept(s, job.id, NewEntry(job, t));
  }

  /** A new job, carried by the thread that offers it. */
  lemma CallEntry(s: State, s': State, t: ThreadId, job: Job)
    requires t in s.threads && s.threads[t].Outside? && job.id !in s.ledger
    requires s' == SetThread(Record(s, job, NewEntry(job, t)), t, Calling(job, Registered))
    ensures Untouched(s, s', t, {job.id}) && EntryOk(s', job.id)
    ensures ThreadOk(s'.ledger, s'.closing, s'.closed, t, s'.threads[t])
  {
  }

  lemma CallMoves(s: State, t: ThreadId, job: Job)
    requires ChannelOk(s) && Enabled(s, Call(t, job))
    ensures Moves(s, After(s, Call(t, job)), t, {job.id})
  {
    var s' := After(s, Call(t, job));
    FreshEntry(s.ledger, job, t);
    CallChannel(s, t, job);
    assert ChannelOk(s');
    CallEntry(s, s', t, job);
  }

  lemma StageKeeps(s: State, t: ThreadId, stage: Stage, n: int)
    requires Inv(s) && t in s.threads
    requires (s.threads[t].Calling? || (s.threads[t].Submitting? && s.threads[t].todo != []))
    requires n == One(stage != Registered) - One(s.threads[t].stage != Registered)
    requires (stage == Refusing ==> s.closing) && (stage == Sending ==> !s.closed)
    ensures Inv(SetThread(s, t, WithStage(s.threads[t], stage)).(inFlight := s.inFlight + n))
  {
    assert ThreadOk(s.ledger, s.closing, s.closed, t, s.threads[t]);
    var s' := SetThread(s, t, WithStage(s.threads[t], stage)).(inFlight := s.inFlight + n);
    QuietStep(s, s', t);
  }

  /** The job a call offers to the queue is a new one that the thread carries. */
  lemma OfferedJob(s: State, t: ThreadId)
    requires ThreadsOk(s) && t in s.threads
    requires (s.threads[t].Calling? || (s.threads[t].Submitting? && s.threads[t].todo != []))
    ensures var job := Offered(s.threads[t]); job.id in s.ledger && s.ledger[job.id] == NewEntry(job, t)
  {
    assert ThreadOk(s.ledger, s.closing, s.closed, t, s.threads[t]);
    assert NewAt(s.ledger, t, Offered(s.threads[t]));
  }

  /** Once a child has been accepted or refused, the worker goes on with the rest. */
  lemma RestOk(s: State, t: ThreadId, e: Entry)
    requires ThreadsOk(s) && t in s.threads && (s.threads[t].Feeding? || s.threads[t].Submitting?)
    requires s.threads[t].todo != []
    requires e.accepted || e.place.Refused?
    ensures var x := s.threads[t]; var ledger := s.ledger[x.todo[0].id := e];
            ThreadOk(ledger, s.closing, s.closed, t, Feeding(x.own, x.todo[1..]))
    ensures var x := s.threads[t]; Carried(x) == Carried(Feeding(x.own, x.todo[1..])) + {x.todo[0].id}
  {
    var x := s.threads[t];
    assert ThreadOk(s.ledger, s.closing, s.closed, t, x);
    OwnIsNotTodo(s, t);
    assert x.todo[0] in x.todo;
    RestDistinct(x.todo);
    var ledger := s.ledger[x.todo[0].id := e];
    forall j <- x.todo[1..] ensures NewAt(ledger, t, j) {
      assert j in x.todo && j.id in IdSet(x.todo[1..]) && NewAt(s.ledger, t, j);
    }
    forall c <- ledger[x.own.id].children ensures c in IdSet(x.todo[1..]) || Settles(ledger, c) {
      assert c in IdSet(x.todo) || Settles(s.ledger, c);
    }
  }

  lemma ReturnedOk(s: State, t: ThreadId, e: Entry)
    requires ThreadsOk(s) && t in s.threads
    requires (s.threads[t].Calling? || (s.threads[t].Submitting? && s.threads[t].todo != []))
    requires e.accepted || e.place.Refused?
    ensures var x := s.threads[t]; var ledger := s.ledger[Offered(x).id := e];
            ThreadOk(ledger, s.closing, s.closed, t, Returned(x))
    ensures var x := s.threads[t]; Carried(x) == Carried(Returned(x)) + {Offered(x).id}
  {
    if s.threads[t].Submitting? {
      RestOk(s, t, e);
    }
  }

  lemma SendMoves(s: State, t: ThreadId) returns (id: JobId, e: Entry)
    requires Parts(s) && Enabled(s, Send(t))
    ensures MovesOne(s, After(s, Send(t)), t, id, e)
  {
    var s' := After(s, Send(t));
    var job := Offered(s.threads[t]);
    OfferedJob(s, t);
    e := s.ledger[job.id].(place := Queued, accepted := true);
    ReturnedOk(s, t, e);
    PushedChannel(s, job);
    assert ChannelOk(s');
    id := job.id;
  }

  lemma SendKeeps(s: State, t: ThreadId)
    requires Inv(s) && Enabled(s, Send(t))
    ensures Inv(After(s, Send(t)))
  {
    var id, e := SendMoves(s, t);
    EntryStep(s, After(s, Send(t)), t, id, e);
  }

  lemma UndoMoves(s: State, t: ThreadId) returns (id: JobId, e: Entry)
    requires Parts(s) && Enabled(s, Undo(t))
    ensures MovesOne(s, After(s, Undo(t)), t, id, e)
  {
    var s' := After(s, Undo(t));
    var job := Offered(s.threads[t]);
    OfferedJob(s, t);
    e := s.ledger[job.id].(place := Refused);
    ReturnedOk(s, t, e);
    NotQueued(s, job);
    ChannelKept(s, job.id, e);
    assert ThreadOk(s.ledger, s.closing, s.closed, t, s.threads[t]);
    id := job.id;
  }

  lemma UndoKeeps(s: State, t: ThreadId)
    requires Inv(s) && Enabled(s, Undo(t))
    ensures Inv(After(s, Undo(t)))
  {
    var id, e := UndoMoves(s, t);
    EntryStep(s, After(s, Undo(t)), t, id, e);
  }

  lemma FeedKeeps(s: State, t: ThreadId)
    requires Inv(s) && Enabled(s, Feed(t))
    ensures Inv(After(s, Feed(t)))
  {
    var s' := After(s, Feed(t));
    var x := s.threads[t];
    assert ThreadOk(s.ledger, s.closing, s.closed, t, x);
    if s.stopping {
      var job := x.todo[0];
      assert job in x.todo && NewAt(s.ledger, t, job);
      var e := s.ledger[job.id].(place := Refused);
      RestOk(s, t, e);
      NotQueued(s, job);
      ChannelKept(s, job.id, e);
      EntryStep(s, s', t, job.id, e);
    } else {
      QuietStep(s, s', t);
    }
  }

  // --------------------------------------------------------------------------- handling

  lemma TakenChannel(s: State, e: Entry)
    requires ChannelOk(s) && s.channel != []
    ensures ChannelOk(s.(channel := s.channel[1..], ledger := s.ledger[s.channel[0].id := e]))
    ensures IdSet(s.channel) == IdSet(s.channel[1..]) + {s.channel[0].id}
  {
    RestDistinct(s.channel);
    forall j <- s.channel[1..] ensures QueuedOk(s.ledger[s.channel[0].id := e], j) {
      assert j in s.channel && j.id in IdSet(s.channel[1..]) && QueuedOk(s.ledger, j);
    }
  }

  lemma TakeMoves(s: State, t: ThreadId) returns (id: JobId, e: Entry)
    requires Parts(s) && Enabled(s, Take(t))
    ensures MovesOne(s, After(s, Take(t)), t, id, e)
  {
    var s' := After(s, Take(t));
    var job := s.channel[0];
    assert job in s.channel && QueuedOk(s.ledger, job);
    e := s.ledger[job.id].(place := At(t), runs := s.ledger[job.id].runs + 1);
    TakenChannel(s, e);
    id := job.id;
  }

  lemma TakeKeeps(s: State, t: ThreadId)
    requires Inv(s) && Enabled(s, Take(t))
    ensures Inv(After(s, Take(t)))
  {
    var id, e := TakeMoves(s, t);
    EntryStep(s, After(s, Take(t)), t, id, e);
  }

  lemma FailKeeps(s: State, t: ThreadId)
    requires Inv(s) && Enabled(s, Fail(t))
    ensures Inv(After(s, Fail(t)))
  {
    assert ThreadOk(s.ledger, s.closing, s.closed, t, s.threads[t]);
    QuietStep(s, After(s, Fail(t)), t);
  }

  lemma {:induction false} AddedJobs(ledger: map<JobId, Entry>, jobs: seq<Job>, t: ThreadId)
    requires DistinctIds(jobs) && IdSet(jobs) !! ledger.Keys
    ensures var r := AddJobs(ledger, jobs, t);
            && r.Keys == ledger.Keys + IdSet(jobs) && (forall id <- ledger :: r[id] == ledger[id])
            && (forall j <- jobs :: r[j.id] == NewEntry(j, t))
            && CountIf(r, IsDropped) == CountIf(ledger, IsDropped)
    decreases |jobs|
  {
    if jobs != [] {
      RestDistinct(jobs);
      AddedJobs(ledger, jobs[1..], t);
      CountUpdate(AddJobs(ledger, jobs[1..], t), jobs[0].id, NewEntry(jobs[0], t), IsDropped);
      forall j <- jobs ensures AddJobs(ledger, jobs, t)[j.id] == NewEntry(j, t) {
        if j != jobs[0] {
          assert j in jobs[1..] && j.id in IdSet(jobs[1..]);
        }
      }
    }
  }

  /** The ledger after a success: the children are new, the parent knows them. */
  function Born(ledger: map<JobId, Entry>, own: JobId, kids: seq<Job>, t: ThreadId): map<JobId, Entry>
    requires own in ledger
  {
    AddJobs(ledger, kids, t)[own := ledger[own].(children := IdSet(kids))]
  }

  lemma BornLedger(ledger: map<JobId, Entry>, own: JobId, kids: seq<Job>, t: ThreadId)
    requires own in ledger && ledger[own].place == At(t) && DistinctIds(kids) && IdSet(kids) !! ledger.Keys
    ensures var b := Born(ledger, own, kids, t);
            && Grows(ledger, b) && Apart(ledger, b, t) && CountIf(b, IsDropped) == CountIf(ledger, IsDropped)
            && b.Keys == ledger.Keys + IdSet(kids) && (forall id <- ledger :: id == own || b[id] == ledger[id])
            && (forall j <- kids :: j.id in b && b[j.id] == NewEntry(j, t))
  {
    AddedJobs(ledger, kids, t);
    CountUpdate(AddJobs(ledger, kids, t), own, ledger[own].(children := IdSet(kids)), IsDropped);
    forall j <- kids ensures j.id in IdSet(kids) && j.id != own {
    }
  }

  lemma BornChannel(s: State, t: ThreadId, own: Job, kids: seq<Job>)
    requires ChannelOk(s) && own.id in s.ledger && s.ledger[own.id].place == At(t)
    requires DistinctIds(kids) && IdSet(kids) !! s.ledger.Keys
    ensures ChannelOk(s.(ledger := Born(s.ledger, own.id, kids, t)))
  {
    BornLedger(s.ledger, own.id, kids, t);
    forall j <- s.channel ensures QueuedOk(Born(s.ledger, own.id, kids, t), j) {
      assert QueuedOk(s.ledger, j);
    }
  }

  lemma SucceedMoves(s: State, t: ThreadId, kids: seq<Job>)
    requires Parts(s) && Enabled(s, Succeed(t, kids))
    ensures Moves(s, After(s, Succeed(t, kids)), t, {s.threads[t].own.id} + IdSet(kids))
  {
    assert ThreadOk(s.ledger, s.closing, s.closed, t, s.threads[t]);
    assert EntryOk(s, s.threads[t].own.id);
    assert WithKids(s, t, kids) == After(s, Succeed(t, kids));
    BornMoves(s, t, kids);
  }

  lemma BornMoves(s: State, t: ThreadId, kids: seq<Job>)
    requires ChannelOk(s) && GivesBirth(s, t, kids)
    ensures Moves(s, WithKids(s, t, kids), t, {s.threads[t].own.id} + IdSet(kids))
  {
    var own := s.threads[t].own;
    BornLedger(s.ledger, own.id, kids, t);
    BornChannel(s, t, own, kids);
    BornThread(s.ledger, s.closing, s.closed, t, own, kids);
    BornEntries(s, WithKids(s, t, kids), t, kids);
    assert ChannelOk(s.(ledger := Born(s.ledger, own.id, kids, t))) ==> ChannelOk(WithKids(s, t, kids));
  }

  lemma SucceedKeeps(s: State, t: ThreadId, kids: seq<Job>)
    requires Inv(s) && Enabled(s, Succeed(t, kids))
    ensures Inv(After(s, Succeed(t, kids)))
  {
    SucceedMoves(s, t, kids);
    ThreadStep(s, After(s, Succeed(t, kids)), t, {s.threads[t].own.id} + IdSet(kids));
  }

  lemma BornThread(ledger: map<JobId, Entry>, closing: bool, closed: bool, t: ThreadId, own: Job, kids: seq<Job>)
    requires OwnOk(ledger, t, Handling(own)) && DistinctIds(kids) && IdSet(kids) !! ledger.Keys
    ensures ThreadOk(Born(ledger, own.id, kids, t), closing, closed, t, Feeding(own, kids))
  {
    BornLedger(ledger, own.id, kids, t);
    var b := Born(ledger, own.id, kids, t);
    forall j <- kids ensures NewAt(b, t, j) {
    }
  }

  /** The state after the children were returned. */
  ghost function WithKids(s: State, t: ThreadId, kids: seq<Job>): State
    requires t in s.threads && s.threads[t].Handling? && s.threads[t].own.id in s.ledger
  {
    SetThread(s, t, Feeding(s.threads[t].own, kids)).(ledger := Born(s.ledger, s.threads[t].own.id, kids, t))
  }

  ghost predicate GivesBirth(s: State, t: ThreadId, kids: seq<Job>) {
    && t in s.threads && s.threads[t].Handling? && OwnOk(s.ledger, t, s.threads[t])
    && EntryOk(s, s.threads[t].own.id) && DistinctIds(kids) && IdSet(kids) !! s.ledger.Keys
  }

  lemma BornEntries(s: State, s': State, t: ThreadId, kids: seq<Job>)
    requires GivesBirth(s, t, kids) && s' == WithKids(s, t, kids)
    ensures Untouched(s, s', t, {s.threads[t].own.id} + IdSet(kids))
    ensures forall id <- {s.threads[t].own.id} + IdSet(kids) :: id in s'.ledger && EntryOk(s', id)
  {
    var own := s.threads[t].own;
    BornLedger(s.ledger, own.id, kids, t);
    forall id <- IdSet(kids) ensures id in s'.ledger && EntryOk(s', id) {
      BornKid(s, t, kids, id);
    }
    BornOwn(s, t, kids);
  }

  lemma BornKid(s: State, t: ThreadId, kids: seq<Job>, id: JobId)
    requires GivesBirth(s, t, kids) && id in IdSet(kids)
    ensures id in WithKids(s, t, kids).ledger && EntryOk(WithKids(s, t, kids), id)
  {
    BornLedger(s.ledger, s.threads[t].own.id, kids, t);
    var j :| j in kids && j.id == id;
    assert WithKids(s, t, kids).ledger[id] == NewEntry(j, t);
  }

  lemma BornOwn(s: State, t: ThreadId, kids: seq<Job>)
    requires GivesBirth(s, t, kids)
    ensures var own := s.threads[t].own; own.id in WithKids(s, t, kids).ledger && EntryOk(WithKids(s, t, kids), own.id)
  {
    BornLedger(s.ledger, s.threads[t].own.id, kids, t);
  }

  // ----------------------------------------------------------------- retrying, finishing

  lemma DropMoves(s: State, t: ThreadId, a: Action) returns (id: JobId, e: Entry)
    requires Parts(s) && Enabled(s, a) && (a == Drop(t) || (a == Wake(t) && s.closed))
    ensures MovesOne(s, After(s, a), t, id, e)
  {
    var own := s.threads[t].own;
    assert ThreadOk(s.ledger, s.closing, s.closed, t, s.threads[t]);
    e := s.ledger[own.id].(place := Dropped);
    NotQueued(s, own);
    ChannelKept(s, own.id, e);
    assert EntryOk(s, own.id);
    id := own.id;
  }

  lemma DropKeeps(s: State, t: ThreadId, a: Action)
    requires Inv(s) && Enabled(s, a) && (a == Drop(t) || (a == Wake(t) && s.closed))
    ensures Inv(After(s, a))
  {
    var id, e := DropMoves(s, t, a);
    EntryStep(s, After(s, a), t, id, e);
  }

  lemma RequeueMoves(s: State, t: ThreadId) returns (id: JobId, e: Entry)
    requires Parts(s) && Enabled(s, Requeue(t))
    ensures MovesOne(s, After(s, Requeue(t)), t, id, e)
  {
    var s' := After(s, Requeue(t));
    var own := s.threads[t].own;
    assert ThreadOk(s.ledger, s.closing, s.closed, t, s.threads[t]);
    e := s.ledger[own.id].(place := Queued, accepted := true);
    PushedChannel(s, own);
    assert ChannelOk(s');
    assert EntryOk(s, own.id);
    id := own.id;
  }

  lemma RequeueKeeps(s: State, t: ThreadId)
    requires Inv(s) && Enabled(s, Requeue(t))
    ensures Inv(After(s, Requeue(t)))
  {
    var id, e := RequeueMoves(s, t);
    EntryStep(s, After(s, Requeue(t)), t, id, e);
  }

  lemma WakeKeeps(s: State, t: ThreadId)
    requires Inv(s) && Enabled(s, Wake(t))
    ensures Inv(After(s, Wake(t)))
  {
    if s.closed {
      DropKeeps(s, t, Wake(t));
    } else {
      assert ThreadOk(s.ledger, s.closing, s.closed, t, s.threads[t]);
      QuietStep(s, After(s, Wake(t)), t);
    }
  }

  /** A worker that has fed all children: each was accepted or refused. */
  lemma ChildrenSettled(s: State, t: ThreadId, e: Entry)
    requires ThreadsOk(s) && t in s.threads && s.threads[t].Feeding? && s.threads[t].todo == []
    requires s.threads[t].own.id in s.ledger && e == s.ledger[s.threads[t].own.id].(place := Completed)
    ensures forall c <- e.children :: Settles(s.ledger[s.threads[t].own.id := e], c)
  {
    var x := s.threads[t];
    assert ThreadOk(s.ledger, s.closing, s.closed, t, x);
    forall c <- e.children ensures Settles(s.ledger[x.own.id := e], c) {
      assert IdSet(x.todo) == {};
      assert Settles(s.ledger, c);
      assert s.ledger[x.own.id].accepted;
    }
  }

  lemma ReleaseMoves(s: State, t: ThreadId) returns (id: JobId, e: Entry)
    requires Parts(s) && Enabled(s, Release(t))
    ensures MovesOne(s, After(s, Release(t)), t, id, e)
  {
    var s' := After(s, Release(t));
    var x := s.threads[t];
    assert ThreadOk(s.ledger, s.closing, s.closed, t, x);
    e := s.ledger[x.own.id].(place := if x.Exhausting? then Exhausted else Completed);
    NotQueued(s, x.own);
    ChannelKept(s, x.own.id, e);
    assert EntryOk(s, x.own.id);
    if x.Feeding? {
      ChildrenSettled(s, t, e);
    }
    assert EntryOk(s', x.own.id);
    id := x.own.id;
  }

  lemma ReleaseKeeps(s: State, t: ThreadId)
    requires Inv(s) && Enabled(s, Release(t))
    ensures Inv(After(s, Release(t)))
  {
    var id, e := ReleaseMoves(s, t);
    EntryStep(s, After(s, Release(t)), t, id, e);
  }

  // ------------------------------------------------------------------------------- done

  /** An accepted job that a thread carries is the one it holds. */
  lemma CarriedIsHeld(s: State, id: JobId)
    requires ThreadsOk(s) && LedgerOk(s) && id in s.ledger && s.ledger[id].accepted && s.ledger[id].place.At?
    ensures var u := s.ledger[id].place.thread; u in s.threads && Holds(s.threads[u])
  {
    var u := s.ledger[id].place.thread;
    assert EntryOk(s, id);
    var x := s.threads[u];
    assert ThreadOk(s.ledger, s.closing, s.closed, u, x);
    if x.Calling? {
      assert NewAt(s.ledger, u, x.job);
    }
  }

  /** When nothing but calls of Submit is counted, every accepted job is finished. */
  lemma NothingLeft(s: State)
    requires Inv(s) && s.inFlight == CountIf(s.threads, Underway)
    ensures Settled(s.ledger, Accepted(s))
  {
    CountZero(s.threads, Holds);
    CountZero(s.ledger, IsDropped);
    forall id <- Accepted(s) ensures FinishedIn(s.ledger, Accepted(s), id) {
      assert EntryOk(s, id);
      if s.ledger[id].place.At? {
        CarriedIsHeld(s, id);
        assert false;
      }
      assert IdSet(s.channel) == {};
      assert !IsDropped(s.ledger[id]);
      forall c <- s.ledger[id].children ensures c in Accepted(s) || (c in s.ledger && s.ledger[c].place.Refused?) {
        assert Settles(s.ledger, c);
      }
    }
  }

  /** When the counter is zero, every accepted job is finished. */
  lemma ZeroIsSettled(s: State)
    requires Inv(s) && s.inFlight == 0
    ensures Settled(s.ledger, Accepted(s))
  {
    NothingLeft(s);
  }

  lemma CheckKeeps(s: State, t: ThreadId)
    requires Inv(s) && Enabled(s, Check(t))
    ensures Inv(After(s, Check(t)))
  {
    if s.inFlight == 0 {
      ZeroIsSettled(s);
      QuietStep(s, SetThread(s, t, Closing(Accepted(s))), t);
    } else {
      BareStep(s, t, Idle);
    }
  }

  lemma CloseDoneKeeps(s: State, t: ThreadId)
    requires Inv(s) && Enabled(s, CloseDone(t))
    ensures Inv(After(s, CloseDone(t)))
  {
    assert ThreadOk(s.ledger, s.closing, s.closed, t, s.threads[t]);
    var idle := SetThread(s, t, Idle);
    BareStep(s, t, Idle);
    LedgerSame(idle, After(s, CloseDone(t)));
  }

  lemma LedgerSame(s: State, s': State)
    requires LedgerOk(s) && s'.ledger == s.ledger && s'.threads == s.threads && s'.channel == s.channel
    requires (s.closing ==> s'.closing) && (s.stopping ==> s'.stopping)
    ensures LedgerOk(s')
  {
    forall id <- s'.ledger ensures EntryOk(s', id) {
      assert EntryOk(s, id);
    }
  }

  lemma FlagKeeps(s: State, a: Action)
    requires Inv(s) && Enabled(s, a) && (a.Stop? || a.BeginClose? || a.CloseChannel?)
    ensures Inv(After(s, a))
  {
    var s' := After(s, a);
    LedgerSame(s, s');
    forall u <- s'.threads ensures ThreadOk(s'.ledger, s'.closing, s'.closed, u, s'.threads[u]) {
      assert ThreadOk(s.ledger, s.closing, s.closed, u, s.threads[u]);
    }
  }

  // -------------------------------------------------------------------------- every run

  lemma SubmitKeeps(s: State, a: Action)
    requires Inv(s) && Enabled(s, a)
    requires a.Call? || a.Count? || a.Enter? || a.Send? || a.Bounce? || a.Undo?
    ensures Inv(After(s, a))
  {
    match a
    case Call(t, job) => CallKeeps(s, t, job);
    case Count(t) => StageKeeps(s, t, Counted, 1);
    case Enter(t) => StageKeeps(s, t, if s.closed then Refusing else Sending, 0);
    case Send(t) => SendKeeps(s, t);
    case Bounce(t) => StageKeeps(s, t, Refusing, 0);
    case Undo(t) => UndoKeeps(s, t);
  }

  lemma ExitKeeps(s: State, t: ThreadId)
    requires Inv(s) && Enabled(s, Exit(t))
    ensures Inv(After(s, Exit(t)))
  {
    BareStep(s, t, Exited);
  }

  /** Every step keeps the invariant. */
  lemma StepKeeps(s: State, a: Action)
    requires Inv(s) && Enabled(s, a)
    ensures Inv(After(s, a))
  {
    match a
    case Take(t) => TakeKeeps(s, t);
    case Exit(t) => ExitKeeps(s, t);
    case Fail(t) => FailKeeps(s, t);
    case Succeed(t, kids) => SucceedKeeps(s, t, kids);
    case Wake(t) => WakeKeeps(s, t);
    case Requeue(t) => RequeueKeeps(s, t);
    case Drop(t) => DropKeeps(s, t, a);
    case Feed(t) => FeedKeeps(s, t);
    case Release(t) => ReleaseKeeps(s, t);
    case Check(t) => CheckKeeps(s, t);
    case CloseDone(t) => CloseDoneKeeps(s, t);
    case Stop => FlagKeeps(s, a);
    case BeginClose => FlagKeeps(s, a);
    case CloseChannel => FlagKeeps(s, a);
    case _ => SubmitKeeps(s, a);
  }

  lemma InitialInv(s: State)
    requires Initial(s)
    ensures Inv(s)
  {
    assert Keys(s.threads, Holds) == {};
    assert Keys(s.threads, Underway) == {};
    assert Keys(s.ledger, IsDropped) == {} by {
      forall id <- s.ledger ensures !IsDropped(s.ledger[id]) {
        assert id in IdSet(s.channel);
        var j :| j in s.channel && j.id == id;
      }
    }
    forall id <- s.ledger ensures EntryOk(s, id) {
      assert id in IdSet(s.channel);
      var j :| j in s.channel && j.id == id;
    }
  }

  lemma {:induction false} ReachableInv(states: seq<State>, actions: seq<Action>, i: nat)
    requires Run(states, actions) && i < |states|
    ensures Inv(states[i])
    decreases i
  {
    if i == 0 {
      InitialInv(states[0]);
    } else {
      ReachableInv(states, actions, i - 1);
      assert StepAt(states, actions, i - 1);
      StepKeeps(states[i - 1], actions[i - 1]);
    }
  }
}
