/** What every step of the pool keeps. */
module PoolInvariant {
  import opened Pool

  // -------------------------------------------------------------------------- counting

  ghost function Keys<K, V>(m: map<K, V>, p: V -> bool): set<K> {
    set k <- m | p(m[k])
  }

  ghost function CountIf<K, V>(m: map<K, V>, p: V -> bool): nat {
    |Keys(m, p)|
  }

  function One(b: bool): nat {
    if b then 1 else 0
  }

  lemma CountUpdate<K, V>(m: map<K, V>, k: K, v: V, p: V -> bool)
    ensures CountIf(m[k := v], p) == CountIf(m, p) - One(k in m && p(m[k])) + One(p(v))
  {
    var rest := Keys(m, p) - {k};
    assert Keys(m, p) == if k in m && p(m[k]) then rest + {k} else rest;
    assert Keys(m[k := v], p) == if p(v) then rest + {k} else rest;
  }

  lemma CountZero<K, V>(m: map<K, V>, p: V -> bool)
    requires CountIf(m, p) == 0
    ensures forall k <- m :: !p(m[k])
  {
    forall k <- m ensures !p(m[k]) {
      assert k !in Keys(m, p);
    }
  }

  // -------------------------------------------------------------------------- invariant

  /** Threads that hold a job they took from the channel. */
  predicate Holds(t: Thread) {
    t.Handling? || t.Sleeping? || t.Requeueing? || t.Feeding? || t.Submitting? || t.Exhausting?
  }

  /** Threads whose call of Submit has been counted and has not returned. */
  predicate Underway(t: Thread) {
    HasStage(t, Counted) || HasStage(t, Sending) || HasStage(t, Refusing)
  }

  predicate IsDropped(e: Entry) {
    e.place.Dropped?
  }

  /** The counter is exact: queued jobs, held jobs, submissions under way, dropped jobs. */
  ghost predicate CountOk(s: State) {
    s.inFlight == |s.channel| + CountIf(s.threads, Holds) + CountIf(s.threads, Underway) + CountIf(s.ledger, IsDropped)
  }

  /** How often a job may be handled. */
  function Limit(start: Job): int {
    if start.maxAttempts - start.attempts > 1 then start.maxAttempts - start.attempts else 1
  }

  /** The attempts a job carries agree with how often it was handled, `extra` being 1 while
      the current handling is not yet counted. */
  ghost predicate Accounted(e: Entry, j: Job, extra: int) {
    && e.start.id == j.id && e.start.maxAttempts == j.maxAttempts
    && e.runs == j.attempts - e.start.attempts + extra
  }

  ghost predicate Retryable(e: Entry, j: Job) {
    j.attempts == e.start.attempts || j.attempts < j.maxAttempts
  }

  ghost predicate QueuedOk(ledger: map<JobId, Entry>, j: Job) {
    && j.id in ledger
    && var e := ledger[j.id];
       e.place == Queued && e.accepted && e.children == {} && Accounted(e, j, 0) && Retryable(e, j)
  }

  ghost predicate ChannelOk(s: State) {
    DistinctIds(s.channel) && forall j {:trigger QueuedOk(s.ledger, j)} :: j in s.channel ==> QueuedOk(s.ledger, j)
  }

  ghost predicate Settles(ledger: map<JobId, Entry>, c: JobId) {
    c in ledger && (ledger[c].accepted || ledger[c].place.Refused?)
  }

  ghost predicate NewAt(ledger: map<JobId, Entry>, u: ThreadId, j: Job) {
    j.id in ledger && ledger[j.id] == NewEntry(j, u)
  }

  ghost predicate TodoOk(ledger: map<JobId, Entry>, u: ThreadId, todo: seq<Job>) {
    DistinctIds(todo) && forall j {:trigger NewAt(ledger, u, j)} :: j in todo ==> NewAt(ledger, u, j)
  }

  ghost predicate OwnOk(ledger: map<JobId, Entry>, u: ThreadId, t: Thread)
    requires Holds(t)
  {
    && t.own.id in ledger
    && var e := ledger[t.own.id];
       && e.place == At(u) && e.accepted
       && Accounted(e, t.own, if t.Handling? || t.Feeding? || t.Submitting? then 1 else 0)
       && (t.Handling? || t.Sleeping? || t.Requeueing? || t.Exhausting? ==> e.children == {})
       && (t.Handling? || t.Sleeping? || t.Requeueing? ==> Retryable(e, t.own))
       && (t.Handling? ==> e.runs >= 1) && (t.Exhausting? ==> e.runs == Limit(e.start))
  }

  /** Every child of the job has been submitted, refused, or is still to be submitted. */
  ghost predicate FeedOk(ledger: map<JobId, Entry>, own: Job, todo: seq<Job>) {
    own.id in ledger &&
    forall c {:trigger Settles(ledger, c)} :: c in ledger[own.id].children ==> c in IdSet(todo) || Settles(ledger, c)
  }

  /** The job is finished, and its children are among the given ones or were refused. */
  ghost predicate FinishedIn(ledger: map<JobId, Entry>, seen: set<JobId>, id: JobId) {
    && id in ledger && (ledger[id].place.Completed? || ledger[id].place.Exhausted?)
    && forall c <- ledger[id].children :: c in seen || (c in ledger && ledger[c].place.Refused?)
  }

  ghost predicate Settled(ledger: map<JobId, Entry>, seen: set<JobId>) {
    forall id {:trigger FinishedIn(ledger, seen, id)} :: id in seen ==> FinishedIn(ledger, seen, id)
  }

  ghost predicate ThreadOk(ledger: map<JobId, Entry>, closing: bool, closed: bool, u: ThreadId, t: Thread) {
    && (Holds(t) ==> OwnOk(ledger, u, t))
    && (t.Calling? ==> NewAt(ledger, u, t.job))
    && (t.Feeding? || t.Submitting? ==> TodoOk(ledger, u, t.todo) && FeedOk(ledger, t.own, t.todo))
    && (t.Submitting? ==> t.todo != [])
    && (t.Closing? ==> Settled(ledger, t.seen))
    && (HasStage(t, Refusing) ==> closing)
    && (Locked(t) ==> !closed)
  }

  ghost predicate ThreadsOk(s: State) {
    forall u {:trigger ThreadOk(s.ledger, s.closing, s.closed, u, s.threads[u])} ::
      u in s.threads ==> ThreadOk(s.ledger, s.closing, s.closed, u, s.threads[u])
  }

  /** The jobs a thread carries: the one it holds and the ones it has yet to submit. */
  function Carried(t: Thread): set<JobId> {
    (if Holds(t) then {t.own.id} else {}) +
    (if t.Calling? then {t.job.id} else if t.Feeding? || t.Submitting? then IdSet(t.todo) else {})
  }

  /** Every job is where its entry says. */
  ghost predicate EntryOk(s: State, id: JobId)
    requires id in s.ledger
  {
    var e := s.ledger[id];
    && e.runs <= Limit(e.start)
    && match e.place
       case Queued => e.accepted && id in IdSet(s.channel)
       case At(u) => u in s.threads && id in Carried(s.threads[u])
       case Completed =>
         e.accepted && forall c {:trigger Settles(s.ledger, c)} :: c in e.children ==> Settles(s.ledger, c)
       case Exhausted => e.accepted && e.children == {} && e.runs == Limit(e.start)
       case Dropped => e.accepted && s.closing
       case Refused => !e.accepted && (s.stopping || s.closing)
  }

  ghost predicate LedgerOk(s: State) {
    forall id {:trigger EntryOk(s, id)} :: id in s.ledger ==> EntryOk(s, id)
  }

  ghost predicate DoneOk(s: State) {
    s.done.Some? ==> Settled(s.ledger, s.done.value)
  }

  ghost predicate Parts(s: State) {
    ChannelOk(s) && ThreadsOk(s) && LedgerOk(s) && (s.closed ==> s.closing)
  }

  ghost predicate Inv(s: State) {
    CountOk(s) && DoneOk(s) && Parts(s)
  }

  // ---------------------------------------------------------------------------- frames

  /** A finished or refused job stays as it is; an accepted job stays accepted. */
  ghost predicate GrowsAt(a: map<JobId, Entry>, b: map<JobId, Entry>, id: JobId)
    requires id in a
  {
    && id in b && (a[id].accepted ==> b[id].accepted)
    && (a[id].place.Completed? || a[id].place.Exhausted? || a[id].place.Refused? ==> b[id] == a[id])
  }

  ghost predicate Grows(a: map<JobId, Entry>, b: map<JobId, Entry>) {
    forall id {:trigger GrowsAt(a, b, id)} :: id in a ==> GrowsAt(a, b, id)
  }

  /** Nothing that another thread carries changes. */
  ghost predicate ApartAt(a: map<JobId, Entry>, b: map<JobId, Entry>, t: ThreadId, id: JobId)
    requires id in a
  {
    a[id].place.At? && a[id].place.thread != t ==> id in b && b[id] == a[id]
  }

  ghost predicate Apart(a: map<JobId, Entry>, b: map<JobId, Entry>, t: ThreadId) {
    forall id {:trigger ApartAt(a, b, t, id)} :: id in a ==> ApartAt(a, b, t, id)
  }

  lemma SettlesGrows(a: map<JobId, Entry>, b: map<JobId, Entry>, c: JobId)
    requires Grows(a, b) && Settles(a, c)
    ensures Settles(b, c)
  {
    assert GrowsAt(a, b, c);
  }

  lemma SettledGrows(a: map<JobId, Entry>, b: map<JobId, Entry>, seen: set<JobId>)
    requires Grows(a, b) && Settled(a, seen)
    ensures Settled(b, seen)
  {
    forall id <- seen ensures FinishedIn(b, seen, id) {
      assert FinishedIn(a, seen, id) && GrowsAt(a, b, id);
      forall c <- b[id].children | c !in seen ensures c in b && b[c].place.Refused? {
        assert GrowsAt(a, b, c);
      }
    }
  }

  lemma OwnKept(a: map<JobId, Entry>, b: map<JobId, Entry>, t: ThreadId, u: ThreadId, x: Thread)
    requires Apart(a, b, t) && u != t && Holds(x) && OwnOk(a, u, x)
    ensures OwnOk(b, u, x) && b[x.own.id] == a[x.own.id]
  {
    assert ApartAt(a, b, t, x.own.id);
  }

  lemma TodoKept(a: map<JobId, Entry>, b: map<JobId, Entry>, t: ThreadId, u: ThreadId, todo: seq<Job>)
    requires Apart(a, b, t) && u != t && TodoOk(a, u, todo)
    ensures TodoOk(b, u, todo)
  {
    forall j <- todo ensures NewAt(b, u, j) {
      assert NewAt(a, u, j) && ApartAt(a, b, t, j.id);
    }
  }

  lemma OtherThread(
    a: map<JobId, Entry>, b: map<JobId, Entry>, t: ThreadId, u: ThreadId, x: Thread, closing: bool, closed: bool)
    requires Grows(a, b) && Apart(a, b, t) && u != t && ThreadOk(a, closing, closed, u, x)
    ensures ThreadOk(b, closing, closed, u, x)
  {
    if Holds(x) {
      OwnKept(a, b, t, u, x);
    }
    if x.Calling? {
      assert ApartAt(a, b, t, x.job.id);
    }
    if x.Feeding? || x.Submitting? {
      TodoKept(a, b, t, u, x.todo);
      forall c <- b[x.own.id].children ensures c in IdSet(x.todo) || Settles(b, c) {
        assert c in IdSet(x.todo) || Settles(a, c);
        if c !in IdSet(x.todo) {
          SettlesGrows(a, b, c);
        }
      }
    }
    if x.Closing? {
      SettledGrows(a, b, x.seen);
    }
  }

  /** The step of one thread, seen from the others. */
  lemma OthersKept(s: State, s': State, t: ThreadId, x: Thread)
    requires ThreadsOk(s) && s'.threads == s.threads[t := x] && Grows(s.ledger, s'.ledger)
    requires Apart(s.ledger, s'.ledger, t)
    requires s'.closing == s.closing && s'.closed == s.closed
    requires ThreadOk(s'.ledger, s'.closing, s'.closed, t, x)
    ensures ThreadsOk(s')
  {
    forall u <- s'.threads ensures ThreadOk(s'.ledger, s'.closing, s'.closed, u, s'.threads[u]) {
      if u != t {
        assert ThreadOk(s.ledger, s.closing, s.closed, u, s.threads[u]);
        OtherThread(s.ledger, s'.ledger, t, u, s.threads[u], s.closing, s.closed);
      }
    }
  }

  lemma DoneKept(s: State, s': State)
    requires DoneOk(s) && Grows(s.ledger, s'.ledger) && s'.done == s.done
    ensures DoneOk(s')
  {
    if s.done.Some? {
      SettledGrows(s.ledger, s'.ledger, s.done.value);
    }
  }
}
