/** When leases are recovered and jobs are claimed, in terms of the times and leases that the
    steps of a run name. */
module JobTimes {
  import opened Common
  import opened JobTables
  import opened JobInvariant
  import opened JobSteps
  import opened JobRuns
  import opened JobRoots
  import opened JobLeases

  // -------------------------------------------------------------------------- leases

  /** After a step that sets the lease, the row runs until the time and lease of that step. */
  lemma SetStep(w: World, a: Action, id: JobId)
    requires Enabled(w, a) && SetsLease(w.t.jobs, a, id)
    ensures var b := Next(w, a).t.jobs; Runs(b, id) && b[id].lockedUntil == Some(a.now + a.lease)
  {
  }

  /** A row that runs only after the step has been claimed in it. */
  lemma StartStep(w: World, a: Action, id: JobId)
    requires WorldInv(w) && Enabled(w, a) && Runs(Next(w, a).t.jobs, id) && !Runs(w.t.jobs, id)
    ensures SetsLease(w.t.jobs, a, id)
  {
    if Claims(a) {
      assert a.pick == Some(id);
    } else {
      QuietStep(w, a);
      NothingStarts(w, a, id);
    }
  }

  lemma NothingStarts(w: World, a: Action, id: JobId)
    requires WorldInv(w) && Enabled(w, a) && Inv(After(w, a)) && Quiet(w.t, After(w, a))
    requires Runs(After(w, a).jobs, id)
    ensures Runs(w.t.jobs, id)
  {
    assert RowOk(After(w, a).jobs[id]);
    assert RowOk(w.t.jobs[id]);
  }

  ghost predicate SetsAt(acts: seq<Action>, m: nat, id: JobId)
    requires Run(EMPTY, acts)
  {
    m < |acts| && SetsLease(At(EMPTY, acts, m).t.jobs, acts[m], id)
  }

  /** Step k is the last before i that says how long the row is leased. */
  ghost predicate LastSet(acts: seq<Action>, k: nat, i: nat, id: JobId)
    requires Run(EMPTY, acts)
  {
    k < i && SetsAt(acts, k, id) && forall m: nat :: k < m < i ==> !SetsAt(acts, m, id)
  }

  /** The row runs after the first i steps, leased as step k has set it. */
  ghost predicate LeasedBy(acts: seq<Action>, k: nat, i: nat, id: JobId)
    requires Run(EMPTY, acts) && i <= |acts|
  {
    LastSet(acts, k, i, id) && Runs(At(EMPTY, acts, i).t.jobs, id) &&
    At(EMPTY, acts, i).t.jobs[id].lockedUntil == Some(acts[k].now + acts[k].lease)
  }

  lemma SetAt(acts: seq<Action>, i: nat, id: JobId)
    requires Run(EMPTY, acts) && SetsAt(acts, i, id)
    ensures LeasedBy(acts, i, i + 1, id)
  {
    AtNext(EMPTY, acts, i);
    SetStep(At(EMPTY, acts, i), acts[i], id);
  }

  lemma RunsAt(acts: seq<Action>, i: nat, id: JobId)
    requires Run(EMPTY, acts) && i < |acts| && Runs(At(EMPTY, acts, i + 1).t.jobs, id) && !SetsAt(acts, i, id)
    ensures Runs(At(EMPTY, acts, i).t.jobs, id)
    ensures At(EMPTY, acts, i + 1).t.jobs[id].lockedUntil == At(EMPTY, acts, i).t.jobs[id].lockedUntil
  {
    AtNext(EMPTY, acts, i);
    ReachableInv(acts, i);
    LeaseRuns(At(EMPTY, acts, i), acts[i], id);
  }

  /** A running row is leased until the time and lease of the last step that set it. */
  lemma {:induction false} LeasedUntil(acts: seq<Action>, i: nat, id: JobId) returns (k: nat)
    requires Run(EMPTY, acts) && i <= |acts| && Runs(At(EMPTY, acts, i).t.jobs, id)
    ensures LeasedBy(acts, k, i, id)
    decreases i
  {
    assert i > 0;
    k := i - 1;
    if SetsAt(acts, k, id) {
      SetAt(acts, k, id);
    } else {
      RunsAt(acts, k, id);
      k := LeasedUntil(acts, k, id);
    }
  }

  /** A step that does not set the lease of a row that runs after it. */
  lemma LeaseRuns(w: World, a: Action, id: JobId)
    requires WorldInv(w) && Enabled(w, a) && Runs(Next(w, a).t.jobs, id) && !SetsLease(w.t.jobs, a, id)
    ensures Runs(w.t.jobs, id) && Next(w, a).t.jobs[id].lockedUntil == w.t.jobs[id].lockedUntil
  {
    if Runs(w.t.jobs, id) {
      EndedRunsNot(w, a, id);
      LeaseEndsExactly(w, a, id);
    } else {
      StartStep(w, a, id);
    }
  }

  lemma EndedRunsNot(w: World, a: Action, id: JobId)
    requires WorldInv(w) && Enabled(w, a) && Runs(w.t.jobs, id) && Runs(Next(w, a).t.jobs, id)
    ensures !EndsLease(w, a, id)
  {
    StepKeeps(w, a);
    assert RowOk(Next(w, a).t.jobs[id]);
    LeaseEndsExactly(w, a, id);
  }

  /** A recovery ends a lease only after it has run out: at a time later than the time and
      lease of the last Claim or Heartbeat that set it. */
  lemma RecoveredLate(acts: seq<Action>, i: nat, id: JobId) returns (k: nat)
    requires Run(EMPTY, acts) && i < |acts| && acts[i].AReclaim?
    requires Runs(At(EMPTY, acts, i).t.jobs, id) && !Runs(At(EMPTY, acts, i + 1).t.jobs, id)
    ensures LastSet(acts, k, i, id) && acts[k].now + acts[k].lease < acts[i].now
  {
    k := LeasedUntil(acts, i, id);
    AtNext(EMPTY, acts, i);
    LeaseEndsExactly(At(EMPTY, acts, i), acts[i], id);
    var j :| 0 <= j < |acts[i].batch| && acts[i].batch[j].id == id;
  }

  // -------------------------------------------------------------------------- claims

  /** The first of two jobs in the queue: by schedule, then by age, then by id. */
  predicate ComesFirst(a: Job, b: Job) {
    || a.scheduledAt < b.scheduledAt
    || (a.scheduledAt == b.scheduledAt && a.createdAt < b.createdAt)
    || (a.scheduledAt == b.scheduledAt && a.createdAt == b.createdAt && a.id < b.id)
  }

  /** A claim takes a due job from the queue; every other one in it that no transaction has
      locked and that is due at the time comes later. */
  lemma FirstComesFirst(acts: seq<Action>, i: nat, id: JobId, other: JobId)
    requires Run(EMPTY, acts) && i < |acts| && acts[i].AClaim? && acts[i].pick == Some(id)
    requires other in At(EMPTY, acts, i).t.jobs && other != id && other !in acts[i].locked
    ensures var jobs := At(EMPTY, acts, i).t.jobs;
            && id in jobs && id !in acts[i].locked && jobs[id].scheduledAt <= acts[i].now
            && (jobs[id].status == Pending || jobs[id].status == RetryScheduled)
            && (jobs[other].status == Pending || jobs[other].status == RetryScheduled ==>
                  ComesFirst(jobs[id], jobs[other]) || acts[i].now < jobs[other].scheduledAt)
  {
    AtNext(EMPTY, acts, i);
    ReachableInv(acts, i);
    var jobs := At(EMPTY, acts, i).t.jobs;
    assert jobs[id].id == id && jobs[other].id == other;
    assert Eligible(jobs, acts[i].now, acts[i].locked, other) ==> Before(jobs[id], jobs[other]);
  }

  /** The row waits for its next attempt, or was cancelled while it did. */
  predicate AwaitsRetry(jobs: map<JobId, Job>, id: JobId, until: Time) {
    && id in jobs
    && ((jobs[id].status == RetryScheduled && jobs[id].scheduledAt == until) || jobs[id].status == Cancelled)
  }

  lemma RetryScheduledStays(w: World, a: Action, id: JobId, until: Time)
    requires WorldInv(w) && Enabled(w, a) && AwaitsRetry(w.t.jobs, id, until) && !(a.AClaim? && a.pick == Some(id))
    ensures AwaitsRetry(Next(w, a).t.jobs, id, until)
  {
    var row := w.t.jobs[id];
    if row.status == Cancelled {
      StepKeeps(w, a);
      assert RowEvolves(row, Next(w, a).t.jobs[id]);
    } else {
      QueuedStays(w, a, id);
    }
  }

  /** No step but a claim or a cancellation changes a row in the queue. */
  lemma QueuedStays(w: World, a: Action, id: JobId)
    requires WorldInv(w) && Enabled(w, a) && id in w.t.jobs && !(a.AClaim? && a.pick == Some(id))
    requires w.t.jobs[id].status == RetryScheduled
    ensures var b := Next(w, a).t.jobs; id in b && (b[id] == w.t.jobs[id] || b[id].status == Cancelled)
  {
    match a
    case AComplete(h, r, ids, now) => CompleteSpares(w.t, h, r, ids, now, id);
    case AFail(h, kind, retryAt, now) => FailSpares(w.t, h, kind, retryAt, now, id);
    case AReclaim(batch, now) =>
      NotInBatch(w.t.jobs, batch, now, id);
      ReclaimSpares(w.t, batch, now, id);
    case _ => QueuedRest(w, a, id);
  }

  lemma NotInBatch(jobs: map<JobId, Job>, batch: seq<Job>, now: Time, id: JobId)
    requires ExpiredBatch(jobs, batch, now) && id in jobs && jobs[id].status != Running
    ensures !InBatch(batch, id)
  {
    forall i | 0 <= i < |batch| ensures batch[i].id != id {
      assert batch[i] == jobs[batch[i].id] && Expired(batch[i], now);
    }
  }

  lemma QueuedRest(w: World, a: Action, id: JobId)
    requires Enabled(w, a) && id in w.t.jobs && !(a.AClaim? && a.pick == Some(id))
    requires w.t.jobs[id].status == RetryScheduled && !a.AComplete? && !a.AFail? && !a.AReclaim?
    ensures var b := Next(w, a).t.jobs; id in b && (b[id] == w.t.jobs[id] || b[id].status == Cancelled)
  {
  }

  lemma CompleteSpares(t: Tables, h: Job, r: HandlerResult, ids: seq<JobId>, now: Time, id: JobId)
    requires id in t.jobs && t.jobs[id].status == RetryScheduled && |ids| == |r.children| && FreshIds(t.jobs, ids)
    ensures var b := Complete(t, h, r, ids, now).jobs; id in b && b[id] == t.jobs[id]
  {
    if Owns(t.jobs, h) {
      var t1 := EndLease(t, h, h.leaseToken, CompletionStatus(h, r), Ended(Completed), t.jobs[h.id].scheduledAt, now);
      InsertChildrenFrame(t1.jobs, h, r.children, ids, now);
      var t2 := CompleteBody(t, h, r, ids, now);
      assert t2.jobs[id] == t1.jobs[id];
      if CompletionStatus(h, r) == Completed && h.id != h.root {
        FinalizeSpares(t2, h.root, now, id);
      }
    }
  }

  lemma FailSpares(t: Tables, h: Job, kind: ErrorKind, retryAt: Time, now: Time, id: JobId)
    requires id in t.jobs && t.jobs[id].status == RetryScheduled
    ensures var b := Fail(t, h, kind, retryAt, now).jobs; id in b && b[id] == t.jobs[id]
  {
    if Owns(t.jobs, h) {
      FinalizeSpares(FailBody(t, h, kind, retryAt, now), h.root, now, id);
    }
  }

  ghost predicate ClaimedBetween(acts: seq<Action>, i: nat, j: nat, id: JobId) {
    exists m: nat :: i < m < j && m < |acts| && acts[m].AClaim? && acts[m].pick == Some(id)
  }

  /** The owner of the job reports a transient failure and attempts are left. */
  ghost predicate FailsForNow(w: World, a: Action) {
    a.AFail? && a.kind == Transient && Owns(w.t.jobs, a.h) && a.h.attempts < a.h.maxAttempts
  }

  lemma {:induction false} StillAwaits(acts: seq<Action>, i: nat, j: nat)
    requires Run(EMPTY, acts) && i < j <= |acts| && FailsForNow(At(EMPTY, acts, i), acts[i])
    requires !ClaimedBetween(acts, i, j, acts[i].h.id)
    ensures AwaitsRetry(At(EMPTY, acts, j).t.jobs, acts[i].h.id, acts[i].retryAt)
    decreases j
  {
    AtNext(EMPTY, acts, j - 1);
    ReachableInv(acts, j - 1);
    if j - 1 > i {
      StillAwaits(acts, i, j - 1);
      RetryScheduledStays(At(EMPTY, acts, j - 1), acts[j - 1], acts[i].h.id, acts[i].retryAt);
    } else {
      FailsToRetry(At(EMPTY, acts, i), acts[i]);
    }
  }

  lemma FailsToRetry(w: World, a: Action)
    requires WorldInv(w) && Enabled(w, a) && FailsForNow(w, a)
    ensures AwaitsRetry(Next(w, a).t.jobs, a.h.id, a.retryAt)
  {
  }

  /** A job that failed for now is not claimed again before the time it was told to wait
      for. */
  lemma RetryWaits(acts: seq<Action>, i: nat, j: nat)
    requires Run(EMPTY, acts) && i < j < |acts| && FailsForNow(At(EMPTY, acts, i), acts[i])
    requires acts[j].AClaim? && acts[j].pick == Some(acts[i].h.id) && !ClaimedBetween(acts, i, j, acts[i].h.id)
    ensures acts[i].retryAt <= acts[j].now
  {
    StillAwaits(acts, i, j);
    AtNext(EMPTY, acts, j);
  }

  // ------------------------------------------------------- what a recovery leaves behind

  /** The row runs although its lease has run out. */
  predicate Overdue(row: Job, now: Time) {
    row.status == Running && row.lockedUntil.Some? && row.lockedUntil.value < now
  }

  /** Recovering rows leaves every other running row as it is and starts none. */
  lemma {:induction false} RecoveryStartsNone(t: Tables, batch: seq<Job>, now: Time, id: JobId)
    requires ExpiredBatch(t.jobs, batch, now) && Runs(ReclaimAll(t, batch, now).jobs, id)
    ensures Runs(t.jobs, id) && ReclaimAll(t, batch, now).jobs[id] == t.jobs[id] && !InBatch(batch, id)
    decreases |batch|
  {
    if batch != [] {
      var h := batch[0];
      ReclaimTail(t, batch, now);
      RecoveryStartsNone(ReclaimRow(t, h, now), batch[1..], now, id);
      RowRecovered(t, h, now, id);
      BatchTail(batch, id);
    }
  }

  lemma RowRecovered(t: Tables, h: Job, now: Time, id: JobId)
    requires h.id in t.jobs && Runs(ReclaimRow(t, h, now).jobs, id)
    ensures id != h.id && Runs(t.jobs, id) && ReclaimRow(t, h, now).jobs[id] == t.jobs[id]
  {
  }

  /** If the batch holds every unlocked row that is overdue, none is left. */
  lemma NoneOverdue(t: Tables, batch: seq<Job>, locked: set<JobId>, now: Time)
    requires ExpiredBatch(t.jobs, batch, now)
    requires forall id <- t.jobs :: Overdue(t.jobs[id], now) && id !in locked ==> InBatch(batch, id)
    ensures var b := ReclaimAll(t, batch, now).jobs; forall id <- b :: id !in locked ==> !Overdue(b[id], now)
  {
    var b := ReclaimAll(t, batch, now).jobs;
    forall id <- b ensures id !in locked ==> !Overdue(b[id], now) {
      if Runs(b, id) {
        RecoveryStartsNone(t, batch, now, id);
      }
    }
  }
}
