/** The fate of one lease: which steps prolong it, which end it, and that it never comes
    back. */
module JobLeases {
  import opened Common
  import opened JobTables
  import opened JobInvariant
  import opened JobSteps
  import opened JobRoots

  /** The row still runs under the same lease. The lease may have been prolonged and
      cancellation may have been requested, which is never withdrawn. */
  predicate Rides(a: Job, b: Job) {
    && b == a.(lockedUntil := b.lockedUntil, heartbeatAt := b.heartbeatAt, cancelRequestedAt := b.cancelRequestedAt)
    && (a.cancelRequestedAt.Some? ==> b.cancelRequestedAt == a.cancelRequestedAt)
  }

  /** The row runs under the same lease, until the same time. */
  predicate Stays(a: Job, b: Job) {
    Rides(a, b) && b.lockedUntil == a.lockedUntil && b.heartbeatAt == a.heartbeatAt
  }

  /** Some row of the batch is the row `id`. */
  ghost predicate InBatch(batch: seq<Job>, id: JobId) {
    exists i :: 0 <= i < |batch| && batch[i].id == id
  }

  /** The steps that end the lease of a running row: its owner completes or fails it, or
      it is recovered. */
  ghost predicate EndsLease(w: World, a: Action, id: JobId) {
    match a
    case AComplete(h, _, _, _) => h.id == id && Owns(w.t.jobs, h)
    case AFail(h, _, _, _) => h.id == id && Owns(w.t.jobs, h)
    case AReclaim(batch, _) => InBatch(batch, id)
    case _ => false
  }

  /** The steps that say how long the row is leased: a claim of the row, and a heartbeat of
      its owner while nobody has asked to cancel it. */
  predicate SetsLease(jobs: map<JobId, Job>, a: Action, id: JobId) {
    || (a.AClaim? && a.pick == Some(id))
    || (a.AHeartbeat? && a.h.id == id && id in jobs && jobs[id].status == Running
        && a.h.lockedBy.Some? && jobs[id].lockedBy == a.h.lockedBy
        && a.h.leaseToken.Some? && jobs[id].leaseToken == a.h.leaseToken && jobs[id].cancelRequestedAt.None?)
  }

  function EndStatus(jobs: map<JobId, Job>, a: Action, id: JobId): Status
    requires id in jobs
  {
    match a
    case AComplete(h, r, _, _) => CompletionStatus(h, r)
    case AFail(h, kind, _, _) => FailureStatus(h, kind)
    case _ => RecoveryStatus(jobs[id])
  }

  predicate Fate(a: Job, ends: bool, status: Status, b: Job) {
    if ends then b.status == status && b.leaseToken.None? else Stays(a, b)
  }

  ghost predicate Runs(jobs: map<JobId, Job>, id: JobId) {
    id in jobs && jobs[id].status == Running
  }

  /** Finalising touches no row that was just ended or still runs. */
  lemma FinalizeSpares(t: Tables, root: JobId, now: Time, id: JobId)
    requires id in t.jobs && (t.jobs[id].status != Waiting || id != root)
    ensures id in FinalizeRoot(t, root, now).jobs && FinalizeRoot(t, root, now).jobs[id] == t.jobs[id]
  {
  }

  lemma CompleteEnds(t: Tables, h: Job, r: HandlerResult, ids: seq<JobId>, now: Time, id: JobId)
    requires Runs(t.jobs, id) && |ids| == |r.children| && FreshIds(t.jobs, ids)
    ensures var b := Complete(t, h, r, ids, now).jobs;
            id in b && Fate(t.jobs[id], h.id == id && Owns(t.jobs, h), CompletionStatus(h, r), b[id])
  {
    if Owns(t.jobs, h) {
      var t1 := EndLease(t, h, h.leaseToken, CompletionStatus(h, r), Ended(Completed), t.jobs[h.id].scheduledAt, now);
      InsertChildrenFrame(t1.jobs, h, r.children, ids, now);
      var t2 := CompleteBody(t, h, r, ids, now);
      assert t2.jobs[id] == t1.jobs[id];
      if CompletionStatus(h, r) == Completed && h.id != h.root {
        FinalizeSpares(t2, h.root, now, id);
      }
    }
  }

  lemma FailEnds(t: Tables, h: Job, kind: ErrorKind, retryAt: Time, now: Time, id: JobId)
    requires Runs(t.jobs, id)
    ensures var b := Fail(t, h, kind, retryAt, now).jobs;
            id in b && Fate(t.jobs[id], h.id == id && Owns(t.jobs, h), FailureStatus(h, kind), b[id])
  {
    if Owns(t.jobs, h) {
      FinalizeSpares(FailBody(t, h, kind, retryAt, now), h.root, now, id);
    }
  }

  lemma BatchTail(batch: seq<Job>, id: JobId)
    requires batch != []
    ensures InBatch(batch, id) <==> batch[0].id == id || InBatch(batch[1..], id)
  {
    assert forall i :: 0 <= i < |batch| - 1 ==> batch[1..][i] == batch[i + 1];
    if i :| 1 <= i < |batch| && batch[i].id == id {
      assert batch[1..][i - 1].id == id;
    }
  }

  /** What a recovery leaves alone: rows that are neither in the batch nor waiting. */
  lemma {:induction false} ReclaimSpares(t: Tables, batch: seq<Job>, now: Time, id: JobId)
    requires id in t.jobs && t.jobs[id].status != Waiting && !InBatch(batch, id)
    ensures var b := ReclaimAll(t, batch, now).jobs; id in b && b[id] == t.jobs[id]
    decreases |batch|
  {
    if batch != [] {
      var h := batch[0];
      assert batch[0].id != id;
      BatchTail(batch, id);
      if h.id in t.jobs {
        FinalizeSpares(ReclaimBody(t, h, now), h.root, now, id);
        ReclaimSpares(ReclaimRow(t, h, now), batch[1..], now, id);
      } else {
        ReclaimSpares(t, batch[1..], now, id);
      }
    }
  }

  lemma {:induction false} ReclaimEnds(t: Tables, batch: seq<Job>, now: Time, id: JobId)
    requires Runs(t.jobs, id) && ExpiredBatch(t.jobs, batch, now)
    ensures var b := ReclaimAll(t, batch, now).jobs;
            id in b && Fate(t.jobs[id], InBatch(batch, id), RecoveryStatus(t.jobs[id]), b[id])
    decreases |batch|
  {
    if !InBatch(batch, id) {
      ReclaimSpares(t, batch, now, id);
    } else {
      var h := batch[0];
      var t1 := ReclaimRow(t, h, now);
      ReclaimTail(t, batch, now);
      FinalizeSpares(ReclaimBody(t, h, now), h.root, now, id);
      if h.id == id {
        forall i | 0 <= i < |batch[1..]| ensures batch[1..][i].id != id {
          assert batch[1..][i] == batch[i + 1];
        }
        ReclaimSpares(t1, batch[1..], now, id);
      } else {
        BatchTail(batch, id);
        ReclaimEnds(t1, batch[1..], now, id);
      }
    }
  }

  lemma InsertsRide(t: Tables, row: Job, id: JobId)
    requires Runs(t.jobs, id) && row.id !in t.jobs
    ensures id in InsertUnlessTaken(t.jobs, row) && Stays(t.jobs[id], InsertUnlessTaken(t.jobs, row)[id])
  {
  }

  lemma CancelRides(t: Tables, other: JobId, now: Time, id: JobId)
    requires Runs(t.jobs, id)
    ensures id in Cancel(t, other, now).jobs && Stays(t.jobs[id], Cancel(t, other, now).jobs[id])
  {
  }

  lemma OthersRide(w: World, a: Action, id: JobId)
    requires Enabled(w, a) && Runs(w.t.jobs, id)
    requires a.ASubmit? || a.AClaim? || a.AHeartbeat? || a.ACancel? || a.ARetry? || a.AReplay?
    ensures id in After(w, a).jobs && Rides(w.t.jobs[id], After(w, a).jobs[id])
    ensures !SetsLease(w.t.jobs, a, id) ==> Stays(w.t.jobs[id], After(w, a).jobs[id])
  {
    match a
    case ASubmit(input, newId, now) => InsertsRide(w.t, SubmittedRow(input, newId, now), id);
    case ACancel(other, now) => CancelRides(w.t, other, now, id);
    case ARetry(other, maxAttempts, hash, newId, now) =>
      if other in w.t.jobs {
        InsertsRide(w.t, SubmittedRow(RetrySubmission(w.t.jobs[other], maxAttempts, hash), newId, now), id);
      }
    case AReplay(entry, maxAttempts, newId, now) => ReplayRides(w.t, entry, maxAttempts, newId, now, id);
    case _ =>
  }

  lemma ReplayRides(t: Tables, entry: nat, maxAttempts: int, newId: JobId, now: Time, id: JobId)
    requires Runs(t.jobs, id) && newId !in t.jobs
    ensures var b := ReplayDLQ(t, entry, maxAttempts, newId, now).jobs; id in b && Stays(t.jobs[id], b[id])
  {
  }

  /** A lease ends in exactly three ways, whatever else happens: the owner's Complete or
      Fail, or the recovery of the row. Every other step of anybody lets it run on. */
  lemma LeaseEndsExactly(w: World, a: Action, id: JobId)
    requires Enabled(w, a) && id in w.t.jobs && w.t.jobs[id].status == Running
    ensures var b := Next(w, a).t.jobs;
            && id in b
            && (EndsLease(w, a, id) ==> b[id].status == EndStatus(w.t.jobs, a, id) && b[id].leaseToken.None?)
            && (!EndsLease(w, a, id) ==> Rides(w.t.jobs[id], b[id]))
            && (!EndsLease(w, a, id) && !SetsLease(w.t.jobs, a, id) ==> Stays(w.t.jobs[id], b[id]))
  {
    match a
    case AComplete(h, r, ids, now) => CompleteEnds(w.t, h, r, ids, now, id);
    case AFail(h, kind, retryAt, now) => FailEnds(w.t, h, kind, retryAt, now, id);
    case AReclaim(batch, now) => ReclaimEnds(w.t, batch, now, id);
    case _ => OthersRide(w, a, id);
  }

  /** The same of the snapshot that owns the row. */
  lemma OwnerLosesExactly(w: World, a: Action, h: Job)
    requires Enabled(w, a) && Owns(w.t.jobs, h)
    ensures !Owns(Next(w, a).t.jobs, h) <==> EndsLease(w, a, h.id)
  {
    LeaseEndsExactly(w, a, h.id);
  }

  /** A lease that a snapshot has lost never comes back to it. */
  lemma LostForGood(w: World, a: Action, h: Job)
    requires WorldInv(w) && Enabled(w, a) && h in w.held && !Owns(w.t.jobs, h)
    ensures !Owns(Next(w, a).t.jobs, h)
  {
    assert HeldOk(w.t, h);
    var row := w.t.jobs[h.id];
    if row.status == Running {
      LeaseEndsExactly(w, a, h.id);
    } else {
      StepKeeps(w, a);
      NewLeaseIsNew(w, a, h.id);
    }
  }

  /** A row that was not running runs afterwards only under the token just drawn. */
  lemma NewLeaseIsNew(w: World, a: Action, id: JobId)
    requires WorldInv(w) && Enabled(w, a) && id in w.t.jobs && w.t.jobs[id].status != Running
    ensures var b := Next(w, a).t.jobs;
            id in b && (b[id].leaseToken.Some? ==> Claims(a) && b[id].leaseToken == Some(a.token))
  {
    assert RowOk(w.t.jobs[id]);
    if !Claims(a) {
      QuietStep(w, a);
    }
  }
}
