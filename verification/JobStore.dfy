/** The ServiceStore operations, statement by statement, over the tables as fields. Each
    method is one transaction and is proved to have the effect its function in JobTables
    describes. */
module JobStore {
  import opened Common
  import opened JobTables
  import opened JobSteps
  import JobLeases
  import JobTimes

  /** Among finitely many eligible rows one comes first. */
  lemma {:induction false} OldestExists(jobs: map<JobId, Job>, ids: set<JobId>) returns (first: JobId)
    requires ids != {} && forall id <- ids :: id in jobs && jobs[id].id == id
    ensures first in ids && forall id <- ids :: Before(jobs[first], jobs[id])
    decreases |ids|
  {
    var x :| x in ids;
    if ids == {x} {
      first := x;
    } else {
      assert ids == (ids - {x}) + {x};
      var y := OldestExists(jobs, ids - {x});
      first := if Before(jobs[x], jobs[y]) then x else y;
      forall id <- ids ensures Before(jobs[first], jobs[id]) {
        if id != x { assert id in ids - {x}; }
      }
    }
  }

  function CancelUnclaimed(row: Job, root: JobId, now: Time): Job {
    if row.root == root && (row.status == Pending || row.status == RetryScheduled || row.status == Waiting)
    then CancelledRow(row, now) else row
  }

  function RequestRunning(row: Job, root: JobId, now: Time): Job {
    if row.root == root && row.status == Running then FirstRequest(row, now) else row
  }

  lemma TwoUpdates(row: Job, root: JobId, now: Time)
    ensures RequestRunning(CancelUnclaimed(row, root, now), root, now) == CancelFamilyRow(row, root, now)
  {
  }

  class Store {
    var jobs: map<JobId, Job>
    var attempts: map<(JobId, nat), Attempt>
    var dlq: seq<DlqRow>
    var results: map<JobId, string>

    function Snapshot(): Tables
      reads this
    {
      Tables(jobs, attempts, dlq, results)
    }

    constructor ()
      ensures Snapshot() == EMPTY.t
    {
      jobs, attempts, dlq, results := map[], map[], [], map[];
    }

    /** A key seen before answers with the job it created, or with a conflict when the
        request differs; the tables are then untouched. */
    method Submit(input: Submission, id: JobId, now: Time) returns (r: Result<(Job, bool), StoreError>)
      requires id !in jobs
      modifies this
      ensures Snapshot() == JobTables.Submit(old(Snapshot()), input, id, now)
      ensures !KeyTaken(old(jobs), PublicKey(input.key)) ==> r == Ok((SubmittedRow(input, id, now), true))
      ensures KeyTaken(old(jobs), PublicKey(input.key)) ==>
                Snapshot() == old(Snapshot()) && exists x <- jobs ::
                  && jobs[x].key == PublicKey(input.key)
                  && r == if jobs[x].hash == input.hash then Ok((jobs[x], false)) else Err(IdempotencyConflict)
    {
      var maxAttempts := input.maxAttempts;
      if maxAttempts == 0 {
        maxAttempts := DEFAULT_MAX_ATTEMPTS;
      }
      var root := if input.root.Some? then input.root.value else id;
      var key := if input.key == "" then None else Some(input.key);
      if key.Some? && exists x <- jobs :: jobs[x].key == key {
        var x :| x in jobs && jobs[x].key == key;
        if jobs[x].hash != input.hash {
          return Err(IdempotencyConflict);
        }
        return Ok((jobs[x], false));
      }
      var row := Job(id, input.kind, input.payload, Pending, 0, maxAttempts, now, now, root, input.parent,
                     input.internal, key, input.hash, None, None, None, None, None, None, None,
                     input.retriedFrom, input.replayedFrom);
      jobs := jobs[id := row];
      return Ok((row, true));
    }

    /** Hands out the oldest eligible row that no other transaction has locked. */
    method Claim(
      worker: WorkerId, token: Token, lease: Time, locked: set<JobId>, now: Time)
      returns (claimed: Option<Job>)
      requires forall id <- jobs :: jobs[id].id == id
      modifies this
      ensures claimed.None? <==> forall id <- old(jobs) :: !Eligible(old(jobs), now, locked, id)
      ensures claimed.None? ==> Snapshot() == old(Snapshot())
      ensures claimed.Some? ==>
                && Oldest(old(jobs), now, locked, claimed.value.id)
                && Snapshot() == JobTables.Claim(old(Snapshot()), claimed.value.id, worker, token, now, lease)
                && claimed.value == jobs[claimed.value.id]
    {
      var eligible := set id <- jobs | id !in locked &&
                                       (jobs[id].status == Pending || jobs[id].status == RetryScheduled)
                                       && jobs[id].scheduledAt <= now;
      if eligible == {} {
        assert forall id <- jobs :: Eligible(jobs, now, locked, id) ==> id in eligible;
        return None;
      }
      ghost var first := OldestExists(jobs, eligible);
      var id :| id in eligible && forall other <- eligible :: Before(jobs[id], jobs[other]);
      assert Eligible(jobs, now, locked, id);
      var row := jobs[id].(
        status := Running, attempts := jobs[id].attempts + 1,
        startedAt := if jobs[id].startedAt.Some? then jobs[id].startedAt else Some(now),
        lockedBy := Some(worker), leaseToken := Some(token),
        lockedUntil := Some(now + lease), heartbeatAt := Some(now));
      jobs := jobs[id := row];
      attempts := attempts[(id, row.attempts) := Attempt(worker, token, InProgress, None)];
      return Some(row);
    }

    /** Reports whether the worker still owns the job and was not asked to stop. */
    method Heartbeat(h: Job, lease: Time, now: Time) returns (owned: bool)
      modifies this
      ensures Snapshot() == JobTables.Heartbeat(old(Snapshot()), h, now, lease)
      ensures owned <==> Owns(old(jobs), h) && old(jobs)[h.id].cancelRequestedAt.None?
    {
      owned := Owns(jobs, h) && jobs[h.id].cancelRequestedAt.None?;
      if owned {
        jobs := jobs[h.id := jobs[h.id].(lockedUntil := Some(now + lease), heartbeatAt := Some(now))];
      }
    }

    method InsertSubmission(h: Job, child: Submission, id: JobId, now: Time)
      modifies this`jobs
      ensures jobs == InsertUnlessTaken(old(jobs), ChildRow(h, child, id, now))
    {
      var maxAttempts := child.maxAttempts;
      if maxAttempts == 0 {
        maxAttempts := DEFAULT_MAX_ATTEMPTS;
      }
      if !exists x <- jobs :: jobs[x].key == Some(child.key) {
        jobs := jobs[id := Job(id, child.kind, child.payload, Pending, 0, maxAttempts, now, now, h.root, Some(h.id),
                               true, Some(child.key), child.hash,
                               None, None, None, None, None, None, None, None, None)];
      }
    }

    /** Counts the family, and closes a waiting root that has nothing left to wait for. */
    method FinalizeRoot(root: JobId, now: Time)
      modifies this
      ensures Snapshot() == JobTables.FinalizeRoot(old(Snapshot()), root, now)
    {
      var verdict := CountDescendants(root);
      if verdict.None? || root !in jobs || jobs[root].status != Waiting {
        return;
      }
      var status := verdict.value;
      jobs := jobs[root := jobs[root].(status := status, completedAt := Some(now))];
      if status == Completed && root !in results {
        results := results[root := AUDIT_SUMMARY];
      }
      if status == DeadLettered {
        dlq := dlq + [DlqRow(jobs[root].id, jobs[root].kind, jobs[root].payload, jobs[root].attempts, None, None)];
      }
    }

    /** The counts of finalizeRoot: nothing while a descendant is active, else the status
        the root is to get. */
    method CountDescendants(root: JobId) returns (verdict: Option<Status>)
      ensures verdict == if HasActive(jobs, root) then None else Some(Verdict(jobs, root))
    {
      var active := set id <- jobs | jobs[id].root == root && id != root && Active(jobs[id].status);
      var dead := set id <- jobs | jobs[id].root == root && id != root && jobs[id].status == DeadLettered;
      var failed := set id <- jobs | jobs[id].root == root && id != root &&
                                     (jobs[id].status == Failed || jobs[id].status == DeadLettered ||
                                      jobs[id].status == Cancelled);
      CountsDecide(jobs, root, active, failed, dead);
      if |active| != 0 {
        return None;
      }
      return Some(if |dead| > 0 then DeadLettered else if |failed| > 0 then Failed else Completed);
    }

    /** Completes the job of the snapshot if the snapshot still owns it. */
    method Complete(h: Job, r: HandlerResult, ids: seq<JobId>, now: Time) returns (outcome: Result<(), StoreError>)
      requires |ids| == |r.children|
      modifies this
      ensures Snapshot() == JobTables.Complete(old(Snapshot()), h, r, ids, now)
      ensures outcome == if Owns(old(jobs), h) then Ok(()) else Err(LeaseLost)
    {
      var status := Completed;
      if |r.children| > 0 && h.id == h.root {
        status := Waiting;
      }
      if !Owns(jobs, h) {
        return Err(LeaseLost);
      }
      jobs := jobs[h.id := jobs[h.id].(
        status := status, lockedBy := None, leaseToken := None, lockedUntil := None, heartbeatAt := None,
        completedAt := if status == Completed then Some(now) else None)];
      FinishAttempt(h, h.leaseToken, Ended(Completed), now);
      ghost var ended := jobs;
      var i := 0;
      while i < |r.children|
        invariant 0 <= i <= |r.children|
        invariant attempts == EndAttempt(old(attempts), h, h.leaseToken, Ended(Completed), now)
        invariant dlq == old(dlq) && results == old(results)
        invariant InsertChildren(jobs, h, r.children[i..], ids[i..], now) ==
                  InsertChildren(ended, h, r.children, ids, now)
      {
        InsertSubmission(h, r.children[i], ids[i], now);
        assert r.children[i..][1..] == r.children[i + 1..] && ids[i..][1..] == ids[i + 1..];
        i := i + 1;
      }
      if r.result != "" && r.result != "null" && status == Completed && h.id !in results {
        results := results[h.id := r.result];
      }
      assert Snapshot() == CompleteBody(old(Snapshot()), h, r, ids, now);
      if status == Completed && h.id != h.root {
        FinalizeRoot(h.root, now);
      }
      return Ok(());
    }

    method FinishAttempt(h: Job, token: Option<Token>, status: AttemptStatus, now: Time)
      modifies this`attempts
      ensures attempts == EndAttempt(old(attempts), h, token, status, now)
    {
      var k := (h.id, h.attempts);
      if k in attempts && (token.None? || attempts[k].token == token.value) {
        attempts := attempts[k := attempts[k].(status := status, finishedAt := Some(now))];
      }
    }

    /** Ends the attempt of the snapshot: retry later, give up, or stop for good. */
    method Fail(h: Job, kind: ErrorKind, retryAt: Time, now: Time) returns (outcome: Result<(), StoreError>)
      modifies this
      ensures Snapshot() == JobTables.Fail(old(Snapshot()), h, kind, retryAt, now)
      ensures outcome == if Owns(old(jobs), h) then Ok(()) else Err(LeaseLost)
    {
      var status := Failed;
      if kind == CancelledKind {
        status := Cancelled;
      }
      if kind == Transient {
        if h.attempts < h.maxAttempts {
          status := RetryScheduled;
        } else {
          status := DeadLettered;
        }
      }
      var completed := status != RetryScheduled;
      if !Owns(jobs, h) {
        return Err(LeaseLost);
      }
      jobs := jobs[h.id := jobs[h.id].(
        status := status, scheduledAt := if status == RetryScheduled then retryAt else jobs[h.id].scheduledAt,
        lockedBy := None, leaseToken := None, lockedUntil := None, heartbeatAt := None,
        completedAt := if completed then Some(now) else None)];
      FinishAttempt(h, h.leaseToken, Ended(status), now);
      if status == DeadLettered {
        dlq := dlq + [DlqRow(h.id, h.kind, h.payload, h.attempts, None, None)];
      }
      assert Snapshot() == FailBody(old(Snapshot()), h, kind, retryAt, now);
      if completed && h.id != h.root {
        FinalizeRoot(h.root, now);
      }
      return Ok(());
    }

    method Cancel(id: JobId, now: Time) returns (r: Result<Job, StoreError>)
      modifies this
      ensures Snapshot() == JobTables.Cancel(old(Snapshot()), id, now)
      ensures r == if id !in old(jobs) then Err(NotFound)
                   else if Active(old(jobs)[id].status) || old(jobs)[id].status == Cancelled then Ok(jobs[id])
                   else Err(Conflict)
    {
      if id !in jobs {
        return Err(NotFound);
      }
      var value := jobs[id];
      if value.status == Pending || value.status == RetryScheduled {
        jobs := jobs[id := value.(status := Cancelled, cancelRequestedAt := Some(now), completedAt := Some(now))];
      } else if value.status == Running {
        jobs := jobs[id := FirstRequest(value, now)];
      } else if value.status == Waiting {
        CancelFamily(value.root, now);
      } else if value.status == Cancelled {
        return Ok(value);
      } else {
        return Err(Conflict);
      }
      return Ok(jobs[id]);
    }

    /** The two updates on the family of a waiting root. */
    method CancelFamily(root: JobId, now: Time)
      modifies this`jobs
      ensures jobs == map i <- old(jobs) :: CancelFamilyRow(old(jobs)[i], root, now)
    {
      ghost var before := jobs;
      jobs := map i <- jobs :: CancelUnclaimed(jobs[i], root, now);
      jobs := map i <- jobs :: RequestRunning(jobs[i], root, now);
      forall i <- before ensures jobs[i] == CancelFamilyRow(before[i], root, now) {
        TwoUpdates(before[i], root, now);
      }
    }

    /** A failed or dead-lettered job is tried again as a new root linked to it. */
    method Retry(
      id: JobId, maxAttempts: int, hash: string, newId: JobId, now: Time)
      returns (r: Result<Job, StoreError>)
      requires newId !in jobs
      modifies this
      ensures Snapshot() == JobTables.Retry(old(Snapshot()), id, maxAttempts, hash, newId, now)
      ensures r.Ok? <==> id in old(jobs) && Retryable(old(jobs)[id].status)
      ensures r.Ok? ==> newId in jobs && r.value == jobs[newId] && r.value.root == newId
      ensures r.Ok? ==> r.value.retriedFrom == Some(old(jobs)[id].id)
      ensures r.Err? ==> r.error == if id in old(jobs) then Conflict else NotFound
    {
      if id !in jobs {
        return Err(NotFound);
      }
      var row := jobs[id];
      if row.status != Failed && row.status != DeadLettered {
        return Err(Conflict);
      }
      var budget := maxAttempts;
      if budget == 0 {
        budget := row.maxAttempts;
      }
      var submitted := Submit(Submission(row.kind, row.payload, budget, "", hash,
                                         None, None, false, Some(row.id), None), newId, now);
      assert !KeyTaken(old(jobs), PublicKey(""));
      return Ok(submitted.value.0);
    }

    method ReplayDLQ(entry: nat, maxAttempts: int, newId: JobId, now: Time) returns (r: Result<Job, StoreError>)
      requires newId !in jobs
      modifies this
      ensures Snapshot() == JobTables.ReplayDLQ(old(Snapshot()), entry, maxAttempts, newId, now)
      ensures r.Ok? <==> Replayable(old(Snapshot()), entry)
      ensures r.Ok? ==> newId in jobs && r.value == jobs[newId] && dlq[entry].replayedAs == Some(newId)
      ensures r.Err? ==> r.error == if entry < |old(dlq)| && old(dlq)[entry].job in old(jobs) &&
                                       !old(jobs)[old(dlq)[entry].job].internal
                                    then Conflict else NotFound
    {
      if entry >= |dlq| || dlq[entry].job !in jobs || jobs[dlq[entry].job].internal {
        return Err(NotFound);
      }
      var source := dlq[entry];
      if source.replayedAs.Some? {
        return Err(Conflict);
      }
      var budget := maxAttempts;
      if budget == 0 {
        budget := DEFAULT_MAX_ATTEMPTS;
      }
      jobs := jobs[newId := Job(newId, source.kind, source.payload, Pending, 0, budget, now, now,
                                newId, None, false, None, "",
                                None, None, None, None, None, None, None, None, Some(source.job))];
      dlq := dlq[entry := source.(replayedAt := Some(now), replayedAs := Some(newId))];
      return Ok(jobs[newId]);
    }

    /** The rows of the SELECT ... FOR UPDATE SKIP LOCKED, in no particular order. */
    method SelectExpired(locked: set<JobId>, now: Time) returns (expired: seq<Job>)
      requires forall id <- jobs :: jobs[id].id == id
      ensures ExpiredBatch(jobs, expired, now)
      ensures forall id <- jobs :: Expired(jobs[id], now) && id !in locked ==> jobs[id] in expired
      ensures forall j <- expired :: j.id !in locked
    {
      var rows := set id <- jobs | jobs[id].status == Running && jobs[id].lockedUntil.Some?
                                   && jobs[id].lockedUntil.value < now && id !in locked;
      expired := [];
      ghost var all := rows;
      while rows != {}
        invariant rows <= all
        invariant ExpiredBatch(jobs, expired, now)
        invariant forall i :: 0 <= i < |expired| ==> expired[i].id in all && expired[i].id !in rows
        invariant forall id <- all :: id in rows || jobs[id] in expired
        decreases |rows|
      {
        var id :| id in rows;
        rows := rows - {id};
        expired := expired + [jobs[id]];
      }
    }

    /** Recovers every expired lease that no other transaction has locked, each once. */
    method ReclaimExpired(locked: set<JobId>, now: Time) returns (count: nat, ghost batch: seq<Job>)
      requires forall id <- jobs :: jobs[id].id == id
      modifies this
      ensures ExpiredBatch(old(jobs), batch, now)
      ensures forall id <- old(jobs) :: Expired(old(jobs)[id], now) && id !in locked ==> old(jobs)[id] in batch
      ensures forall j <- batch :: j.id !in locked
      ensures Snapshot() == ReclaimAll(old(Snapshot()), batch, now)
      ensures count == |batch|
      ensures forall id <- jobs :: id !in locked ==>
                !(jobs[id].status == Running && jobs[id].lockedUntil.Some? && jobs[id].lockedUntil.value < now)
    {
      var expired := SelectExpired(locked, now);
      batch := expired;
      var i := 0;
      while i < |expired|
        invariant 0 <= i <= |expired|
        invariant ExpiredBatch(jobs, expired[i..], now)
        invariant ReclaimAll(Snapshot(), expired[i..], now) == ReclaimAll(old(Snapshot()), expired, now)
      {
        ghost var before := Snapshot();
        ReclaimTail(before, expired[i..], now);
        assert expired[i..][0] == expired[i] && expired[i..][1..] == expired[i + 1..];
        RecoverRow(expired[i], now);
        i := i + 1;
      }
      count := |expired|;
      NothingOverdue(old(Snapshot()), batch, locked, now);
    }

    /** The body of the recovery loop for one selected row. */
    method RecoverRow(value: Job, now: Time)
      requires value.id in jobs
      modifies this
      ensures Snapshot() == ReclaimRow(old(Snapshot()), value, now)
    {
      var status := Pending;
      if value.cancelRequestedAt.Some? {
        status := Cancelled;
      }
      if value.attempts >= value.maxAttempts && status != Cancelled {
        status := DeadLettered;
      }
      var terminal := status == Cancelled || status == DeadLettered;
      jobs := jobs[value.id := jobs[value.id].(
        status := status, lockedBy := None, leaseToken := None, lockedUntil := None, heartbeatAt := None,
        completedAt := if terminal then Some(now) else None)];
      FinishAttempt(value, None, Abandoned, now);
      if status == DeadLettered {
        dlq := dlq + [DlqRow(value.id, value.kind, value.payload, value.attempts, None, None)];
      }
      assert Snapshot() == ReclaimBody(old(Snapshot()), value, now);
      if terminal && value.id != value.root {
        FinalizeRoot(value.root, now);
      }
    }
  }

  lemma NothingOverdue(t: Tables, batch: seq<Job>, locked: set<JobId>, now: Time)
    requires ExpiredBatch(t.jobs, batch, now) && forall id <- t.jobs :: t.jobs[id].id == id
    requires forall id <- t.jobs :: Expired(t.jobs[id], now) && id !in locked ==> t.jobs[id] in batch
    ensures var b := ReclaimAll(t, batch, now).jobs; forall id <- b :: id !in locked ==> !JobTimes.Overdue(b[id], now)
  {
    forall id <- t.jobs | JobTimes.Overdue(t.jobs[id], now) && id !in locked ensures JobLeases.InBatch(batch, id) {
      var i :| 0 <= i < |batch| && batch[i] == t.jobs[id];
      assert batch[i].id == id;
    }
    JobTimes.NoneOverdue(t, batch, locked, now);
  }

  /** The counts of finalizeRoot decide exactly as the verdict over the descendants does. */
  lemma CountsDecide(jobs: map<JobId, Job>, root: JobId, active: set<JobId>, failed: set<JobId>, dead: set<JobId>)
    requires active == set id <- jobs | jobs[id].root == root && id != root && Active(jobs[id].status)
    requires failed == set id <- jobs | jobs[id].root == root && id != root &&
                       (jobs[id].status == Failed || jobs[id].status == DeadLettered || jobs[id].status == Cancelled)
    requires dead == set id <- jobs | jobs[id].root == root && id != root && jobs[id].status == DeadLettered
    ensures HasActive(jobs, root) <==> |active| != 0
    ensures Verdict(jobs, root) == if |dead| > 0 then DeadLettered else if |failed| > 0 then Failed else Completed
  {
    if id :| id in active { assert Descendant(jobs, root, id); }
    if id :| id in failed { assert Descendant(jobs, root, id); }
    if id :| id in dead { assert Descendant(jobs, root, id); }
    if HasActive(jobs, root) {
      var id :| id in jobs && Descendant(jobs, root, id) && Active(jobs[id].status);
      assert id in active;
    }
    if HasDescendantIn(jobs, root, {DeadLettered}) {
      var id :| id in jobs && Descendant(jobs, root, id) && jobs[id].status in {DeadLettered};
      assert id in dead;
    }
    if HasDescendantIn(jobs, root, {Failed, DeadLettered, Cancelled}) {
      var id :| id in jobs && Descendant(jobs, root, id) && jobs[id].status in {Failed, DeadLettered, Cancelled};
      assert id in failed;
    }
  }
}
