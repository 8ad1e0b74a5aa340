/** What every store transaction keeps. */
module JobInvariant {
  import opened Common
  import opened JobTables

  /** One row on its own: lease columns exactly while running, `completed_at` exactly
      in a terminal state, and the attempt budget. */
  predicate RowOk(j: Job) {
    && (j.status == Running <==> j.lockedBy.Some?)
    && (j.status == Running <==> j.leaseToken.Some?)
    && (j.status == Running <==> j.lockedUntil.Some?)
    && (j.status == Running <==> j.heartbeatAt.Some?)
    && (Terminal(j.status) <==> j.completedAt.Some?)
    && j.attempts <= j.maxAttempts && 1 <= j.maxAttempts
    && (Queued(j.status) ==> j.attempts < j.maxAttempts)
    && (j.status == Running ==> 1 <= j.attempts)
    && (j.status == Waiting ==> j.root == j.id)
  }

  /** What the status of a root may be while it has a descendant in status `child`. */
  predicate RootAllows(root: Status, child: Status) {
    && (root == Waiting || Terminal(root))
    && (Active(child) ==> root == Waiting || root == Cancelled)
  }

  /** The root of a row is a row that is its own root, and allows the row's status. */
  predicate Linked(jobs: map<JobId, Job>, id: JobId) {
    && id in jobs
    && jobs[id].root in jobs
    && jobs[jobs[id].root].root == jobs[id].root
    && (jobs[id].root != id ==> RootAllows(jobs[jobs[id].root].status, jobs[id].status))
  }

  ghost predicate RowsInv(jobs: map<JobId, Job>) {
    forall id <- jobs :: jobs[id].id == id && RowOk(jobs[id])
  }

  ghost predicate FamilyInv(jobs: map<JobId, Job>) {
    forall id {:trigger Linked(jobs, id)} :: id in jobs ==> Linked(jobs, id)
  }

  predicate KeysDiffer(jobs: map<JobId, Job>, a: JobId, b: JobId) {
    a in jobs && b in jobs && (a != b && jobs[a].key.Some? ==> jobs[a].key != jobs[b].key)
  }

  ghost predicate KeysInv(jobs: map<JobId, Job>) {
    forall a, b {:trigger KeysDiffer(jobs, a, b)} :: a in jobs && b in jobs ==> KeysDiffer(jobs, a, b)
  }

  /** The attempt row of `k` against the job it belongs to. */
  predicate AttemptOk(jobs: map<JobId, Job>, k: (JobId, nat), a: Attempt) {
    && k.0 in jobs
    && 1 <= k.1 <= jobs[k.0].attempts
    && (a.status == InProgress <==> jobs[k.0].status == Running && k.1 == jobs[k.0].attempts)
    && (a.status == InProgress <==> a.finishedAt.None?)
    && (a.status == InProgress ==> jobs[k.0].leaseToken == Some(a.token) && jobs[k.0].lockedBy == Some(a.worker))
  }

  /** Attempt rows of a job are exactly 1..attempts; only the last is in progress, and
      only while the job runs, under the lease the job row names. */
  ghost predicate AttemptsInv(jobs: map<JobId, Job>, attempts: map<(JobId, nat), Attempt>) {
    && (forall k <- attempts :: AttemptOk(jobs, k, attempts[k]))
    && (forall id <- jobs, n: nat :: 1 <= n <= jobs[id].attempts ==> (id, n) in attempts)
  }

  ghost predicate InDlq(dlq: seq<DlqRow>, id: JobId) {
    exists i :: 0 <= i < |dlq| && dlq[i].job == id
  }

  /** One DLQ row per dead-lettered job, and none for any other. */
  ghost predicate DlqInv(jobs: map<JobId, Job>, dlq: seq<DlqRow>) {
    && (forall i :: 0 <= i < |dlq| ==> dlq[i].job in jobs && jobs[dlq[i].job].status == DeadLettered)
    && (forall i, j :: 0 <= i < j < |dlq| ==> dlq[i].job != dlq[j].job)
    && (forall id <- jobs :: jobs[id].status == DeadLettered ==> InDlq(dlq, id))
  }

  ghost predicate ReplayedBy(dlq: seq<DlqRow>, source: JobId, id: JobId) {
    exists i :: 0 <= i < |dlq| && dlq[i].job == source && dlq[i].replayedAs == Some(id)
  }

  /** A job was replayed from a DLQ row exactly when that row names it. */
  ghost predicate ReplayInv(jobs: map<JobId, Job>, dlq: seq<DlqRow>) {
    && (forall id <- jobs :: jobs[id].replayedFrom.Some? ==> ReplayedBy(dlq, jobs[id].replayedFrom.value, id))
    && (forall i :: 0 <= i < |dlq| && dlq[i].replayedAs.Some? ==>
          dlq[i].replayedAs.value in jobs && jobs[dlq[i].replayedAs.value].replayedFrom == Some(dlq[i].job))
    && (forall i :: 0 <= i < |dlq| ==> (dlq[i].replayedAs.Some? <==> dlq[i].replayedAt.Some?))
  }

  ghost predicate ResultsInv(jobs: map<JobId, Job>, results: map<JobId, string>) {
    forall id <- results :: id in jobs && jobs[id].status == Completed
  }

  ghost predicate JobsInv(jobs: map<JobId, Job>) {
    RowsInv(jobs) && FamilyInv(jobs) && KeysInv(jobs)
  }

  ghost predicate LogInv(jobs: map<JobId, Job>, dlq: seq<DlqRow>, results: map<JobId, string>) {
    DlqInv(jobs, dlq) && ReplayInv(jobs, dlq) && ResultsInv(jobs, results)
  }

  ghost predicate Inv(t: Tables) {
    JobsInv(t.jobs) && AttemptsInv(t.jobs, t.attempts) && LogInv(t.jobs, t.dlq, t.results)
  }

  // ------------------------------------------------------- changing a single row

  /** The columns that no statement ever changes. */
  predicate SameIdentity(a: Job, b: Job) {
    && a.id == b.id && a.root == b.root && a.key == b.key && a.hash == b.hash && a.internal == b.internal
    && a.kind == b.kind && a.payload == b.payload && a.parent == b.parent
    && a.maxAttempts == b.maxAttempts && a.createdAt == b.createdAt
    && a.retriedFrom == b.retriedFrom && a.replayedFrom == b.replayedFrom
  }

  /** `row` may replace row `id`, as far as its root or its descendants are concerned. */
  ghost predicate Fits(jobs: map<JobId, Job>, id: JobId, row: Job) {
    && (row.root != id && row.root in jobs ==> RootAllows(jobs[row.root].status, row.status))
    && (forall c <- jobs :: Descendant(jobs, id, c) ==> RootAllows(row.status, jobs[c].status))
  }

  lemma RowChangeKeepsFamily(jobs: map<JobId, Job>, id: JobId, row: Job)
    requires FamilyInv(jobs)
    requires id in jobs && row.root == jobs[id].root && Fits(jobs, id, row)
    ensures FamilyInv(jobs[id := row])
  {
    var jobs' := jobs[id := row];
    forall c | c in jobs' ensures Linked(jobs', c) {
      assert Linked(jobs, c);
      if c != id && jobs[c].root == id {
        assert Descendant(jobs, id, c);
      }
    }
  }

  lemma SameKeysKeep(jobs: map<JobId, Job>, jobs': map<JobId, Job>)
    requires KeysInv(jobs) && jobs'.Keys == jobs.Keys && forall id <- jobs :: jobs'[id].key == jobs[id].key
    ensures KeysInv(jobs')
  {
    forall a, b | a in jobs' && b in jobs' ensures KeysDiffer(jobs', a, b) {
      assert KeysDiffer(jobs, a, b);
    }
  }

  lemma RowChangeKeepsJobs(jobs: map<JobId, Job>, id: JobId, row: Job)
    requires JobsInv(jobs)
    requires id in jobs && SameIdentity(jobs[id], row) && RowOk(row) && Fits(jobs, id, row)
    ensures JobsInv(jobs[id := row])
  {
    RowChangeKeepsFamily(jobs, id, row);
    SameKeysKeep(jobs, jobs[id := row]);
  }

  lemma DlqGrows(jobs: map<JobId, Job>, dlq: seq<DlqRow>, id: JobId, row: Job, added: DlqRow)
    requires DlqInv(jobs, dlq) && ReplayInv(jobs, dlq)
    requires id in jobs && jobs[id].status != DeadLettered && row.status == DeadLettered
    requires row.replayedFrom == jobs[id].replayedFrom
    requires added.job == id && added.replayedAs.None? && added.replayedAt.None?
    ensures DlqInv(jobs[id := row], dlq + [added]) && ReplayInv(jobs[id := row], dlq + [added])
  {
    var jobs', dlq' := jobs[id := row], dlq + [added];
    forall x <- jobs' | jobs'[x].status == DeadLettered ensures InDlq(dlq', x) {
      if x == id {
        assert dlq'[|dlq|].job == x;
      } else {
        var i :| 0 <= i < |dlq| && dlq[i].job == x;
        assert dlq'[i].job == x;
      }
    }
    forall x <- jobs' | jobs'[x].replayedFrom.Some? ensures ReplayedBy(dlq', jobs'[x].replayedFrom.value, x) {
      assert jobs[x].replayedFrom == jobs'[x].replayedFrom;
      var i :| 0 <= i < |dlq| && dlq[i].job == jobs[x].replayedFrom.value && dlq[i].replayedAs == Some(x);
      assert dlq'[i] == dlq[i];
    }
  }

  /** The log tables after a row that was not terminal took a new status. */
  lemma RowChangeKeepsLog(
    jobs: map<JobId, Job>, dlq: seq<DlqRow>, results: map<JobId, string>, id: JobId, row: Job, h: Job)
    requires LogInv(jobs, dlq, results)
    requires id in jobs && Active(jobs[id].status) && row.replayedFrom == jobs[id].replayedFrom && h.id == id
    ensures LogInv(jobs[id := row], if row.status == DeadLettered then dlq + [DeadRow(h)] else dlq, results)
  {
    if row.status == DeadLettered {
      DlqGrows(jobs, dlq, id, row, DeadRow(h));
    }
  }

  // -------------------------------------------------------------------- insertion

  /** A row that may be inserted: fresh, pending, unattempted, and either a root or a
      child of a root that is still waiting or was cancelled. */
  ghost predicate Insertable(jobs: map<JobId, Job>, row: Job) {
    && row.id !in jobs
    && !KeyTaken(jobs, row.key)
    && RowOk(row) && row.status == Pending && row.attempts == 0
    && (row.root == row.id ||
        (row.root in jobs && jobs[row.root].root == row.root &&
         (jobs[row.root].status == Waiting || jobs[row.root].status == Cancelled)))
  }

  lemma InsertKeepsJobs(jobs: map<JobId, Job>, row: Job)
    requires JobsInv(jobs) && Insertable(jobs, row)
    ensures JobsInv(jobs[row.id := row])
  {
    var jobs' := jobs[row.id := row];
    forall c | c in jobs' ensures Linked(jobs', c) {
      if c != row.id {
        assert Linked(jobs, c);
      }
    }
    assert row.key.Some? ==> forall id <- jobs :: jobs[id].key != row.key;
    forall a, b | a in jobs' && b in jobs' ensures KeysDiffer(jobs', a, b) {
      if a != row.id && b != row.id {
        assert KeysDiffer(jobs, a, b);
      }
    }
  }

  lemma InsertKeeps(t: Tables, row: Job)
    requires Inv(t) && Insertable(t.jobs, row) && row.replayedFrom.None?
    ensures Inv(t.(jobs := t.jobs[row.id := row]))
  {
    InsertKeepsJobs(t.jobs, row);
    var jobs' := t.jobs[row.id := row];
    forall k <- t.attempts ensures AttemptOk(jobs', k, t.attempts[k]) {
      assert AttemptOk(t.jobs, k, t.attempts[k]);
    }
  }

  lemma InsertUnlessTakenKeeps(t: Tables, row: Job)
    requires Inv(t) && row.replayedFrom.None?
    requires !KeyTaken(t.jobs, row.key) ==> Insertable(t.jobs, row)
    ensures Inv(t.(jobs := InsertUnlessTaken(t.jobs, row)))
  {
    if !KeyTaken(t.jobs, row.key) {
      InsertKeeps(t, row);
    } else {
      assert t.(jobs := t.jobs) == t;
    }
  }

  lemma ReplayKeepsLog(t: Tables, entry: nat, row: Job, now: Time)
    requires LogInv(t.jobs, t.dlq, t.results) && row.id !in t.jobs && Replayable(t, entry)
    requires row.status == Pending && row.replayedFrom == Some(t.dlq[entry].job)
    ensures LogInv(t.jobs[row.id := row],
                   t.dlq[entry := t.dlq[entry].(replayedAt := Some(now), replayedAs := Some(row.id))], t.results)
  {
    var jobs' := t.jobs[row.id := row];
    var dlq' := t.dlq[entry := t.dlq[entry].(replayedAt := Some(now), replayedAs := Some(row.id))];
    forall id <- jobs' | jobs'[id].status == DeadLettered ensures InDlq(dlq', id) {
      var i :| 0 <= i < |t.dlq| && t.dlq[i].job == id;
      assert dlq'[i].job == id;
    }
    forall id <- jobs' | jobs'[id].replayedFrom.Some? ensures ReplayedBy(dlq', jobs'[id].replayedFrom.value, id) {
      if id == row.id {
        assert dlq'[entry].job == row.replayedFrom.value;
      } else {
        var i :| 0 <= i < |t.dlq| && t.dlq[i].job == t.jobs[id].replayedFrom.value && t.dlq[i].replayedAs == Some(id);
        assert dlq'[i] == t.dlq[i];
      }
    }
  }

  lemma ReplayKeeps(t: Tables, entry: nat, maxAttempts: int, newId: JobId, now: Time)
    requires Inv(t) && newId !in t.jobs && 0 <= maxAttempts
    ensures Inv(ReplayDLQ(t, entry, maxAttempts, newId, now))
  {
    if Replayable(t, entry) {
      var row := ReplayRow(t.dlq[entry], maxAttempts, newId, now);
      InsertKeepsJobs(t.jobs, row);
      ReplayKeepsLog(t, entry, row, now);
      var jobs' := t.jobs[newId := row];
      forall k <- t.attempts ensures AttemptOk(jobs', k, t.attempts[k]) {
        assert AttemptOk(t.jobs, k, t.attempts[k]);
      }
    }
  }

  // -------------------------------------------------------------- claim and lease

  lemma ClaimKeeps(t: Tables, id: JobId, worker: WorkerId, token: Token, now: Time, lease: Time)
    requires Inv(t) && id in t.jobs && Queued(t.jobs[id].status)
    ensures Inv(Claim(t, id, worker, token, now, lease))
  {
    var t' := Claim(t, id, worker, token, now, lease);
    var row := t'.jobs[id];
    QueuedRootHasNoDescendants(t.jobs, id);
    assert Linked(t.jobs, id);
    RowChangeKeepsJobs(t.jobs, id, row);
    RowChangeKeepsLog(t.jobs, t.dlq, t.results, id, row, row);
    ClaimKeepsAttempts(t, id, worker, token, now, lease);
  }

  lemma ClaimKeepsAttempts(t: Tables, id: JobId, worker: WorkerId, token: Token, now: Time, lease: Time)
    requires AttemptsInv(t.jobs, t.attempts) && id in t.jobs && Queued(t.jobs[id].status)
    ensures var t' := Claim(t, id, worker, token, now, lease); AttemptsInv(t'.jobs, t'.attempts)
  {
    var t' := Claim(t, id, worker, token, now, lease);
    forall k <- t'.attempts ensures AttemptOk(t'.jobs, k, t'.attempts[k]) {
      if k != (id, t'.jobs[id].attempts) {
        assert AttemptOk(t.jobs, k, t.attempts[k]);
      }
    }
  }

  /** A row that is queued or running has no descendants yet. */
  lemma QueuedRootHasNoDescendants(jobs: map<JobId, Job>, id: JobId)
    requires FamilyInv(jobs) && id in jobs && (Queued(jobs[id].status) || jobs[id].status == Running)
    ensures forall c <- jobs :: !Descendant(jobs, id, c)
  {
    forall c <- jobs ensures !Descendant(jobs, id, c) {
      assert Linked(jobs, c);
    }
  }

  lemma SameStatusKeeps(t: Tables, id: JobId, row: Job)
    requires Inv(t) && id in t.jobs && SameIdentity(t.jobs[id], row) && RowOk(row)
    requires row.status == t.jobs[id].status == Running && row.attempts == t.jobs[id].attempts
    requires row.leaseToken == t.jobs[id].leaseToken && row.lockedBy == t.jobs[id].lockedBy
    ensures Inv(t.(jobs := t.jobs[id := row]))
  {
    QueuedRootHasNoDescendants(t.jobs, id);
    assert Linked(t.jobs, id);
    RowChangeKeepsJobs(t.jobs, id, row);
    RowChangeKeepsLog(t.jobs, t.dlq, t.results, id, row, row);
    forall k <- t.attempts ensures AttemptOk(t.jobs[id := row], k, t.attempts[k]) {
      assert AttemptOk(t.jobs, k, t.attempts[k]);
    }
  }

  lemma HeartbeatKeeps(t: Tables, h: Job, now: Time, lease: Time)
    requires Inv(t)
    ensures Inv(Heartbeat(t, h, now, lease))
  {
    if Extends(t.jobs, h) {
      SameStatusKeeps(t, h.id, t.jobs[h.id].(lockedUntil := Some(now + lease), heartbeatAt := Some(now)));
    }
  }

  // --------------------------------------------------------------- ending a lease

  /** The statuses a running row may move to. */
  predicate MayBecome(row: Job, status: Status) {
    && status != Running
    && (status == Waiting ==> row.root == row.id)
    && (Queued(status) ==> row.attempts < row.maxAttempts)
  }

  lemma EndLeaseKeeps(
    t: Tables, h: Job, token: Option<Token>, status: Status, outcome: AttemptStatus, scheduledAt: Time, now: Time)
    requires Inv(t) && h.id in t.jobs && t.jobs[h.id].status == Running && h.attempts == t.jobs[h.id].attempts
    requires token.Some? ==> token == t.jobs[h.id].leaseToken
    requires outcome != InProgress && MayBecome(t.jobs[h.id], status)
    ensures Inv(EndLease(t, h, token, status, outcome, scheduledAt, now))
  {
    var t' := EndLease(t, h, token, status, outcome, scheduledAt, now);
    var row := t'.jobs[h.id];
    QueuedRootHasNoDescendants(t.jobs, h.id);
    assert Linked(t.jobs, h.id);
    RowChangeKeepsJobs(t.jobs, h.id, row);
    RowChangeKeepsLog(t.jobs, t.dlq, t.results, h.id, row, h);
    EndAttemptKeeps(t, h, token, row, outcome, now);
  }

  lemma EndAttemptKeeps(t: Tables, h: Job, token: Option<Token>, row: Job, outcome: AttemptStatus, now: Time)
    requires AttemptsInv(t.jobs, t.attempts) && h.id in t.jobs && t.jobs[h.id].status == Running
    requires 1 <= h.attempts == t.jobs[h.id].attempts == row.attempts && row.status != Running
    requires token.Some? ==> token == t.jobs[h.id].leaseToken
    requires outcome != InProgress
    ensures AttemptsInv(t.jobs[h.id := row], EndAttempt(t.attempts, h, token, outcome, now))
  {
    var attempts' := EndAttempt(t.attempts, h, token, outcome, now);
    assert AttemptOk(t.jobs, (h.id, h.attempts), t.attempts[(h.id, h.attempts)]);
    forall k <- attempts' ensures AttemptOk(t.jobs[h.id := row], k, attempts'[k]) {
      assert AttemptOk(t.jobs, k, t.attempts[k]);
    }
  }

  // ------------------------------------------------------------- finalising a root

  /** Attempts do not notice a change of a row that is not running before or after it. */
  lemma QuietRowKeepsAttempts(jobs: map<JobId, Job>, attempts: map<(JobId, nat), Attempt>, id: JobId, row: Job)
    requires AttemptsInv(jobs, attempts) && id in jobs && row.attempts == jobs[id].attempts
    requires jobs[id].status != Running && row.status != Running
    ensures AttemptsInv(jobs[id := row], attempts)
  {
    forall k <- attempts ensures AttemptOk(jobs[id := row], k, attempts[k]) {
      assert AttemptOk(jobs, k, attempts[k]);
    }
  }

  lemma FinalizeKeeps(t: Tables, root: JobId, now: Time)
    requires Inv(t)
    ensures Inv(FinalizeRoot(t, root, now))
  {
    var t' := FinalizeRoot(t, root, now);
    if !HasActive(t.jobs, root) && root in t.jobs && t.jobs[root].status == Waiting {
      var row := t'.jobs[root];
      RowChangeKeepsJobs(t.jobs, root, row);
      RowChangeKeepsLog(t.jobs, t.dlq, t.results, root, row, row);
      QuietRowKeepsAttempts(t.jobs, t.attempts, root, row);
    }
  }

  // ------------------------------------------------------------------ cancellation

  lemma CancelQueuedKeeps(t: Tables, id: JobId, now: Time)
    requires Inv(t) && id in t.jobs && Queued(t.jobs[id].status)
    ensures Inv(t.(jobs := t.jobs[id := CancelledRow(t.jobs[id], now)]))
  {
    var row := CancelledRow(t.jobs[id], now);
    QueuedRootHasNoDescendants(t.jobs, id);
    assert Linked(t.jobs, id);
    RowChangeKeepsJobs(t.jobs, id, row);
    RowChangeKeepsLog(t.jobs, t.dlq, t.results, id, row, row);
    QuietRowKeepsAttempts(t.jobs, t.attempts, id, row);
  }

  /** What the family update does to one row. */
  lemma CancelFamilyRowFacts(row: Job, root: JobId, now: Time)
    requires RowOk(row)
    ensures var row' := CancelFamilyRow(row, root, now);
            && RowOk(row') && SameIdentity(row, row') && row'.attempts == row.attempts
            && (row'.status == Running <==> row.status == Running)
            && (row'.status == DeadLettered <==> row.status == DeadLettered)
            && (row.status == Completed ==> row'.status == Completed)
            && row'.leaseToken == row.leaseToken && row'.lockedBy == row.lockedBy
            && (row'.status == row.status || row'.status == Cancelled)
            && (row.root == root && row.status == Waiting ==> row'.status == Cancelled)
            && (row.root != root ==> row' == row)
  {
  }

  /** `jobs'` is `jobs` after the two family statements. */
  ghost predicate FamilyCancelled(jobs: map<JobId, Job>, jobs': map<JobId, Job>, root: JobId, now: Time) {
    jobs'.Keys == jobs.Keys && forall c <- jobs :: jobs'[c] == CancelFamilyRow(jobs[c], root, now)
  }

  lemma CancelFamilyKeepsJobs(jobs: map<JobId, Job>, jobs': map<JobId, Job>, root: JobId, now: Time)
    requires JobsInv(jobs) && root in jobs && jobs[root].status == Waiting && FamilyCancelled(jobs, jobs', root, now)
    ensures JobsInv(jobs')
  {
    forall c | c in jobs'
      ensures Linked(jobs', c) && jobs'[c].id == c && RowOk(jobs'[c]) && jobs'[c].key == jobs[c].key {
      assert Linked(jobs, c);
      CancelFamilyRowFacts(jobs[c], root, now);
      CancelFamilyRowFacts(jobs[jobs[c].root], root, now);
    }
    SameKeysKeep(jobs, jobs');
  }

  lemma CancelFamilyKeepsLog(t: Tables, jobs': map<JobId, Job>, root: JobId, now: Time)
    requires RowsInv(t.jobs) && LogInv(t.jobs, t.dlq, t.results) && FamilyCancelled(t.jobs, jobs', root, now)
    ensures LogInv(jobs', t.dlq, t.results)
  {
    forall c <- t.jobs
      ensures jobs'[c].replayedFrom == t.jobs[c].replayedFrom
      ensures jobs'[c].status == DeadLettered <==> t.jobs[c].status == DeadLettered
      ensures t.jobs[c].status == Completed ==> jobs'[c].status == Completed
    {
      CancelFamilyRowFacts(t.jobs[c], root, now);
    }
  }

  lemma CancelFamilyKeeps(t: Tables, id: JobId, now: Time)
    requires Inv(t) && id in t.jobs && t.jobs[id].status == Waiting
    ensures Inv(Cancel(t, id, now))
  {
    var jobs' := Cancel(t, id, now).jobs;
    assert FamilyCancelled(t.jobs, jobs', id, now);
    CancelFamilyKeepsJobs(t.jobs, jobs', id, now);
    CancelFamilyKeepsLog(t, jobs', id, now);
    forall c <- t.jobs
      ensures jobs'[c].attempts == t.jobs[c].attempts && (jobs'[c].status == Running <==> t.jobs[c].status == Running)
      ensures jobs'[c].leaseToken == t.jobs[c].leaseToken && jobs'[c].lockedBy == t.jobs[c].lockedBy
    {
      CancelFamilyRowFacts(t.jobs[c], id, now);
    }
    forall k <- t.attempts ensures AttemptOk(jobs', k, t.attempts[k]) {
      assert AttemptOk(t.jobs, k, t.attempts[k]);
    }
  }

  lemma CancelKeeps(t: Tables, id: JobId, now: Time)
    requires Inv(t)
    ensures Inv(Cancel(t, id, now))
  {
    if id in t.jobs {
      if Queued(t.jobs[id].status) {
        CancelQueuedKeeps(t, id, now);
      } else if t.jobs[id].status == Running {
        SameStatusKeeps(t, id, FirstRequest(t.jobs[id], now));
      } else if t.jobs[id].status == Waiting {
        CancelFamilyKeeps(t, id, now);
      }
    }
  }
}
