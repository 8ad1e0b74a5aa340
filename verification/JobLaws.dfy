/** What each operation leaves behind, column by column. */
module JobLaws {
  import opened Common
  import opened JobTables
  import opened JobInvariant
  import opened JobSteps
  import opened JobRoots

  // ---------------------------------------------------------------------- submission

  /** A new job is pending and due at once, with a full budget and no history. */
  predicate Fresh(row: Job, kind: string, payload: string, maxAttempts: int, now: Time) {
    && row.status == Pending && row.attempts == 0 && row.kind == kind && row.payload == payload
    && row.maxAttempts == (if maxAttempts == 0 then 5 else maxAttempts)
    && row.createdAt == now && row.scheduledAt == now
    && row.lockedBy.None? && row.leaseToken.None? && row.lockedUntil.None? && row.heartbeatAt.None?
    && row.startedAt.None? && row.completedAt.None? && row.cancelRequestedAt.None?
  }

  /** A public submission whose key is new, or empty, becomes a fresh job that is its own
      root; one whose key is taken changes nothing. */
  lemma SubmittedAs(t: Tables, input: Submission, id: JobId, now: Time)
    requires PublicSubmission(input) && id !in t.jobs
    ensures var t' := Submit(t, input, id, now);
            var taken := input.key != "" && exists x <- t.jobs :: t.jobs[x].key == Some(input.key);
            && (taken ==> t' == t)
            && (!taken ==>
                  && t'.jobs.Keys == t.jobs.Keys + {id} && (forall x <- t.jobs :: t'.jobs[x] == t.jobs[x])
                  && t' == t.(jobs := t'.jobs)
                  && Fresh(t'.jobs[id], input.kind, input.payload, input.maxAttempts, now)
                  && t'.jobs[id].id == id && t'.jobs[id].root == id && t'.jobs[id].parent.None?
                  && t'.jobs[id].key == (if input.key == "" then None else Some(input.key))
                  && t'.jobs[id].hash == input.hash && !t'.jobs[id].internal)
  {
  }

  /** Only failed and dead-lettered jobs are tried again: as a fresh root of the same work,
      linked to the old job, which stays as it is. */
  lemma RetriedAs(t: Tables, id: JobId, maxAttempts: int, hash: string, newId: JobId, now: Time)
    requires newId !in t.jobs && 0 <= maxAttempts && RowsInv(t.jobs)
    ensures var t' := Retry(t, id, maxAttempts, hash, newId, now);
            if id in t.jobs && (t.jobs[id].status == Failed || t.jobs[id].status == DeadLettered) then
              && t'.jobs.Keys == t.jobs.Keys + {newId} && (forall x <- t.jobs :: t'.jobs[x] == t.jobs[x])
              && Fresh(t'.jobs[newId], t.jobs[id].kind, t.jobs[id].payload,
                       if maxAttempts == 0 then t.jobs[id].maxAttempts else maxAttempts, now)
              && t'.jobs[newId].root == newId && t'.jobs[newId].retriedFrom == Some(id)
            else t' == t
  {
    if id in t.jobs {
      assert RowOk(t.jobs[id]);
    }
  }

  /** An entry that was not replayed becomes a fresh root of the work it holds, once. */
  lemma ReplayedAs(t: Tables, entry: nat, maxAttempts: int, newId: JobId, now: Time)
    requires newId !in t.jobs && entry < |t.dlq| && t.dlq[entry].job in t.jobs
    ensures var t' := ReplayDLQ(t, entry, maxAttempts, newId, now); var e := t.dlq[entry];
            if e.replayedAs.None? && !t.jobs[e.job].internal then
              && t'.jobs.Keys == t.jobs.Keys + {newId} && (forall x <- t.jobs :: t'.jobs[x] == t.jobs[x])
              && Fresh(t'.jobs[newId], e.kind, e.payload, maxAttempts, now)
              && t'.jobs[newId].root == newId && t'.jobs[newId].replayedFrom == Some(e.job)
              && |t'.dlq| == |t.dlq| && t'.dlq[entry] == e.(replayedAs := Some(newId), replayedAt := Some(now))
              && (forall i :: 0 <= i < |t.dlq| && i != entry ==> t'.dlq[i] == t.dlq[i])
            else t' == t
  {
  }

  // --------------------------------------------------------------------------- claims

  /** The row is leased to the worker, as one more attempt. */
  predicate LeasedTo(before: Job, row: Job, a: Action)
    requires a.AClaim?
  {
    && row.status == Running && row.attempts == before.attempts + 1
    && row.lockedBy == Some(a.worker) && row.leaseToken == Some(a.token)
    && row.lockedUntil == Some(a.now + a.lease) && row.heartbeatAt == Some(a.now)
    && row.startedAt == if before.startedAt.Some? then before.startedAt else Some(a.now)
  }

  /** A claim leases one row to the worker and touches no other. */
  lemma ClaimedAs(w: World, a: Action, id: JobId)
    requires WorldInv(w) && Enabled(w, a) && a.AClaim? && a.pick == Some(id)
    ensures var t, t' := w.t, Next(w, a).t;
            && t'.jobs.Keys == t.jobs.Keys && (forall x <- t.jobs :: x != id ==> t'.jobs[x] == t.jobs[x])
            && LeasedTo(t.jobs[id], t'.jobs[id], a)
            && (id, t'.jobs[id].attempts) !in t.attempts
            && t'.attempts == t.attempts[(id, t'.jobs[id].attempts) := Attempt(a.worker, a.token, InProgress, None)]
  {
    assert RowOk(w.t.jobs[id]);
    ClaimAddsAttempt(w.t, id, a.worker, a.token, a.now, a.lease);
    ClaimColumns(w.t, id, a);
  }

  lemma ClaimColumns(t: Tables, id: JobId, a: Action)
    requires a.AClaim? && id in t.jobs
    ensures var t' := Claim(t, id, a.worker, a.token, a.now, a.lease);
            && t'.jobs.Keys == t.jobs.Keys && (forall x <- t.jobs :: x != id ==> t'.jobs[x] == t.jobs[x])
            && LeasedTo(t.jobs[id], t'.jobs[id], a)
            && t'.attempts == t.attempts[(id, t'.jobs[id].attempts) := Attempt(a.worker, a.token, InProgress, None)]
  {
  }

  // --------------------------------------------------------------------- ending a lease

  /** The row has left its lease with the status, and its attempt ends with the outcome. */
  predicate Left(t: Tables, t': Tables, id: JobId, status: Status, outcome: AttemptStatus, now: Time)
    requires id in t.jobs
  {
    var k := (id, t.jobs[id].attempts);
    && id in t'.jobs && t'.jobs[id].status == status && t'.jobs[id].attempts == t.jobs[id].attempts
    && t'.jobs[id].lockedBy.None? && t'.jobs[id].leaseToken.None?
    && t'.jobs[id].lockedUntil.None? && t'.jobs[id].heartbeatAt.None?
    && t'.jobs[id].completedAt ==
       (if status == Pending || status == RetryScheduled || status == Waiting then None else Some(now))
    && k in t.attempts && k in t'.attempts
    && t'.attempts[k] == t.attempts[k].(status := outcome, finishedAt := Some(now))
  }

  /** The attempt of an owner is the one its row names, and it runs under its token. */
  lemma OwnAttempt(w: World, h: Job)
    requires WorldInv(w) && h in w.held && Owns(w.t.jobs, h)
    ensures h.attempts == w.t.jobs[h.id].attempts && (h.id, h.attempts) in w.t.attempts
    ensures w.t.attempts[(h.id, h.attempts)].token == h.leaseToken.value
    ensures h.root == w.t.jobs[h.id].root && h.maxAttempts == w.t.jobs[h.id].maxAttempts
    ensures h.id !in w.t.results && h.attempts <= h.maxAttempts
  {
    OwnerIsCurrent(w, h);
    assert HeldOk(w.t, h);
    assert RowOk(w.t.jobs[h.id]);
  }

  lemma FinalizeKeepsOthers(t: Tables, root: JobId, now: Time, id: JobId)
    requires id in t.jobs && (t.jobs[id].status != Waiting || id != root)
    ensures var t' := FinalizeRoot(t, root, now);
            && id in t'.jobs && t'.jobs[id] == t.jobs[id] && t'.attempts == t.attempts && t'.jobs.Keys == t.jobs.Keys
            && t.dlq <= t'.dlq && (id in t.results ==> id in t'.results && t'.results[id] == t.results[id])
            && (forall x <- t.jobs :: t'.jobs[x].key == t.jobs[x].key)
  {
  }

  /** An owner's Complete completes the job, or lets a root with children wait for them; a
      completed job keeps the result it returned; afterwards every child it returned has a
      job of that key. */
  lemma CompletedAs(w: World, a: Action)
    requires WorldInv(w) && Enabled(w, a) && a.AComplete? && Owns(w.t.jobs, a.h)
    ensures var t' := Next(w, a).t; var waits := a.result.children != [] && w.t.jobs[a.h.id].root == a.h.id;
            && Left(w.t, t', a.h.id, if waits then Waiting else Completed, Ended(Completed), a.now)
            && (!waits && a.result.result != "" && a.result.result != "null" ==>
                  a.h.id in t'.results && t'.results[a.h.id] == a.result.result)
            && (forall c <- a.result.children :: HasKey(t'.jobs, c.key))
  {
    var t, h, r := w.t, a.h, a.result;
    OwnAttempt(w, h);
    var t1 := EndLease(t, h, h.leaseToken, CompletionStatus(h, r), Ended(Completed), t.jobs[h.id].scheduledAt, a.now);
    InsertChildrenFrame(t1.jobs, h, r.children, a.ids, a.now);
    ChildrenHaveJobs(t1.jobs, h, r.children, a.ids, a.now);
    var t2 := CompleteBody(t, h, r, a.ids, a.now);
    assert t2.jobs[h.id] == t1.jobs[h.id] && t2.attempts == t1.attempts;
    if CompletionStatus(h, r) == Completed && h.id != h.root {
      FinalizeKeepsOthers(t2, h.root, a.now, h.id);
      KeysStay(t2, h.root, a.now);
    }
  }

  predicate HasKey(jobs: map<JobId, Job>, key: string) {
    exists x <- jobs :: jobs[x].key == Some(key)
  }

  lemma KeysStay(t: Tables, root: JobId, now: Time)
    ensures forall key :: HasKey(t.jobs, key) ==> HasKey(FinalizeRoot(t, root, now).jobs, key)
  {
    forall key | HasKey(t.jobs, key) ensures HasKey(FinalizeRoot(t, root, now).jobs, key) {
      var x :| x in t.jobs && t.jobs[x].key == Some(key);
      assert FinalizeRoot(t, root, now).jobs[x].key == Some(key);
    }
  }

  lemma {:induction false} ChildrenHaveJobs(
    jobs: map<JobId, Job>, h: Job, children: seq<Submission>, ids: seq<JobId>, now: Time)
    requires |ids| == |children| && FreshIds(jobs, ids)
    ensures forall c <- children :: HasKey(InsertChildren(jobs, h, children, ids, now), c.key)
    decreases children
  {
    if children != [] {
      var row := ChildRow(h, children[0], ids[0], now);
      var jobs1 := InsertUnlessTaken(jobs, row);
      ChildrenHaveJobs(jobs1, h, children[1..], ids[1..], now);
      InsertChildrenFrame(jobs1, h, children[1..], ids[1..], now);
      FirstChildHasJob(jobs, row);
      var jobs' := InsertChildren(jobs, h, children, ids, now);
      var x :| x in jobs1 && jobs1[x].key == Some(children[0].key);
      assert x in jobs' && jobs'[x].key == Some(children[0].key);
      forall c <- children ensures HasKey(jobs', c.key) {
        assert c == children[0] || c in children[1..];
      }
    }
  }

  lemma FirstChildHasJob(jobs: map<JobId, Job>, row: Job)
    requires row.key.Some?
    ensures HasKey(InsertUnlessTaken(jobs, row), row.key.value)
  {
    if !KeyTaken(jobs, row.key) {
      assert jobs[row.id := row][row.id].key == row.key;
    }
  }

  /** A row that a Complete adds is a fresh internal job of one of the children, in the
      family of the parent. */
  lemma ChildAs(w: World, a: Action, id: JobId)
    requires WorldInv(w) && Enabled(w, a) && a.AComplete? && id in Next(w, a).t.jobs && id !in w.t.jobs
    ensures Owns(w.t.jobs, a.h)
    ensures exists c <- a.result.children :: ChildOf(Next(w, a).t.jobs[id], a.h, c, a.now)
  {
    var t, h, r := w.t, a.h, a.result;
    var t1 := EndLease(t, h, h.leaseToken, CompletionStatus(h, r), Ended(Completed), t.jobs[h.id].scheduledAt, a.now);
    var t2 := CompleteBody(t, h, r, a.ids, a.now);
    AddedChild(t1.jobs, h, r.children, a.ids, a.now, id);
    if CompletionStatus(h, r) == Completed && h.id != h.root {
      assert t2.jobs[id].status == Pending;
      FinalizeKeepsOthers(t2, h.root, a.now, id);
    }
  }

  predicate ChildOf(row: Job, h: Job, c: Submission, now: Time) {
    && Fresh(row, c.kind, c.payload, c.maxAttempts, now) && row.key == Some(c.key) && row.hash == c.hash
    && row.internal && row.root == h.root && row.parent == Some(h.id)
  }

  lemma {:induction false} AddedChild(
    jobs: map<JobId, Job>, h: Job, children: seq<Submission>, ids: seq<JobId>, now: Time, id: JobId)
    requires |ids| == |children| && FreshIds(jobs, ids) && id !in jobs
    requires id in InsertChildren(jobs, h, children, ids, now)
    ensures exists c <- children :: ChildOf(InsertChildren(jobs, h, children, ids, now)[id], h, c, now)
    decreases children
  {
    assert children != [];
    var row := ChildRow(h, children[0], ids[0], now);
    var jobs1 := InsertUnlessTaken(jobs, row);
    if id in jobs1 {
      InsertChildrenFrame(jobs1, h, children[1..], ids[1..], now);
      assert ChildOf(row, h, children[0], now) && children[0] in children;
    } else {
      AddedChild(jobs1, h, children[1..], ids[1..], now, id);
      var c :| c in children[1..] && ChildOf(InsertChildren(jobs, h, children, ids, now)[id], h, c, now);
      assert c in children;
    }
  }

  /** An owner's Fail: a permanent error fails the job, a cancelled one cancels it, and a
      transient one schedules a retry while attempts are left and dead-letters it after
      the last. */
  lemma FailedAs(w: World, a: Action)
    requires WorldInv(w) && Enabled(w, a) && a.AFail? && Owns(w.t.jobs, a.h)
    ensures var row, t' := w.t.jobs[a.h.id], Next(w, a).t;
            && (a.kind == Permanent ==> Left(w.t, t', a.h.id, Failed, Ended(Failed), a.now))
            && (a.kind == CancelledKind ==> Left(w.t, t', a.h.id, Cancelled, Ended(Cancelled), a.now))
            && (a.kind == Transient && row.attempts < row.maxAttempts ==>
                  Left(w.t, t', a.h.id, RetryScheduled, Ended(RetryScheduled), a.now) &&
                  t'.jobs[a.h.id].scheduledAt == a.retryAt)
            && (a.kind == Transient && row.attempts == row.maxAttempts ==>
                  Left(w.t, t', a.h.id, DeadLettered, Ended(DeadLettered), a.now) &&
                  EntryFor(w.t.dlq, t'.dlq, row))
  {
    var h := a.h;
    OwnAttempt(w, h);
    assert HeldOk(w.t, h);
    var t1 := FailBody(w.t, h, a.kind, a.retryAt, a.now);
    if Terminal(FailureStatus(h, a.kind)) && h.id != h.root {
      FinalizeKeepsOthers(t1, h.root, a.now, h.id);
    }
  }

  /** One entry more for the job, with its work and the attempts it took. */
  predicate EntryFor(dlq: seq<DlqRow>, dlq': seq<DlqRow>, row: Job) {
    dlq + [DlqRow(row.id, row.kind, row.payload, row.attempts, None, None)] <= dlq'
  }

  /** An expired lease: cancelled if that was asked for, dead-lettered after the last
      attempt, and otherwise pending again, on its old schedule. */
  lemma RecoveredAs(t: Tables, row: Job, now: Time)
    requires Inv(t) && row.id in t.jobs && row == t.jobs[row.id] && row.status == Running
    ensures var t' := ReclaimRow(t, row, now);
            && (row.cancelRequestedAt.Some? ==> Left(t, t', row.id, Cancelled, Abandoned, now))
            && (row.cancelRequestedAt.None? && row.attempts == row.maxAttempts ==>
                  Left(t, t', row.id, DeadLettered, Abandoned, now) && EntryFor(t.dlq, t'.dlq, row))
            && (row.cancelRequestedAt.None? && row.attempts < row.maxAttempts ==>
                  Left(t, t', row.id, Pending, Abandoned, now) &&
                  t'.jobs[row.id].scheduledAt == row.scheduledAt)
  {
    assert RowOk(row);
    var t1 := ReclaimBody(t, row, now);
    if Terminal(RecoveryStatus(row)) && row.id != row.root {
      FinalizeKeepsOthers(t1, row.root, now, row.id);
    }
  }

  // ------------------------------------------------------------------ roots and families

  /** The verdict on a root whose descendants have all finished. */
  lemma VerdictMeans(jobs: map<JobId, Job>, root: JobId)
    requires forall x <- jobs :: jobs[x].root == root && x != root ==>
               jobs[x].status == Completed || jobs[x].status == Failed || jobs[x].status == Cancelled ||
               jobs[x].status == DeadLettered
    ensures !HasActive(jobs, root)
    ensures Verdict(jobs, root) == DeadLettered <==>
            exists x <- jobs :: jobs[x].root == root && x != root && jobs[x].status == DeadLettered
    ensures Verdict(jobs, root) == Completed <==>
            forall x <- jobs :: jobs[x].root == root && x != root ==> jobs[x].status == Completed
    ensures Verdict(jobs, root) in {DeadLettered, Failed, Completed}
  {
    forall x <- jobs ensures Descendant(jobs, root, x) <==> jobs[x].root == root && x != root {
    }
  }

  /** Finalising a waiting root that has no active descendant finishes it with the verdict;
      a completed one has a result then and a dead one an entry. Otherwise nothing
      changes. */
  lemma FinalizedAs(t: Tables, root: JobId, now: Time)
    ensures var t' := FinalizeRoot(t, root, now);
            if root in t.jobs && t.jobs[root].status == Waiting && !HasActive(t.jobs, root) then
              && t'.jobs == t.jobs[root := t.jobs[root].(status := Verdict(t.jobs, root), completedAt := Some(now))]
              && (Verdict(t.jobs, root) == Completed ==> root in t'.results)
              && (Verdict(t.jobs, root) == DeadLettered ==> EntryFor(t.dlq, t'.dlq, t.jobs[root]))
            else t' == t
  {
  }

  /** Whether something of the family is still to be done or under way. */
  lemma ActiveMeans(jobs: map<JobId, Job>, root: JobId)
    ensures HasActive(jobs, root) <==>
            exists x <- jobs :: jobs[x].root == root && x != root &&
                                (jobs[x].status == Pending || jobs[x].status == Running ||
                                 jobs[x].status == Waiting || jobs[x].status == RetryScheduled)
  {
    if x :| x in jobs && jobs[x].root == root && x != root &&
            (jobs[x].status == Pending || jobs[x].status == Running ||
             jobs[x].status == Waiting || jobs[x].status == RetryScheduled)
    {
      assert Descendant(jobs, root, x) && Active(jobs[x].status);
    }
  }

  /** A row that is not running is cancelled at once, and a running one is asked to stop,
      at the time of the first request. */
  predicate Stopped(a: Job, b: Job, now: Time) {
    if a.status == Running then
      b == a.(cancelRequestedAt := if a.cancelRequestedAt.Some? then a.cancelRequestedAt else Some(now))
    else b == a.(status := Cancelled, cancelRequestedAt := Some(now), completedAt := Some(now))
  }

  /** Cancelling a job that is not finished stops it; cancelling a waiting root stops its
      whole family. Nothing else changes. */
  lemma CancelledAs(t: Tables, id: JobId, now: Time, x: JobId)
    requires id in t.jobs && x in t.jobs
    ensures var t' := Cancel(t, id, now);
            var meant := t.jobs[id].status != Completed && t.jobs[id].status != Failed &&
                         t.jobs[id].status != DeadLettered && t.jobs[id].status != Cancelled &&
                         (x == id || (t.jobs[id].status == Waiting && t.jobs[x].root == t.jobs[id].root));
            var open := t.jobs[x].status == Pending || t.jobs[x].status == RetryScheduled ||
                        t.jobs[x].status == Waiting || t.jobs[x].status == Running;
            && t'.jobs.Keys == t.jobs.Keys && t' == t.(jobs := t'.jobs)
            && (meant && open ==> Stopped(t.jobs[x], t'.jobs[x], now))
            && (!meant || !open ==> t'.jobs[x] == t.jobs[x])
  {
  }
}
