/** The tables together with the workers: every claim ever handed out may be used again,
    at any time and any number of times, by a worker that no longer holds the lease. */
module JobSteps {
  import opened Common
  import opened JobTables
  import opened JobInvariant

  /** `held` are the rows returned by Claim so far; `issued` the tokens drawn so far. */
  datatype World = World(t: Tables, held: set<Job>, issued: set<Token>)

  datatype Action =
    | ASubmit(input: Submission, newId: JobId, now: Time)
    | AClaim(worker: WorkerId, token: Token, lease: Time, locked: set<JobId>, pick: Option<JobId>, now: Time)
    | AHeartbeat(h: Job, lease: Time, now: Time)
    | AComplete(h: Job, result: HandlerResult, ids: seq<JobId>, now: Time)
    | AFail(h: Job, kind: ErrorKind, retryAt: Time, now: Time)
    | ACancel(id: JobId, now: Time)
    | ARetry(id: JobId, maxAttempts: int, hash: string, newId: JobId, now: Time)
    | AReplay(entry: nat, maxAttempts: int, newId: JobId, now: Time)
    | AReclaim(batch: seq<Job>, now: Time)

  const EMPTY := World(Tables(map[], map[], [], map[]), {}, {})

  /** What the HTTP API lets a client submit. */
  predicate PublicSubmission(input: Submission) {
    && input.root.None? && input.parent.None? && !input.internal && input.replayedFrom.None?
    && 0 <= input.maxAttempts
  }

  predicate FreshIds(jobs: map<JobId, Job>, ids: seq<JobId>) {
    && (forall i :: 0 <= i < |ids| ==> ids[i] !in jobs)
    && (forall i, j :: 0 <= i < j < |ids| ==> ids[i] != ids[j])
  }

  predicate NonNegativeBudgets(children: seq<Submission>) {
    forall i :: 0 <= i < |children| ==> 0 <= children[i].maxAttempts
  }

  ghost predicate Enabled(w: World, a: Action) {
    match a
    case ASubmit(input, newId, _) => PublicSubmission(input) && newId !in w.t.jobs
    case AClaim(_, token, _, locked, pick, now) =>
      && token !in w.issued
      && (pick.Some? ==> Oldest(w.t.jobs, now, locked, pick.value))
      && (pick.None? ==> forall id <- w.t.jobs :: !Eligible(w.t.jobs, now, locked, id))
    case AHeartbeat(h, _, _) => h in w.held
    case AComplete(h, r, ids, _) =>
      h in w.held && |ids| == |r.children| && FreshIds(w.t.jobs, ids) && NonNegativeBudgets(r.children)
    case AFail(h, _, _, _) => h in w.held
    case ACancel(_, _) => true
    case ARetry(_, maxAttempts, _, newId, _) => newId !in w.t.jobs && 0 <= maxAttempts
    case AReplay(_, maxAttempts, newId, _) => newId !in w.t.jobs && 0 <= maxAttempts
    case AReclaim(batch, now) => ExpiredBatch(w.t.jobs, batch, now)
  }

  ghost function After(w: World, a: Action): Tables
    requires Enabled(w, a)
  {
    match a
    case ASubmit(input, newId, now) => Submit(w.t, input, newId, now)
    case AClaim(worker, token, lease, _, pick, now) =>
      if pick.None? then w.t else Claim(w.t, pick.value, worker, token, now, lease)
    case AHeartbeat(h, lease, now) => Heartbeat(w.t, h, now, lease)
    case AComplete(h, r, ids, now) => Complete(w.t, h, r, ids, now)
    case AFail(h, kind, retryAt, now) => Fail(w.t, h, kind, retryAt, now)
    case ACancel(id, now) => Cancel(w.t, id, now)
    case ARetry(id, maxAttempts, hash, newId, now) => Retry(w.t, id, maxAttempts, hash, newId, now)
    case AReplay(entry, maxAttempts, newId, now) => ReplayDLQ(w.t, entry, maxAttempts, newId, now)
    case AReclaim(batch, now) => ReclaimAll(w.t, batch, now)
  }

  ghost predicate Claims(a: Action) {
    a.AClaim? && a.pick.Some?
  }

  ghost function Next(w: World, a: Action): World
    requires Enabled(w, a)
  {
    var t' := After(w, a);
    World(t',
          if Claims(a) && a.pick.value in t'.jobs then w.held + {t'.jobs[a.pick.value]} else w.held,
          if a.AClaim? then w.issued + {a.token} else w.issued)
  }

  // ----------------------------------------------------------------- the invariant

  /** A claim snapshot still describes its job and its attempt row. */
  predicate HeldOk(t: Tables, h: Job) {
    && h.id in t.jobs && SameIdentity(t.jobs[h.id], h)
    && h.leaseToken.Some? && h.lockedBy.Some?
    && (h.id, h.attempts) in t.attempts
    && t.attempts[(h.id, h.attempts)].token == h.leaseToken.value
  }

  predicate TokensDiffer(attempts: map<(JobId, nat), Attempt>, k: (JobId, nat), l: (JobId, nat)) {
    k in attempts && l in attempts && (k != l ==> attempts[k].token != attempts[l].token)
  }

  ghost predicate TokensInv(attempts: map<(JobId, nat), Attempt>, issued: set<Token>) {
    && (forall k <- attempts :: attempts[k].token in issued)
    && (forall k, l {:trigger TokensDiffer(attempts, k, l)} ::
          k in attempts && l in attempts ==> TokensDiffer(attempts, k, l))
  }

  predicate SameClaim(w: World, g: Job, h: Job) {
    g in w.held && h in w.held && (g.leaseToken == h.leaseToken ==> g == h)
  }

  ghost predicate HeldInv(w: World) {
    && (forall h <- w.held :: HeldOk(w.t, h) && h.leaseToken.value in w.issued)
    && (forall g, h {:trigger SameClaim(w, g, h)} :: g in w.held && h in w.held ==> SameClaim(w, g, h))
  }

  ghost predicate WorldInv(w: World) {
    Inv(w.t) && TokensInv(w.t.attempts, w.issued) && HeldInv(w)
  }

  /** The token of a running row belongs to its current attempt and to no other. */
  lemma OwnerIsCurrent(w: World, h: Job)
    requires WorldInv(w) && h in w.held && Owns(w.t.jobs, h)
    ensures h.attempts == w.t.jobs[h.id].attempts && h.maxAttempts == w.t.jobs[h.id].maxAttempts
    ensures h.root == w.t.jobs[h.id].root
  {
    var k := (h.id, w.t.jobs[h.id].attempts);
    assert HeldOk(w.t, h);
    assert RowOk(w.t.jobs[h.id]);
    assert AttemptOk(w.t.jobs, k, w.t.attempts[k]);
    assert TokensDiffer(w.t.attempts, k, (h.id, h.attempts));
  }

  // -------------------------------------------- what no transaction takes back

  predicate RowEvolves(a: Job, b: Job) {
    && SameIdentity(a, b)
    && a.attempts <= b.attempts
    && (Terminal(a.status) ==> b.status == a.status && b.completedAt == a.completedAt)
    && (b.leaseToken.Some? && b.leaseToken != a.leaseToken ==> b.attempts > a.attempts)
  }

  predicate AttemptEvolves(a: Attempt, b: Attempt) {
    a.token == b.token && a.worker == b.worker && (a.finishedAt.Some? ==> a == b)
  }

  predicate DlqEvolves(a: DlqRow, b: DlqRow) {
    && a.job == b.job && a.kind == b.kind && a.payload == b.payload && a.attempts == b.attempts
    && (a.replayedAs.Some? ==> a == b)
  }

  ghost predicate JobsEvolve(a: map<JobId, Job>, b: map<JobId, Job>) {
    forall id <- a :: id in b && RowEvolves(a[id], b[id])
  }

  ghost predicate AttemptsEvolve(a: map<(JobId, nat), Attempt>, b: map<(JobId, nat), Attempt>) {
    forall k <- a :: k in b && AttemptEvolves(a[k], b[k])
  }

  ghost predicate LogEvolves(a: Tables, b: Tables) {
    && |a.dlq| <= |b.dlq| && (forall i :: 0 <= i < |a.dlq| ==> DlqEvolves(a.dlq[i], b.dlq[i]))
    && (forall id <- a.results :: id in b.results && b.results[id] == a.results[id])
  }

  /** From one state to a later one: identities, terminal rows, finished attempts,
      results and replay marks are final; attempt counts only grow. */
  ghost predicate Evolves(a: Tables, b: Tables) {
    JobsEvolve(a.jobs, b.jobs) && AttemptsEvolve(a.attempts, b.attempts) && LogEvolves(a, b)
  }

  ghost predicate NoNewLease(a: map<JobId, Job>, b: map<JobId, Job>) {
    forall id <- b :: b[id].leaseToken.Some? ==> id in a && a[id].leaseToken == b[id].leaseToken
  }

  /** A transaction that claims nothing: no new attempt row and no new lease. */
  ghost predicate Quiet(a: Tables, b: Tables) {
    Evolves(a, b) && b.attempts.Keys == a.attempts.Keys && NoNewLease(a.jobs, b.jobs)
  }

  lemma EvolvesTransitive(a: Tables, b: Tables, c: Tables)
    requires Evolves(a, b) && Evolves(b, c)
    ensures Evolves(a, c)
  {
    forall id <- a.jobs ensures id in c.jobs && RowEvolves(a.jobs[id], c.jobs[id]) {
      assert RowEvolves(a.jobs[id], b.jobs[id]) && RowEvolves(b.jobs[id], c.jobs[id]);
    }
    forall k <- a.attempts ensures k in c.attempts && AttemptEvolves(a.attempts[k], c.attempts[k]) {
      assert AttemptEvolves(a.attempts[k], b.attempts[k]) && AttemptEvolves(b.attempts[k], c.attempts[k]);
    }
    forall i | 0 <= i < |a.dlq| ensures DlqEvolves(a.dlq[i], c.dlq[i]) {
      assert DlqEvolves(a.dlq[i], b.dlq[i]) && DlqEvolves(b.dlq[i], c.dlq[i]);
    }
  }

  lemma QuietTransitive(a: Tables, b: Tables, c: Tables)
    requires Quiet(a, b) && Quiet(b, c)
    ensures Quiet(a, c)
  {
    EvolvesTransitive(a, b, c);
  }

  /** A transaction that rewrites one row and gives it no new lease. */
  lemma RowQuiet(a: map<JobId, Job>, id: JobId, row: Job)
    requires id in a && RowEvolves(a[id], row) && (row.leaseToken.Some? ==> row.leaseToken == a[id].leaseToken)
    ensures JobsEvolve(a, a[id := row]) && NoNewLease(a, a[id := row])
  {
  }

  lemma InsertQuiet(a: map<JobId, Job>, row: Job)
    requires row.id !in a && row.leaseToken.None?
    ensures JobsEvolve(a, a[row.id := row]) && NoNewLease(a, a[row.id := row])
  {
  }

  lemma LogGrows(a: Tables, b: Tables)
    requires a.dlq <= b.dlq
    requires forall id <- a.results :: id in b.results && b.results[id] == a.results[id]
    ensures LogEvolves(a, b)
  {
  }

  lemma SameAttempts(a: map<(JobId, nat), Attempt>)
    ensures AttemptsEvolve(a, a)
  {
  }

  lemma EndLeaseQuiet(
    t: Tables, h: Job, token: Option<Token>, status: Status, outcome: AttemptStatus, scheduledAt: Time, now: Time)
    requires h.id in t.jobs && t.jobs[h.id].status == Running
    requires (h.id, h.attempts) in t.attempts ==> t.attempts[(h.id, h.attempts)].finishedAt.None?
    ensures Quiet(t, EndLease(t, h, token, status, outcome, scheduledAt, now))
  {
    var t' := EndLease(t, h, token, status, outcome, scheduledAt, now);
    RowQuiet(t.jobs, h.id, t'.jobs[h.id]);
    LogGrows(t, t');
    forall k <- t.attempts ensures k in t'.attempts && AttemptEvolves(t.attempts[k], t'.attempts[k]) {
    }
  }

  lemma FinalizeQuiet(t: Tables, root: JobId, now: Time)
    requires RowsInv(t.jobs)
    ensures Quiet(t, FinalizeRoot(t, root, now))
  {
    var t' := FinalizeRoot(t, root, now);
    if !HasActive(t.jobs, root) && root in t.jobs && t.jobs[root].status == Waiting {
      assert RowOk(t.jobs[root]);
      RowQuiet(t.jobs, root, t'.jobs[root]);
      LogGrows(t, t');
    }
    SameAttempts(t.attempts);
  }

  lemma CancelRowQuiet(t: Tables, id: JobId, row: Job)
    requires id in t.jobs && RowEvolves(t.jobs[id], row) && row.leaseToken == t.jobs[id].leaseToken
    ensures Quiet(t, t.(jobs := t.jobs[id := row]))
  {
    RowQuiet(t.jobs, id, row);
    SameAttempts(t.attempts);
    LogGrows(t, t.(jobs := t.jobs[id := row]));
  }

  lemma CancelFamilyQuiet(t: Tables, jobs': map<JobId, Job>, root: JobId, now: Time)
    requires RowsInv(t.jobs) && FamilyCancelled(t.jobs, jobs', root, now)
    ensures Quiet(t, t.(jobs := jobs'))
  {
    SameAttempts(t.attempts);
    LogGrows(t, t.(jobs := jobs'));
    forall c <- t.jobs ensures RowEvolves(t.jobs[c], jobs'[c]) && jobs'[c].leaseToken == t.jobs[c].leaseToken {
      CancelFamilyRowFacts(t.jobs[c], root, now);
    }
  }

  lemma CancelQuiet(t: Tables, id: JobId, now: Time)
    requires RowsInv(t.jobs)
    ensures Quiet(t, Cancel(t, id, now))
  {
    var t' := Cancel(t, id, now);
    if id in t.jobs && t.jobs[id].status == Waiting {
      CancelFamilyQuiet(t, t'.jobs, t.jobs[id].root, now);
    } else if id in t.jobs {
      assert t'.jobs == t.jobs[id := t'.jobs[id]];
      CancelRowQuiet(t, id, t'.jobs[id]);
    } else {
      SameAttempts(t.attempts);
    }
  }

  lemma InsertUnlessTakenQuiet(t: Tables, row: Job)
    requires row.id !in t.jobs && row.leaseToken.None?
    ensures Quiet(t, t.(jobs := InsertUnlessTaken(t.jobs, row)))
  {
    InsertQuiet(t.jobs, row);
    SameAttempts(t.attempts);
    LogGrows(t, t.(jobs := InsertUnlessTaken(t.jobs, row)));
  }

  lemma ReplayQuiet(t: Tables, entry: nat, maxAttempts: int, newId: JobId, now: Time)
    requires newId !in t.jobs
    ensures Quiet(t, ReplayDLQ(t, entry, maxAttempts, newId, now))
  {
    SameAttempts(t.attempts);
    if Replayable(t, entry) {
      InsertQuiet(t.jobs, ReplayRow(t.dlq[entry], maxAttempts, newId, now));
    }
  }

  lemma HeartbeatQuiet(t: Tables, h: Job, now: Time, lease: Time)
    ensures Quiet(t, Heartbeat(t, h, now, lease))
  {
    var t' := Heartbeat(t, h, now, lease);
    SameAttempts(t.attempts);
    LogGrows(t, t');
    if Extends(t.jobs, h) {
      RowQuiet(t.jobs, h.id, t'.jobs[h.id]);
    }
  }

  /** The attempt a current snapshot names has not finished. */
  lemma CurrentUnfinished(t: Tables, h: Job)
    requires Inv(t) && Current(t, h)
    ensures (h.id, h.attempts) in t.attempts && t.attempts[(h.id, h.attempts)].finishedAt.None?
  {
    var k := (h.id, h.attempts);
    assert RowOk(t.jobs[h.id]);
    assert AttemptOk(t.jobs, k, t.attempts[k]);
  }

  // ------------------------------------------------------------ composite operations

  /** The snapshot a fenced write is made with describes the running row. */
  predicate Current(t: Tables, h: Job) {
    && h.id in t.jobs && t.jobs[h.id].status == Running
    && SameIdentity(t.jobs[h.id], h) && h.attempts == t.jobs[h.id].attempts
  }

  predicate ChildrenAllowed(jobs: map<JobId, Job>, h: Job) {
    && h.root in jobs && jobs[h.root].root == h.root
    && (jobs[h.root].status == Waiting || jobs[h.root].status == Cancelled)
  }

  lemma ChildRowRest(jobs: map<JobId, Job>, h: Job, row: Job, children: seq<Submission>, ids: seq<JobId>)
    requires children != [] && |ids| == |children| && FreshIds(jobs, ids) && NonNegativeBudgets(children)
    requires row.id == ids[0] && ChildrenAllowed(jobs, h)
    ensures var jobs' := InsertUnlessTaken(jobs, row);
            FreshIds(jobs', ids[1..]) && NonNegativeBudgets(children[1..]) && ChildrenAllowed(jobs', h)
  {
  }

  lemma {:induction false} InsertChildrenKeeps(t: Tables, h: Job, children: seq<Submission>, ids: seq<JobId>, now: Time)
    requires Inv(t) && |ids| == |children| && FreshIds(t.jobs, ids) && NonNegativeBudgets(children)
    requires children != [] ==> ChildrenAllowed(t.jobs, h)
    ensures Inv(t.(jobs := InsertChildren(t.jobs, h, children, ids, now)))
    ensures Quiet(t, t.(jobs := InsertChildren(t.jobs, h, children, ids, now)))
    decreases children
  {
    if children == [] {
      assert t.(jobs := t.jobs) == t;
    } else {
      var row := ChildRow(h, children[0], ids[0], now);
      InsertUnlessTakenKeeps(t, row);
      InsertUnlessTakenQuiet(t, row);
      var t1 := t.(jobs := InsertUnlessTaken(t.jobs, row));
      ChildRowRest(t.jobs, h, row, children, ids);
      InsertChildrenKeeps(t1, h, children[1..], ids[1..], now);
      QuietTransitive(t, t1, t.(jobs := InsertChildren(t.jobs, h, children, ids, now)));
    }
  }

  lemma AddResultKeeps(t: Tables, id: JobId, value: string)
    requires Inv(t) && id in t.jobs && t.jobs[id].status == Completed
    ensures var t' := t.(results := AddResult(t.results, id, value)); Inv(t') && Quiet(t, t')
  {
    SameAttempts(t.attempts);
    LogGrows(t, t.(results := AddResult(t.results, id, value)));
  }

  /** After the row of `h` left `running` through Complete, its children may be inserted. */
  lemma EndedAllowsChildren(t: Tables, h: Job, r: HandlerResult, now: Time)
    requires Inv(t) && Current(t, h) && r.children != []
    ensures ChildrenAllowed(EndLease(t, h, h.leaseToken, CompletionStatus(h, r), Ended(Completed),
                                     t.jobs[h.id].scheduledAt, now).jobs, h)
  {
    assert Linked(t.jobs, h.id);
  }

  lemma CompleteBodyKeeps(t: Tables, h: Job, r: HandlerResult, ids: seq<JobId>, now: Time)
    requires Inv(t) && Current(t, h) && h.leaseToken == t.jobs[h.id].leaseToken
    requires |ids| == |r.children| && FreshIds(t.jobs, ids) && NonNegativeBudgets(r.children)
    ensures Inv(CompleteBody(t, h, r, ids, now)) && Quiet(t, CompleteBody(t, h, r, ids, now))
  {
    var status := CompletionStatus(h, r);
    var t1 := EndLease(t, h, h.leaseToken, status, Ended(Completed), t.jobs[h.id].scheduledAt, now);
    EndLeaseKeeps(t, h, h.leaseToken, status, Ended(Completed), t.jobs[h.id].scheduledAt, now);
    CurrentUnfinished(t, h);
    EndLeaseQuiet(t, h, h.leaseToken, status, Ended(Completed), t.jobs[h.id].scheduledAt, now);
    if r.children != [] {
      EndedAllowsChildren(t, h, r, now);
    }
    InsertChildrenKeeps(t1, h, r.children, ids, now);
    var t2 := t1.(jobs := InsertChildren(t1.jobs, h, r.children, ids, now));
    QuietTransitive(t, t1, t2);
    if StoresResult(r, status) {
      assert RowEvolves(t1.jobs[h.id], t2.jobs[h.id]);
      StoredResultKeeps(t, t2, h.id, r.result);
    }
  }

  lemma StoredResultKeeps(t: Tables, t2: Tables, id: JobId, value: string)
    requires Quiet(t, t2) && Inv(t2) && id in t2.jobs && t2.jobs[id].status == Completed
    ensures var t3 := t2.(results := AddResult(t2.results, id, value)); Inv(t3) && Quiet(t, t3)
  {
    AddResultKeeps(t2, id, value);
    QuietTransitive(t, t2, t2.(results := AddResult(t2.results, id, value)));
  }

  lemma FinalizeStep(t: Tables, t1: Tables, root: JobId, now: Time)
    requires Quiet(t, t1) && Inv(t1)
    ensures Inv(FinalizeRoot(t1, root, now)) && Quiet(t, FinalizeRoot(t1, root, now))
  {
    FinalizeKeeps(t1, root, now);
    FinalizeQuiet(t1, root, now);
    QuietTransitive(t, t1, FinalizeRoot(t1, root, now));
  }

  lemma CompleteKeeps(t: Tables, h: Job, r: HandlerResult, ids: seq<JobId>, now: Time)
    requires Inv(t) && (Owns(t.jobs, h) ==> Current(t, h))
    requires |ids| == |r.children| && FreshIds(t.jobs, ids) && NonNegativeBudgets(r.children)
    ensures Inv(Complete(t, h, r, ids, now)) && Quiet(t, Complete(t, h, r, ids, now))
  {
    if Owns(t.jobs, h) {
      CompleteBodyKeeps(t, h, r, ids, now);
      FinalizeStep(t, CompleteBody(t, h, r, ids, now), h.root, now);
    }
  }

  lemma FailBodyKeeps(t: Tables, h: Job, kind: ErrorKind, retryAt: Time, now: Time)
    requires Inv(t) && Current(t, h) && h.leaseToken == t.jobs[h.id].leaseToken
    ensures Inv(FailBody(t, h, kind, retryAt, now)) && Quiet(t, FailBody(t, h, kind, retryAt, now))
  {
    var status := FailureStatus(h, kind);
    var scheduledAt := if status == RetryScheduled then retryAt else t.jobs[h.id].scheduledAt;
    EndLeaseKeeps(t, h, h.leaseToken, status, Ended(status), scheduledAt, now);
    CurrentUnfinished(t, h);
    EndLeaseQuiet(t, h, h.leaseToken, status, Ended(status), scheduledAt, now);
  }

  lemma FailKeeps(t: Tables, h: Job, kind: ErrorKind, retryAt: Time, now: Time)
    requires Inv(t) && (Owns(t.jobs, h) ==> Current(t, h))
    ensures Inv(Fail(t, h, kind, retryAt, now)) && Quiet(t, Fail(t, h, kind, retryAt, now))
  {
    if Owns(t.jobs, h) {
      FailBodyKeeps(t, h, kind, retryAt, now);
      FinalizeStep(t, FailBody(t, h, kind, retryAt, now), h.root, now);
    }
  }

  lemma ReclaimBodyKeeps(t: Tables, h: Job, now: Time)
    requires Inv(t) && Current(t, h)
    ensures Inv(ReclaimBody(t, h, now)) && Quiet(t, ReclaimBody(t, h, now))
  {
    assert MayBecome(t.jobs[h.id], RecoveryStatus(h));
    EndLeaseKeeps(t, h, None, RecoveryStatus(h), Abandoned, t.jobs[h.id].scheduledAt, now);
    CurrentUnfinished(t, h);
    EndLeaseQuiet(t, h, None, RecoveryStatus(h), Abandoned, t.jobs[h.id].scheduledAt, now);
  }

  lemma ReclaimRowKeeps(t: Tables, h: Job, now: Time)
    requires Inv(t) && Current(t, h)
    ensures Inv(ReclaimRow(t, h, now)) && Quiet(t, ReclaimRow(t, h, now))
  {
    ReclaimBodyKeeps(t, h, now);
    FinalizeStep(t, ReclaimBody(t, h, now), h.root, now);
  }

  /** Recovering one row leaves every other running row as it was. */
  lemma ReclaimRowFrame(t: Tables, h: Job, now: Time)
    requires h.id in t.jobs
    ensures ReclaimRow(t, h, now).jobs.Keys == t.jobs.Keys
    ensures forall id <- t.jobs :: id != h.id && t.jobs[id].status == Running ==>
              ReclaimRow(t, h, now).jobs[id] == t.jobs[id]
  {
  }

  lemma ReclaimTail(t: Tables, batch: seq<Job>, now: Time)
    requires batch != [] && ExpiredBatch(t.jobs, batch, now)
    ensures ExpiredBatch(ReclaimRow(t, batch[0], now).jobs, batch[1..], now)
  {
    ReclaimRowFrame(t, batch[0], now);
  }

  lemma {:induction false} ReclaimAllKeeps(t: Tables, batch: seq<Job>, now: Time)
    requires Inv(t) && ExpiredBatch(t.jobs, batch, now)
    ensures Inv(ReclaimAll(t, batch, now)) && Quiet(t, ReclaimAll(t, batch, now))
    ensures ReclaimAll(t, batch, now).jobs.Keys == t.jobs.Keys
    decreases |batch|
  {
    if batch != [] {
      var t1 := ReclaimRow(t, batch[0], now);
      ReclaimRowKeeps(t, batch[0], now);
      ReclaimRowFrame(t, batch[0], now);
      ReclaimTail(t, batch, now);
      ReclaimAllKeeps(t1, batch[1..], now);
      QuietTransitive(t, t1, ReclaimAll(t1, batch[1..], now));
    }
  }

  lemma SubmitKeeps(t: Tables, input: Submission, id: JobId, now: Time)
    requires Inv(t) && PublicSubmission(input) && id !in t.jobs
    ensures Inv(Submit(t, input, id, now)) && Quiet(t, Submit(t, input, id, now))
  {
    InsertUnlessTakenKeeps(t, SubmittedRow(input, id, now));
    InsertUnlessTakenQuiet(t, SubmittedRow(input, id, now));
  }

  lemma RetryKeeps(t: Tables, id: JobId, maxAttempts: int, hash: string, newId: JobId, now: Time)
    requires Inv(t) && newId !in t.jobs && 0 <= maxAttempts
    ensures Inv(Retry(t, id, maxAttempts, hash, newId, now)) && Quiet(t, Retry(t, id, maxAttempts, hash, newId, now))
  {
    if id in t.jobs && Retryable(t.jobs[id].status) {
      assert RowOk(t.jobs[id]);
      SubmitKeeps(t, RetrySubmission(t.jobs[id], maxAttempts, hash), newId, now);
    }
  }

  // ------------------------------------------------------------------- one step

  lemma OwnedIsCurrent(w: World, h: Job)
    requires WorldInv(w) && h in w.held
    ensures Owns(w.t.jobs, h) ==> Current(w.t, h)
  {
    if Owns(w.t.jobs, h) {
      OwnerIsCurrent(w, h);
      assert HeldOk(w.t, h);
    }
  }

  lemma QuietClientStep(w: World, a: Action)
    requires Inv(w.t) && Enabled(w, a) && (a.ASubmit? || a.ACancel? || a.ARetry? || a.AReplay? || a.AReclaim?)
    ensures Inv(After(w, a)) && Quiet(w.t, After(w, a))
  {
    match a
    case ASubmit(input, newId, now) => SubmitKeeps(w.t, input, newId, now);
    case ACancel(id, now) =>
      CancelKeeps(w.t, id, now);
      CancelQuiet(w.t, id, now);
    case ARetry(id, maxAttempts, hash, newId, now) => RetryKeeps(w.t, id, maxAttempts, hash, newId, now);
    case AReplay(entry, maxAttempts, newId, now) =>
      ReplayKeeps(w.t, entry, maxAttempts, newId, now);
      ReplayQuiet(w.t, entry, maxAttempts, newId, now);
    case AReclaim(batch, now) => ReclaimAllKeeps(w.t, batch, now);
  }

  lemma QuietStep(w: World, a: Action)
    requires WorldInv(w) && Enabled(w, a) && !Claims(a)
    ensures Inv(After(w, a)) && Quiet(w.t, After(w, a))
  {
    match a
    case AClaim(_, _, _, _, _, _) => SameAttempts(w.t.attempts); LogGrows(w.t, w.t);
    case AHeartbeat(h, lease, now) =>
      HeartbeatKeeps(w.t, h, now, lease);
      HeartbeatQuiet(w.t, h, now, lease);
    case AComplete(h, r, ids, now) =>
      OwnedIsCurrent(w, h);
      CompleteKeeps(w.t, h, r, ids, now);
    case AFail(h, kind, retryAt, now) =>
      OwnedIsCurrent(w, h);
      FailKeeps(w.t, h, kind, retryAt, now);
    case _ => QuietClientStep(w, a);
  }

  lemma HeldSurvives(a: Tables, b: Tables, h: Job)
    requires Evolves(a, b) && HeldOk(a, h)
    ensures HeldOk(b, h)
  {
    assert RowEvolves(a.jobs[h.id], b.jobs[h.id]);
    var k := (h.id, h.attempts);
    assert AttemptEvolves(a.attempts[k], b.attempts[k]);
  }

  /** A claim adds one attempt row, under a key that was free. */
  lemma ClaimAddsAttempt(t: Tables, id: JobId, worker: WorkerId, token: Token, now: Time, lease: Time)
    requires AttemptsInv(t.jobs, t.attempts) && id in t.jobs && Queued(t.jobs[id].status)
    requires t.jobs[id].completedAt.None?
    ensures var t' := Claim(t, id, worker, token, now, lease);
            && Evolves(t, t')
            && (id, t.jobs[id].attempts + 1) !in t.attempts
            && t'.attempts.Keys == t.attempts.Keys + {(id, t.jobs[id].attempts + 1)}
  {
    var t' := Claim(t, id, worker, token, now, lease);
    var k: (JobId, nat) := (id, t.jobs[id].attempts + 1);
    if k in t.attempts {
      assert false;
    }
    LogGrows(t, t');
    forall i <- t.jobs ensures i in t'.jobs && RowEvolves(t.jobs[i], t'.jobs[i]) {
    }
  }

  lemma ClaimEvolves(w: World, a: Action)
    requires WorldInv(w) && Enabled(w, a) && Claims(a)
    ensures Inv(After(w, a)) && Evolves(w.t, After(w, a))
  {
    var id := a.pick.value;
    assert RowOk(w.t.jobs[id]);
    ClaimKeeps(w.t, id, a.worker, a.token, a.now, a.lease);
    ClaimAddsAttempt(w.t, id, a.worker, a.token, a.now, a.lease);
  }

  lemma HeldKeeps(w: World, w': World, added: set<Job>)
    requires HeldInv(w) && Evolves(w.t, w'.t) && w.issued <= w'.issued && w'.held == w.held + added
    requires forall h <- added :: HeldOk(w'.t, h) && h.leaseToken.value in w'.issued && h.leaseToken.value !in w.issued
    requires forall g, h :: g in added && h in added ==> g == h
    ensures HeldInv(w')
  {
    forall h <- w.held ensures HeldOk(w'.t, h) && h.leaseToken.value in w.issued {
      HeldSurvives(w.t, w'.t, h);
    }
    forall g, h | g in w'.held && h in w'.held ensures SameClaim(w', g, h) {
      if g in w.held && h in w.held {
        assert SameClaim(w, g, h);
      }
    }
  }

  /** Every action keeps the invariant. */
  lemma StepKeeps(w: World, a: Action)
    requires WorldInv(w) && Enabled(w, a)
    ensures WorldInv(Next(w, a)) && Evolves(w.t, Next(w, a).t)
  {
    if Claims(a) {
      ClaimStep(w, a);
    } else {
      OtherStep(w, a);
    }
  }

  lemma ClaimStep(w: World, a: Action)
    requires WorldInv(w) && Enabled(w, a) && Claims(a)
    ensures WorldInv(Next(w, a)) && Evolves(w.t, Next(w, a).t)
  {
    var w' := Next(w, a);
    ClaimEvolves(w, a);
    ClaimKeepsTokens(w, a);
    HeldKeeps(w, w', {w'.t.jobs[a.pick.value]});
  }

  lemma OtherStep(w: World, a: Action)
    requires WorldInv(w) && Enabled(w, a) && !Claims(a)
    ensures WorldInv(Next(w, a)) && Evolves(w.t, Next(w, a).t)
  {
    var w' := Next(w, a);
    QuietStep(w, a);
    QuietKeepsTokens(w.t.attempts, w'.t.attempts, w.issued, w'.issued);
    HeldKeeps(w, w', {});
  }

  lemma QuietKeepsTokens(
    a: map<(JobId, nat), Attempt>, b: map<(JobId, nat), Attempt>, issued: set<Token>, issued': set<Token>)
    requires TokensInv(a, issued) && issued <= issued' && a.Keys == b.Keys
    requires AttemptsEvolve(a, b)
    ensures TokensInv(b, issued')
  {
    forall k, l | k in b && l in b ensures TokensDiffer(b, k, l) {
      assert AttemptEvolves(a[k], b[k]) && AttemptEvolves(a[l], b[l]);
      assert TokensDiffer(a, k, l);
    }
  }

  lemma ClaimKeepsTokens(w: World, a: Action)
    requires WorldInv(w) && Enabled(w, a) && Claims(a)
    ensures TokensInv(Next(w, a).t.attempts, Next(w, a).issued)
    ensures HeldOk(Next(w, a).t, Next(w, a).t.jobs[a.pick.value])
  {
    var w' := Next(w, a);
    var id := a.pick.value;
    var k: (JobId, nat) := (id, w.t.jobs[id].attempts + 1);
    assert w'.t.attempts[k].token == a.token;
    forall l | l in w'.t.attempts && l != k ensures w'.t.attempts[l].token in w.issued {
      assert l in w.t.attempts;
    }
    forall l, m | l in w'.t.attempts && m in w'.t.attempts ensures TokensDiffer(w'.t.attempts, l, m) {
      if l != k && m != k {
        assert TokensDiffer(w.t.attempts, l, m);
      }
    }
  }
}
