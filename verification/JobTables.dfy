/** The PostgreSQL tables of the job service and the effect of every ServiceStore
    operation on them, one transaction at a time.

    Job ids, lease tokens and times are numbers; the calls that draw a fresh id or
    token, and the clock, are parameters. */
module JobTables {
  import opened Common

  type JobId = nat
  type Token = nat
  type WorkerId = string
  type Time = int

  const DEFAULT_MAX_ATTEMPTS := 5

  datatype Status =
    | Pending | Running | Waiting | RetryScheduled
    | Completed | Failed | DeadLettered | Cancelled

  datatype ErrorKind = Transient | Permanent | CancelledKind

  datatype Job = Job(
    id: JobId,
    kind: string,
    payload: string,
    status: Status,
    attempts: nat,
    maxAttempts: int,
    scheduledAt: Time,
    createdAt: Time,
    root: JobId,
    parent: Option<JobId>,
    internal: bool,
    key: Option<string>,
    hash: string,
    lockedBy: Option<WorkerId>,
    leaseToken: Option<Token>,
    lockedUntil: Option<Time>,
    heartbeatAt: Option<Time>,
    cancelRequestedAt: Option<Time>,
    startedAt: Option<Time>,
    completedAt: Option<Time>,
    retriedFrom: Option<JobId>,
    replayedFrom: Option<JobId>)

  datatype AttemptStatus = InProgress | Abandoned | Ended(status: Status)

  datatype Attempt = Attempt(worker: WorkerId, token: Token, status: AttemptStatus, finishedAt: Option<Time>)

  datatype DlqRow = DlqRow(
    job: JobId, kind: string, payload: string, attempts: nat,
    replayedAt: Option<Time>, replayedAs: Option<JobId>)

  /** The `dlq` table is append-only, so a row's id is its position. */
  datatype Tables = Tables(
    jobs: map<JobId, Job>,
    attempts: map<(JobId, nat), Attempt>,
    dlq: seq<DlqRow>,
    results: map<JobId, string>)

  datatype Submission = Submission(
    kind: string, payload: string, maxAttempts: int, key: string, hash: string,
    root: Option<JobId>, parent: Option<JobId>, internal: bool,
    retriedFrom: Option<JobId>, replayedFrom: Option<JobId>)

  datatype HandlerResult = HandlerResult(result: string, children: seq<Submission>)

  datatype StoreError = NotFound | Conflict | IdempotencyConflict | LeaseLost

  predicate Active(s: Status) {
    s == Pending || s == Running || s == Waiting || s == RetryScheduled
  }

  predicate Terminal(s: Status) {
    !Active(s)
  }

  predicate Queued(s: Status) {
    s == Pending || s == RetryScheduled
  }

  // ---------------------------------------------------------------- submission

  function EffectiveMax(n: int): int {
    if n == 0 then DEFAULT_MAX_ATTEMPTS else n
  }

  function NewJob(id: JobId, input: Submission, root: JobId, key: Option<string>, now: Time): Job {
    Job(id, input.kind, input.payload, Pending, 0, EffectiveMax(input.maxAttempts), now, now,
        root, input.parent, input.internal, key, input.hash,
        None, None, None, None, None, None, None, input.retriedFrom, input.replayedFrom)
  }

  predicate KeyTaken(jobs: map<JobId, Job>, key: Option<string>) {
    key.Some? && exists id <- jobs :: jobs[id].key == key
  }

  /** `NULLIF(key, '')`: a public submission without a key has none. */
  function PublicKey(key: string): Option<string> {
    if key == "" then None else Some(key)
  }

  /** `INSERT ... ON CONFLICT (idempotency_key) DO NOTHING`. */
  function InsertUnlessTaken(jobs: map<JobId, Job>, row: Job): map<JobId, Job> {
    if KeyTaken(jobs, row.key) then jobs else jobs[row.id := row]
  }

  function SubmittedRow(input: Submission, id: JobId, now: Time): Job {
    NewJob(id, input, if input.root.Some? then input.root.value else id, PublicKey(input.key), now)
  }

  function Submit(t: Tables, input: Submission, id: JobId, now: Time): Tables {
    t.(jobs := InsertUnlessTaken(t.jobs, SubmittedRow(input, id, now)))
  }

  // ------------------------------------------------------------ claim and lease

  predicate Eligible(jobs: map<JobId, Job>, now: Time, locked: set<JobId>, id: JobId) {
    id in jobs && id !in locked && Queued(jobs[id].status) && jobs[id].scheduledAt <= now
  }

  /** `ORDER BY scheduled_at, created_at, id`. */
  predicate Before(a: Job, b: Job) {
    || a.scheduledAt < b.scheduledAt
    || (a.scheduledAt == b.scheduledAt && a.createdAt < b.createdAt)
    || (a.scheduledAt == b.scheduledAt && a.createdAt == b.createdAt && a.id <= b.id)
  }

  /** `locked` holds the rows that `SKIP LOCKED` passes over. */
  predicate Oldest(jobs: map<JobId, Job>, now: Time, locked: set<JobId>, id: JobId) {
    Eligible(jobs, now, locked, id) &&
    forall other <- jobs :: Eligible(jobs, now, locked, other) ==> Before(jobs[id], jobs[other])
  }

  function ClaimedRow(row: Job, worker: WorkerId, token: Token, now: Time, lease: Time): Job {
    row.(status := Running, attempts := row.attempts + 1,
         startedAt := if row.startedAt.Some? then row.startedAt else Some(now),
         lockedBy := Some(worker), leaseToken := Some(token),
         lockedUntil := Some(now + lease), heartbeatAt := Some(now))
  }

  function Claim(t: Tables, id: JobId, worker: WorkerId, token: Token, now: Time, lease: Time): Tables
    requires id in t.jobs
  {
    var row := ClaimedRow(t.jobs[id], worker, token, now, lease);
    t.(jobs := t.jobs[id := row],
       attempts := t.attempts[(id, row.attempts) := Attempt(worker, token, InProgress, None)])
  }

  /** The ownership predicate of every fenced write: id, status, worker and token. */
  predicate Owns(jobs: map<JobId, Job>, h: Job) {
    && h.id in jobs
    && jobs[h.id].status == Running
    && h.lockedBy.Some? && jobs[h.id].lockedBy == h.lockedBy
    && h.leaseToken.Some? && jobs[h.id].leaseToken == h.leaseToken
  }

  predicate Extends(jobs: map<JobId, Job>, h: Job) {
    Owns(jobs, h) && jobs[h.id].cancelRequestedAt.None?
  }

  function Heartbeat(t: Tables, h: Job, now: Time, lease: Time): Tables {
    if Extends(t.jobs, h)
    then t.(jobs := t.jobs[h.id := t.jobs[h.id].(lockedUntil := Some(now + lease), heartbeatAt := Some(now))])
    else t
  }

  // ------------------------------------------------------------ ending a lease

  function ReleasedRow(row: Job, status: Status, scheduledAt: Time, now: Time): Job {
    row.(status := status, scheduledAt := scheduledAt,
         lockedBy := None, leaseToken := None, lockedUntil := None, heartbeatAt := None,
         completedAt := if Terminal(status) then Some(now) else None)
  }

  /** `token` is None where the statement does not mention the token. */
  function EndAttempt(
    attempts: map<(JobId, nat), Attempt>, h: Job, token: Option<Token>, status: AttemptStatus, now: Time)
    : map<(JobId, nat), Attempt>
  {
    var k := (h.id, h.attempts);
    if k in attempts && (token.Some? ==> attempts[k].token == token.value)
    then attempts[k := attempts[k].(status := status, finishedAt := Some(now))]
    else attempts
  }

  function DeadRow(h: Job): DlqRow {
    DlqRow(h.id, h.kind, h.payload, h.attempts, None, None)
  }

  /** What Complete, Fail and the lease recovery share: the row leaves `running`, its
      attempt ends and a dead job gets its DLQ entry. */
  function EndLease(
    t: Tables, h: Job, token: Option<Token>, status: Status, outcome: AttemptStatus, scheduledAt: Time, now: Time)
    : Tables
    requires h.id in t.jobs
  {
    t.(jobs := t.jobs[h.id := ReleasedRow(t.jobs[h.id], status, scheduledAt, now)],
       attempts := EndAttempt(t.attempts, h, token, outcome, now),
       dlq := if status == DeadLettered then t.dlq + [DeadRow(h)] else t.dlq)
  }

  // ------------------------------------------------------------- root finalising

  predicate Descendant(jobs: map<JobId, Job>, root: JobId, id: JobId) {
    id in jobs && jobs[id].root == root && id != root
  }

  predicate HasActive(jobs: map<JobId, Job>, root: JobId) {
    exists id <- jobs :: Descendant(jobs, root, id) && Active(jobs[id].status)
  }

  predicate HasDescendantIn(jobs: map<JobId, Job>, root: JobId, statuses: set<Status>) {
    exists id <- jobs :: Descendant(jobs, root, id) && jobs[id].status in statuses
  }

  function Verdict(jobs: map<JobId, Job>, root: JobId): Status {
    if HasDescendantIn(jobs, root, {DeadLettered}) then DeadLettered
    else if HasDescendantIn(jobs, root, {Failed, DeadLettered, Cancelled}) then Failed
    else Completed
  }

  const AUDIT_SUMMARY := "audit summary"

  function AddResult(results: map<JobId, string>, id: JobId, value: string): map<JobId, string> {
    if id in results then results else results[id := value]
  }

  /** `seen` is the table the counts are taken from; serial transactions see `t.jobs`. */
  function FinalizeSeen(t: Tables, seen: map<JobId, Job>, root: JobId, now: Time): Tables {
    if HasActive(seen, root) || root !in t.jobs || t.jobs[root].status != Waiting then t
    else
      var status := Verdict(seen, root);
      var row := t.jobs[root].(status := status, completedAt := Some(now));
      t.(jobs := t.jobs[root := row],
         results := if status == Completed then AddResult(t.results, root, AUDIT_SUMMARY) else t.results,
         dlq := if status == DeadLettered then t.dlq + [DeadRow(row)] else t.dlq)
  }

  function FinalizeRoot(t: Tables, root: JobId, now: Time): Tables {
    FinalizeSeen(t, t.jobs, root, now)
  }

  // --------------------------------------------------------- complete and fail

  /** Children carry their key even when it is empty: there is no NULLIF here. */
  function ChildRow(h: Job, child: Submission, id: JobId, now: Time): Job {
    NewJob(id, child.(parent := Some(h.id), internal := true, retriedFrom := None, replayedFrom := None),
           h.root, Some(child.key), now)
  }

  function InsertChildren(
    jobs: map<JobId, Job>, h: Job, children: seq<Submission>, ids: seq<JobId>, now: Time): map<JobId, Job>
    requires |ids| == |children|
    decreases children
  {
    if children == [] then jobs
    else InsertChildren(InsertUnlessTaken(jobs, ChildRow(h, children[0], ids[0], now)), h, children[1..], ids[1..], now)
  }

  function CompletionStatus(h: Job, r: HandlerResult): Status {
    if r.children != [] && h.id == h.root then Waiting else Completed
  }

  predicate StoresResult(r: HandlerResult, status: Status) {
    r.result != "" && r.result != "null" && status == Completed
  }

  /** Complete up to, and without, the final call of finalizeRoot. */
  function CompleteBody(t: Tables, h: Job, r: HandlerResult, ids: seq<JobId>, now: Time): Tables
    requires h.id in t.jobs && |ids| == |r.children|
  {
    var status := CompletionStatus(h, r);
    var ended := EndLease(t, h, h.leaseToken, status, Ended(Completed), t.jobs[h.id].scheduledAt, now);
    ended.(jobs := InsertChildren(ended.jobs, h, r.children, ids, now),
           results := if StoresResult(r, status) then AddResult(ended.results, h.id, r.result) else ended.results)
  }

  function Complete(t: Tables, h: Job, r: HandlerResult, ids: seq<JobId>, now: Time): Tables
    requires |ids| == |r.children|
  {
    if !Owns(t.jobs, h) then t
    else
      var t1 := CompleteBody(t, h, r, ids, now);
      if CompletionStatus(h, r) == Completed && h.id != h.root then FinalizeRoot(t1, h.root, now) else t1
  }

  function FailureStatus(h: Job, kind: ErrorKind): Status {
    match kind
    case CancelledKind => Cancelled
    case Transient => if h.attempts < h.maxAttempts then RetryScheduled else DeadLettered
    case Permanent => Failed
  }

  function FailBody(t: Tables, h: Job, kind: ErrorKind, retryAt: Time, now: Time): Tables
    requires h.id in t.jobs
  {
    var status := FailureStatus(h, kind);
    EndLease(t, h, h.leaseToken, status, Ended(status),
             if status == RetryScheduled then retryAt else t.jobs[h.id].scheduledAt, now)
  }

  function Fail(t: Tables, h: Job, kind: ErrorKind, retryAt: Time, now: Time): Tables {
    if !Owns(t.jobs, h) then t
    else
      var t1 := FailBody(t, h, kind, retryAt, now);
      if Terminal(FailureStatus(h, kind)) && h.id != h.root then FinalizeRoot(t1, h.root, now) else t1
  }

  // ------------------------------------------------------------------- recovery

  predicate Expired(row: Job, now: Time) {
    row.status == Running && row.lockedUntil.Some? && row.lockedUntil.value < now
  }

  function RecoveryStatus(h: Job): Status {
    if h.cancelRequestedAt.Some? then Cancelled
    else if h.attempts >= h.maxAttempts then DeadLettered
    else Pending
  }

  function ReclaimBody(t: Tables, h: Job, now: Time): Tables
    requires h.id in t.jobs
  {
    EndLease(t, h, None, RecoveryStatus(h), Abandoned, t.jobs[h.id].scheduledAt, now)
  }

  function ReclaimRow(t: Tables, h: Job, now: Time): Tables
    requires h.id in t.jobs
  {
    var t1 := ReclaimBody(t, h, now);
    if Terminal(RecoveryStatus(h)) && h.id != h.root then FinalizeRoot(t1, h.root, now) else t1
  }

  /** The loop of ReclaimExpired over the rows it selected. */
  function ReclaimAll(t: Tables, batch: seq<Job>, now: Time): Tables
    decreases |batch|
  {
    if batch == [] then t
    else if batch[0].id !in t.jobs then ReclaimAll(t, batch[1..], now)
    else ReclaimAll(ReclaimRow(t, batch[0], now), batch[1..], now)
  }

  /** The rows one SELECT ... FOR UPDATE SKIP LOCKED may return, in any order. */
  predicate ExpiredBatch(jobs: map<JobId, Job>, batch: seq<Job>, now: Time) {
    && (forall i :: 0 <= i < |batch| ==> batch[i].id in jobs && batch[i] == jobs[batch[i].id] && Expired(batch[i], now))
    && (forall i, j :: 0 <= i < j < |batch| ==> batch[i].id != batch[j].id)
  }

  // --------------------------------------------------------------- cancellation

  function FirstRequest(row: Job, now: Time): Job {
    row.(cancelRequestedAt := if row.cancelRequestedAt.Some? then row.cancelRequestedAt else Some(now))
  }

  function CancelledRow(row: Job, now: Time): Job {
    row.(status := Cancelled, cancelRequestedAt := Some(now), completedAt := Some(now))
  }

  /** The two UPDATE statements on the family of a waiting root. */
  function CancelFamilyRow(row: Job, root: JobId, now: Time): Job {
    if row.root != root then row
    else if Queued(row.status) || row.status == Waiting then CancelledRow(row, now)
    else if row.status == Running then FirstRequest(row, now)
    else row
  }

  function Cancel(t: Tables, id: JobId, now: Time): Tables {
    if id !in t.jobs then t
    else
      match t.jobs[id].status
      case Pending => t.(jobs := t.jobs[id := CancelledRow(t.jobs[id], now)])
      case RetryScheduled => t.(jobs := t.jobs[id := CancelledRow(t.jobs[id], now)])
      case Running => t.(jobs := t.jobs[id := FirstRequest(t.jobs[id], now)])
      case Waiting => t.(jobs := map i <- t.jobs :: CancelFamilyRow(t.jobs[i], t.jobs[id].root, now))
      case _ => t
  }

  // ----------------------------------------------------------- retry and replay

  predicate Retryable(s: Status) {
    s == Failed || s == DeadLettered
  }

  function RetrySubmission(row: Job, maxAttempts: int, hash: string): Submission {
    Submission(row.kind, row.payload, if maxAttempts == 0 then row.maxAttempts else maxAttempts, "", hash,
               None, None, false, Some(row.id), None)
  }

  function Retry(t: Tables, id: JobId, maxAttempts: int, hash: string, newId: JobId, now: Time): Tables {
    if id !in t.jobs || !Retryable(t.jobs[id].status) then t
    else Submit(t, RetrySubmission(t.jobs[id], maxAttempts, hash), newId, now)
  }

  predicate Replayable(t: Tables, entry: nat) {
    && entry < |t.dlq|
    && t.dlq[entry].job in t.jobs && !t.jobs[t.dlq[entry].job].internal
    && t.dlq[entry].replayedAs.None?
  }

  function ReplayRow(source: DlqRow, maxAttempts: int, newId: JobId, now: Time): Job {
    NewJob(newId,
           Submission(source.kind, source.payload, maxAttempts, "", "", None, None, false, None, Some(source.job)),
           newId, None, now)
  }

  function ReplayDLQ(t: Tables, entry: nat, maxAttempts: int, newId: JobId, now: Time): Tables {
    if !Replayable(t, entry) then t
    else
      t.(jobs := t.jobs[newId := ReplayRow(t.dlq[entry], maxAttempts, newId, now)],
         dlq := t.dlq[entry := t.dlq[entry].(replayedAt := Some(now), replayedAs := Some(newId))])
  }
}
