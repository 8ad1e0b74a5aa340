/** Roots that wait for their children: how they leave `waiting`, and when they cannot. */
module JobRoots {
  import opened Common
  import opened JobTables
  import opened JobInvariant
  import opened JobSteps
  import opened JobRuns

  /** A root that finished on its own or through its children stays as it is and never
      again has an active descendant. */
  lemma FinishedRootIsFinal(acts: seq<Action>, i: nat, j: nat, root: JobId)
    requires Run(EMPTY, acts) && i <= j <= |acts| && root in At(EMPTY, acts, i).t.jobs
    requires At(EMPTY, acts, i).t.jobs[root].status in {Completed, Failed, DeadLettered}
    ensures root in At(EMPTY, acts, j).t.jobs
    ensures At(EMPTY, acts, j).t.jobs[root].status == At(EMPTY, acts, i).t.jobs[root].status
    ensures !HasActive(At(EMPTY, acts, j).t.jobs, root)
  {
    FinalIsFinal(acts, i, j, root);
    ReachableInv(acts, j);
    var jobs := At(EMPTY, acts, j).t.jobs;
    forall c <- jobs ensures !(Descendant(jobs, root, c) && Active(jobs[c].status)) {
      assert Linked(jobs, c);
    }
  }

  // -------------------------------------------------------------- leaving `waiting`

  /** If `root` was waiting and no longer is, then no descendant is active and its
      status is the verdict over its descendants. */
  ghost predicate LeavesByVerdict(a: map<JobId, Job>, b: map<JobId, Job>, root: JobId) {
    root in a && a[root].status == Waiting && root in b && b[root].status != Waiting ==>
      !HasActive(b, root) && b[root].status == Verdict(b, root)
  }

  /** What finalizeRoot reads does not depend on the root's own row. */
  lemma RootRowIrrelevant(jobs: map<JobId, Job>, root: JobId, row: Job)
    requires root in jobs && row.root == jobs[root].root
    ensures var jobs' := jobs[root := row];
            && HasActive(jobs', root) == HasActive(jobs, root)
            && Verdict(jobs', root) == Verdict(jobs, root)
  {
    var jobs' := jobs[root := row];
    assert forall c <- jobs :: Descendant(jobs', root, c) == Descendant(jobs, root, c);
    assert forall c <- jobs :: c != root ==> jobs'[c] == jobs[c];
    SameVerdict(jobs, jobs', root);
  }

  /** Two tables with the same descendants of `root` give the same verdict. */
  lemma SameVerdict(a: map<JobId, Job>, b: map<JobId, Job>, root: JobId)
    requires forall c <- a :: Descendant(a, root, c) ==> Descendant(b, root, c) && a[c].status == b[c].status
    requires forall c <- b :: Descendant(b, root, c) ==> Descendant(a, root, c)
    ensures HasActive(a, root) == HasActive(b, root) && Verdict(a, root) == Verdict(b, root)
  {
    SameDescendantsIn(a, b, root, {DeadLettered});
    SameDescendantsIn(a, b, root, {Failed, DeadLettered, Cancelled});
    if HasActive(a, root) {
      var c :| c in a && Descendant(a, root, c) && Active(a[c].status);
      assert c in b;
    }
    if HasActive(b, root) {
      var c :| c in b && Descendant(b, root, c) && Active(b[c].status);
      assert c in a;
    }
  }

  lemma SameDescendantsIn(a: map<JobId, Job>, b: map<JobId, Job>, root: JobId, statuses: set<Status>)
    requires forall c <- a :: Descendant(a, root, c) ==> Descendant(b, root, c) && a[c].status == b[c].status
    requires forall c <- b :: Descendant(b, root, c) ==> Descendant(a, root, c)
    ensures HasDescendantIn(a, root, statuses) == HasDescendantIn(b, root, statuses)
  {
    if HasDescendantIn(a, root, statuses) {
      var c :| c in a && Descendant(a, root, c) && a[c].status in statuses;
      assert c in b;
    }
    if HasDescendantIn(b, root, statuses) {
      var c :| c in b && Descendant(b, root, c) && b[c].status in statuses;
      assert c in a;
    }
  }

  lemma FinalizeLeaves(t: Tables, family: JobId, now: Time, root: JobId)
    ensures LeavesByVerdict(t.jobs, FinalizeRoot(t, family, now).jobs, root)
  {
    var t' := FinalizeRoot(t, family, now);
    if root in t.jobs && t'.jobs != t.jobs && root == family {
      RootRowIrrelevant(t.jobs, root, t'.jobs[root]);
    }
  }

  lemma {:induction false} InsertChildrenFrame(
    jobs: map<JobId, Job>, h: Job, children: seq<Submission>, ids: seq<JobId>, now: Time)
    requires |ids| == |children| && FreshIds(jobs, ids)
    ensures var jobs' := InsertChildren(jobs, h, children, ids, now);
            forall id <- jobs :: id in jobs' && jobs'[id] == jobs[id]
    decreases children
  {
    if children != [] {
      var jobs1 := InsertUnlessTaken(jobs, ChildRow(h, children[0], ids[0], now));
      assert ids[0] !in jobs;
      assert forall id <- jobs :: id in jobs1 && jobs1[id] == jobs[id];
      assert FreshIds(jobs1, ids[1..]);
      InsertChildrenFrame(jobs1, h, children[1..], ids[1..], now);
    }
  }

  lemma CompleteLeaves(t: Tables, h: Job, r: HandlerResult, ids: seq<JobId>, now: Time, root: JobId)
    requires |ids| == |r.children| && FreshIds(t.jobs, ids)
    ensures LeavesByVerdict(t.jobs, Complete(t, h, r, ids, now).jobs, root)
  {
    if Owns(t.jobs, h) {
      var t1 := EndLease(t, h, h.leaseToken, CompletionStatus(h, r), Ended(Completed), t.jobs[h.id].scheduledAt, now);
      InsertChildrenFrame(t1.jobs, h, r.children, ids, now);
      FinalizeLeaves(CompleteBody(t, h, r, ids, now), h.root, now, root);
    }
  }

  lemma FailLeaves(t: Tables, h: Job, kind: ErrorKind, retryAt: Time, now: Time, root: JobId)
    ensures LeavesByVerdict(t.jobs, Fail(t, h, kind, retryAt, now).jobs, root)
  {
    if Owns(t.jobs, h) {
      FinalizeLeaves(FailBody(t, h, kind, retryAt, now), h.root, now, root);
    }
  }

  lemma ReclaimRowLeaves(t: Tables, h: Job, now: Time, root: JobId)
    requires h.id in t.jobs && t.jobs[h.id].status == Running
    ensures LeavesByVerdict(t.jobs, ReclaimRow(t, h, now).jobs, root)
  {
    FinalizeLeaves(ReclaimBody(t, h, now), h.root, now, root);
  }

  /** Once no descendant is active, transactions that insert no row keep the verdict. */
  lemma VerdictStands(a: map<JobId, Job>, b: map<JobId, Job>, root: JobId)
    requires JobsEvolve(a, b) && a.Keys == b.Keys && !HasActive(a, root)
    ensures !HasActive(b, root) && Verdict(a, root) == Verdict(b, root)
  {
    forall c <- a ensures Descendant(a, root, c) <==> Descendant(b, root, c)
                  ensures Descendant(a, root, c) ==> a[c].status == b[c].status
    {
      assert RowEvolves(a[c], b[c]);
    }
    SameVerdict(a, b, root);
  }

  lemma {:induction false} ReclaimAllLeaves(t: Tables, batch: seq<Job>, now: Time, root: JobId)
    requires Inv(t) && ExpiredBatch(t.jobs, batch, now)
    ensures LeavesByVerdict(t.jobs, ReclaimAll(t, batch, now).jobs, root)
    decreases |batch|
  {
    if batch != [] && root in t.jobs && t.jobs[root].status == Waiting {
      var t1 := ReclaimRow(t, batch[0], now);
      ReclaimRowKeeps(t, batch[0], now);
      ReclaimRowFrame(t, batch[0], now);
      ReclaimTail(t, batch, now);
      ReclaimRowLeaves(t, batch[0], now, root);
      ReclaimAllLeaves(t1, batch[1..], now, root);
      ReclaimAllKeeps(t1, batch[1..], now);
      if t1.jobs[root].status != Waiting {
        VerdictStands(t1.jobs, ReclaimAll(t1, batch[1..], now).jobs, root);
        RootStays(t1, ReclaimAll(t1, batch[1..], now), root);
      }
    }
  }

  lemma RootStays(a: Tables, b: Tables, root: JobId)
    requires Inv(a) && Evolves(a, b) && root in a.jobs && a.jobs[root].status == Verdict(a.jobs, root)
    ensures b.jobs[root].status == a.jobs[root].status
  {
    assert RowEvolves(a.jobs[root], b.jobs[root]);
  }

  /** In any reachable state, a root leaves `waiting` only by cancellation or with the
      verdict over its finished descendants: dead_lettered if one of them is, otherwise
      failed if one failed or was cancelled, otherwise completed. */
  lemma RootLeavesWaiting(w: World, a: Action, root: JobId)
    requires WorldInv(w) && Enabled(w, a)
    ensures if a.ACancel?
            then root in w.t.jobs && w.t.jobs[root].status == Waiting && After(w, a).jobs[root].status != Waiting ==>
                   a.id == root && After(w, a).jobs[root].status == Cancelled
            else LeavesByVerdict(w.t.jobs, After(w, a).jobs, root)
  {
    match a
    case ACancel(id, now) => CancelLeaves(w.t, id, now, root);
    case AComplete(h, r, ids, now) => CompleteLeaves(w.t, h, r, ids, now, root);
    case AFail(h, kind, retryAt, now) => FailLeaves(w.t, h, kind, retryAt, now, root);
    case AReclaim(batch, now) => ReclaimAllLeaves(w.t, batch, now, root);
    case _ =>
  }

  lemma CancelLeaves(t: Tables, id: JobId, now: Time, root: JobId)
    requires RowsInv(t.jobs)
    ensures Cancel(t, id, now).jobs.Keys == t.jobs.Keys
    ensures root in t.jobs && t.jobs[root].status == Waiting && Cancel(t, id, now).jobs[root].status != Waiting ==>
              id == root && Cancel(t, id, now).jobs[root].status == Cancelled
  {
    if id in t.jobs && root in t.jobs {
      assert RowOk(t.jobs[id]) && RowOk(t.jobs[root]);
    }
  }

  // ----------------------------------------------------------------- stranded roots

  /** Every waiting root still has a descendant to wait for. */
  ghost predicate NoneStranded(jobs: map<JobId, Job>) {
    forall r <- jobs :: jobs[r].status == Waiting ==> HasActive(jobs, r)
  }

  ghost predicate NoneStrandedExcept(jobs: map<JobId, Job>, family: JobId) {
    forall r <- jobs :: jobs[r].status == Waiting && r != family ==> HasActive(jobs, r)
  }

  ghost predicate OtherActive(jobs: map<JobId, Job>, root: JobId, id: JobId) {
    exists c <- jobs :: c != id && Descendant(jobs, root, c) && Active(jobs[c].status)
  }

  /** The two ways to leave a root waiting for nothing: cancelling its last active
      descendant while that is queued, and completing it with children whose keys are
      all taken. */
  ghost predicate Strands(w: World, a: Action) {
    match a
    case ACancel(id, _) =>
      && id in w.t.jobs && Queued(w.t.jobs[id].status) && w.t.jobs[id].root != id
      && w.t.jobs[id].root in w.t.jobs && w.t.jobs[w.t.jobs[id].root].status == Waiting
      && !OtherActive(w.t.jobs, w.t.jobs[id].root, id)
    case AComplete(h, r, _, _) =>
      && Owns(w.t.jobs, h) && h.id == h.root && r.children != []
      && forall i :: 0 <= i < |r.children| ==> KeyTaken(w.t.jobs, Some(r.children[i].key))
    case _ => false
  }

  /** An active descendant that survives keeps its root from being stranded. */
  lemma ActiveSurvives(a: map<JobId, Job>, b: map<JobId, Job>, root: JobId)
    requires HasActive(a, root)
    requires forall c <- a :: Descendant(a, root, c) && Active(a[c].status) ==>
               Descendant(b, root, c) && Active(b[c].status)
    ensures HasActive(b, root)
  {
    var c :| c in a && Descendant(a, root, c) && Active(a[c].status);
    assert c in b;
  }

  /** A row change that keeps the row active, or does not concern the family of a waiting root. */
  lemma RowChangeStrands(jobs: map<JobId, Job>, id: JobId, row: Job)
    requires NoneStranded(jobs) && id in jobs && row.root == jobs[id].root
    requires row.status == Waiting ==> jobs[id].status == Waiting
    ensures NoneStrandedExcept(jobs[id := row], row.root)
    ensures Active(row.status) || row.root == id ==> NoneStranded(jobs[id := row])
  {
    var jobs' := jobs[id := row];
    forall r <- jobs' | jobs'[r].status == Waiting && (r != row.root || Active(row.status) || row.root == id)
      ensures HasActive(jobs', r)
    {
      ActiveSurvives(jobs, jobs', r);
    }
  }

  lemma FinalizeRescues(t: Tables, family: JobId, now: Time)
    requires RowsInv(t.jobs) && NoneStrandedExcept(t.jobs, family)
    ensures NoneStranded(FinalizeRoot(t, family, now).jobs)
  {
    var jobs' := FinalizeRoot(t, family, now).jobs;
    if jobs' != t.jobs {
      assert RowOk(t.jobs[family]);
    }
    forall r <- jobs' | jobs'[r].status == Waiting ensures HasActive(jobs', r) {
      if jobs' != t.jobs {
        ActiveSurvives(t.jobs, jobs', r);
      }
    }
  }

  lemma FailStrandsNone(t: Tables, h: Job, kind: ErrorKind, retryAt: Time, now: Time)
    requires Inv(t) && NoneStranded(t.jobs) && (Owns(t.jobs, h) ==> Current(t, h))
    ensures NoneStranded(Fail(t, h, kind, retryAt, now).jobs)
  {
    if Owns(t.jobs, h) {
      var t1 := FailBody(t, h, kind, retryAt, now);
      RowChangeStrands(t.jobs, h.id, t1.jobs[h.id]);
      if Terminal(FailureStatus(h, kind)) && h.id != h.root {
        FailBodyKeeps(t, h, kind, retryAt, now);
        FinalizeRescues(t1, h.root, now);
      }
    }
  }

  lemma ReclaimRowStrandsNone(t: Tables, h: Job, now: Time)
    requires Inv(t) && NoneStranded(t.jobs) && Current(t, h)
    ensures NoneStranded(ReclaimRow(t, h, now).jobs)
  {
    var t1 := ReclaimBody(t, h, now);
    RowChangeStrands(t.jobs, h.id, t1.jobs[h.id]);
    if Terminal(RecoveryStatus(h)) && h.id != h.root {
      ReclaimBodyKeeps(t, h, now);
      FinalizeRescues(t1, h.root, now);
    }
  }

  lemma {:induction false} ReclaimAllStrandsNone(t: Tables, batch: seq<Job>, now: Time)
    requires Inv(t) && NoneStranded(t.jobs) && ExpiredBatch(t.jobs, batch, now)
    ensures NoneStranded(ReclaimAll(t, batch, now).jobs)
    decreases |batch|
  {
    if batch != [] {
      ReclaimRowStrandsNone(t, batch[0], now);
      ReclaimRowKeeps(t, batch[0], now);
      ReclaimTail(t, batch, now);
      ReclaimAllStrandsNone(ReclaimRow(t, batch[0], now), batch[1..], now);
    }
  }

  /** Inserted rows are pending, so they strand nobody and never harm. */
  lemma InsertedStrandNone(a: map<JobId, Job>, b: map<JobId, Job>, family: JobId)
    requires NoneStrandedExcept(a, family)
    requires forall id <- a :: id in b && b[id] == a[id]
    requires forall id <- b :: id !in a ==> b[id].status == Pending
    ensures NoneStrandedExcept(b, family)
  {
    forall r <- b | b[r].status == Waiting && r != family ensures HasActive(b, r) {
      assert r in a;
      ActiveSurvives(a, b, r);
    }
  }

  lemma AddRootStrandsNone(a: map<JobId, Job>, row: Job)
    requires NoneStranded(a) && row.id !in a && row.status == Pending
    ensures NoneStranded(a[row.id := row])
  {
    var b := a[row.id := row];
    forall r <- b | b[r].status == Waiting ensures HasActive(b, r) {
      ActiveSurvives(a, b, r);
    }
  }

  /** The children of a completion that are inserted: one whose key was free makes its
      root wait for something; if every key was taken, nothing is inserted. */
  lemma {:induction false} ChildrenInserted(
    jobs: map<JobId, Job>, h: Job, children: seq<Submission>, ids: seq<JobId>, now: Time)
    requires |ids| == |children| && FreshIds(jobs, ids) && h.root in jobs
    ensures var jobs' := InsertChildren(jobs, h, children, ids, now);
            && (forall id <- jobs' :: id !in jobs ==> jobs'[id].status == Pending && jobs'[id].root == h.root)
            && ((exists i :: 0 <= i < |children| && !KeyTaken(jobs, Some(children[i].key))) ==>
                  HasActive(jobs', h.root))
            && ((forall i :: 0 <= i < |children| ==> KeyTaken(jobs, Some(children[i].key))) ==> jobs' == jobs)
    decreases children
  {
    if children != [] {
      var row := ChildRow(h, children[0], ids[0], now);
      var jobs1 := InsertUnlessTaken(jobs, row);
      var jobs' := InsertChildren(jobs, h, children, ids, now);
      assert ids[0] !in jobs;
      assert FreshIds(jobs1, ids[1..]);
      ChildrenInserted(jobs1, h, children[1..], ids[1..], now);
      InsertChildrenFrame(jobs1, h, children[1..], ids[1..], now);
      if !KeyTaken(jobs, row.key) {
        assert Descendant(jobs', h.root, row.id) && Active(jobs'[row.id].status);
        assert KeyTaken(jobs, Some(children[0].key)) == KeyTaken(jobs, row.key);
      } else {
        assert jobs1 == jobs;
        if i :| 0 <= i < |children| && !KeyTaken(jobs, Some(children[i].key)) {
          assert children[i] == children[1..][i - 1];
        }
        if forall i :: 0 <= i < |children| ==> KeyTaken(jobs, Some(children[i].key)) {
          forall i | 0 <= i < |children| - 1 ensures KeyTaken(jobs1, Some(children[1..][i].key)) {
            assert children[1..][i] == children[i + 1];
          }
        }
      }
    }
  }

  /** Ending a lease changes no key. */
  lemma SameKeys(jobs: map<JobId, Job>, id: JobId, row: Job, key: Option<string>)
    requires id in jobs && row.key == jobs[id].key
    ensures KeyTaken(jobs[id := row], key) == KeyTaken(jobs, key)
  {
    var jobs' := jobs[id := row];
    if KeyTaken(jobs, key) {
      var x :| x in jobs && jobs[x].key == key;
      assert jobs'[x].key == key;
    }
    if KeyTaken(jobs', key) {
      var x :| x in jobs' && jobs'[x].key == key;
      assert jobs[x].key == key;
    }
  }

  /** A child's completion: its family is looked after by finalizeRoot. */
  lemma CompleteChildStrandsNone(t: Tables, h: Job, r: HandlerResult, ids: seq<JobId>, now: Time)
    requires Inv(t) && NoneStranded(t.jobs) && Current(t, h) && Owns(t.jobs, h) && h.id != h.root
    requires |ids| == |r.children| && FreshIds(t.jobs, ids) && NonNegativeBudgets(r.children)
    ensures NoneStranded(Complete(t, h, r, ids, now).jobs)
  {
    var t1 := EndLease(t, h, h.leaseToken, Completed, Ended(Completed), t.jobs[h.id].scheduledAt, now);
    RowChangeStrands(t.jobs, h.id, t1.jobs[h.id]);
    assert Linked(t.jobs, h.id);
    InsertChildrenFrame(t1.jobs, h, r.children, ids, now);
    ChildrenInserted(t1.jobs, h, r.children, ids, now);
    var t2 := CompleteBody(t, h, r, ids, now);
    InsertedStrandNone(t1.jobs, t2.jobs, h.root);
    CompleteBodyKeeps(t, h, r, ids, now);
    FinalizeRescues(t2, h.root, now);
  }

  lemma CompleteRootStrands(t: Tables, h: Job, r: HandlerResult, ids: seq<JobId>, now: Time)
    requires Inv(t) && NoneStranded(t.jobs) && Current(t, h) && Owns(t.jobs, h) && h.id == h.root
    requires |ids| == |r.children| && FreshIds(t.jobs, ids)
    ensures NoneStranded(Complete(t, h, r, ids, now).jobs) <==>
            !(r.children != [] && forall i :: 0 <= i < |r.children| ==> KeyTaken(t.jobs, Some(r.children[i].key)))
  {
    var status := CompletionStatus(h, r);
    var t1 := EndLease(t, h, h.leaseToken, status, Ended(Completed), t.jobs[h.id].scheduledAt, now);
    var t2 := Complete(t, h, r, ids, now);
    assert t2.jobs == InsertChildren(t1.jobs, h, r.children, ids, now);
    RootEndStrands(t.jobs, h.id, t1.jobs[h.id]);
    forall i | 0 <= i < |r.children|
      ensures KeyTaken(t1.jobs, Some(r.children[i].key)) == KeyTaken(t.jobs, Some(r.children[i].key))
    {
      SameKeys(t.jobs, h.id, t1.jobs[h.id], Some(r.children[i].key));
    }
    InsertChildrenFrame(t1.jobs, h, r.children, ids, now);
    ChildrenInserted(t1.jobs, h, r.children, ids, now);
    InsertedStrandNone(t1.jobs, t2.jobs, h.id);
    QueuedRootHasNoDescendants(t.jobs, h.id);
    assert !HasActive(t1.jobs, h.id);
    assert t2.jobs[h.id] == t1.jobs[h.id];
  }

  /** The row of a running root concerns no other root. */
  lemma RootEndStrands(jobs: map<JobId, Job>, id: JobId, row: Job)
    requires NoneStranded(jobs) && id in jobs && row.root == jobs[id].root == id
    ensures NoneStrandedExcept(jobs[id := row], id)
  {
    var jobs' := jobs[id := row];
    forall r <- jobs' | jobs'[r].status == Waiting && r != id ensures HasActive(jobs', r) {
      ActiveSurvives(jobs, jobs', r);
    }
  }

  lemma CancelStrands(t: Tables, id: JobId, now: Time)
    requires Inv(t) && NoneStranded(t.jobs)
    ensures NoneStranded(Cancel(t, id, now).jobs) <==> !Strands(World(t, {}, {}), ACancel(id, now))
  {
    if id in t.jobs {
      assert RowOk(t.jobs[id]);
      var jobs' := Cancel(t, id, now).jobs;
      if t.jobs[id].status == Waiting {
        forall r <- jobs' | jobs'[r].status == Waiting ensures HasActive(jobs', r) {
          assert RowOk(t.jobs[r]);
          ActiveSurvives(t.jobs, jobs', r);
        }
      } else if Queued(t.jobs[id].status) {
        CancelQueuedStrands(t, id, jobs'[id]);
      } else if t.jobs[id].status == Running {
        RowChangeStrands(t.jobs, id, jobs'[id]);
      }
    }
  }

  lemma CancelQueuedStrands(t: Tables, id: JobId, row: Job)
    requires Inv(t) && NoneStranded(t.jobs) && id in t.jobs && Queued(t.jobs[id].status)
    requires row.root == t.jobs[id].root && row.status == Cancelled
    ensures var root := row.root;
            NoneStranded(t.jobs[id := row]) <==>
              !(root != id && root in t.jobs && t.jobs[root].status == Waiting && !OtherActive(t.jobs, root, id))
  {
    var jobs', root := t.jobs[id := row], row.root;
    RowChangeStrands(t.jobs, id, row);
    if root != id && root in t.jobs && t.jobs[root].status == Waiting {
      if OtherActive(t.jobs, root, id) {
        var c :| c in t.jobs && c != id && Descendant(t.jobs, root, c) && Active(t.jobs[c].status);
        assert Descendant(jobs', root, c) && Active(jobs'[c].status);
      } else {
        assert !HasActive(jobs', root);
      }
    }
  }

  lemma ClaimStrandsNone(w: World, a: Action)
    requires WorldInv(w) && Enabled(w, a) && NoneStranded(w.t.jobs) && (a.AClaim? || a.AHeartbeat?)
    ensures NoneStranded(After(w, a).jobs)
  {
    if a.AClaim? && a.pick.Some? {
      RowChangeStrands(w.t.jobs, a.pick.value, After(w, a).jobs[a.pick.value]);
    } else if a.AHeartbeat? && Extends(w.t.jobs, a.h) {
      RowChangeStrands(w.t.jobs, a.h.id, After(w, a).jobs[a.h.id]);
    }
  }

  lemma SubmissionStrandsNone(w: World, a: Action)
    requires Enabled(w, a) && NoneStranded(w.t.jobs) && (a.ASubmit? || a.ARetry? || a.AReplay?)
    ensures NoneStranded(After(w, a).jobs)
  {
    match a
    case ASubmit(input, newId, now) => AddRootStrandsNone(w.t.jobs, SubmittedRow(input, newId, now));
    case ARetry(id, maxAttempts, hash, newId, now) =>
      if id in w.t.jobs {
        AddRootStrandsNone(w.t.jobs, SubmittedRow(RetrySubmission(w.t.jobs[id], maxAttempts, hash), newId, now));
      }
    case AReplay(entry, maxAttempts, newId, now) =>
      if entry < |w.t.dlq| {
        AddRootStrandsNone(w.t.jobs, ReplayRow(w.t.dlq[entry], maxAttempts, newId, now));
      }
  }

  /** Exactly the actions named by Strands leave a root waiting for nothing. */
  lemma StrandedExactly(w: World, a: Action)
    requires WorldInv(w) && Enabled(w, a) && NoneStranded(w.t.jobs)
    ensures NoneStranded(Next(w, a).t.jobs) <==> !Strands(w, a)
  {
    match a
    case ACancel(id, now) => CancelStrands(w.t, id, now);
    case AComplete(h, r, ids, now) =>
      OwnedIsCurrent(w, h);
      if Owns(w.t.jobs, h) {
        if h.id == h.root {
          CompleteRootStrands(w.t, h, r, ids, now);
        } else {
          CompleteChildStrandsNone(w.t, h, r, ids, now);
        }
      }
    case AFail(h, kind, retryAt, now) =>
      OwnedIsCurrent(w, h);
      FailStrandsNone(w.t, h, kind, retryAt, now);
    case AReclaim(batch, now) => ReclaimAllStrandsNone(w.t, batch, now);
    case AClaim(_, _, _, _, _, _) => ClaimStrandsNone(w, a);
    case AHeartbeat(_, _, _) => ClaimStrandsNone(w, a);
    case _ => SubmissionStrandsNone(w, a);
  }

  // ------------------------------------------------------- runs that strand no root

  /** `keyRoot` tells which root a key was derived for; public keys belong to none. */
  ghost predicate Disciplined(keyRoot: string -> Option<JobId>, w: World, a: Action) {
    match a
    case ASubmit(input, _, _) => input.key != "" ==> keyRoot(input.key).None?
    case AComplete(h, r, _, _) => forall i :: 0 <= i < |r.children| ==> keyRoot(r.children[i].key) == Some(h.root)
    case ACancel(id, _) => id in w.t.jobs ==> w.t.jobs[id].root == id
    case _ => true
  }

  ghost predicate KeysBelong(keyRoot: string -> Option<JobId>, jobs: map<JobId, Job>) {
    forall id <- jobs :: jobs[id].key.Some? ==>
      keyRoot(jobs[id].key.value) == if jobs[id].root == id then None else Some(jobs[id].root)
  }

  lemma {:induction false} InsertChildrenBelong(
    keyRoot: string -> Option<JobId>, jobs: map<JobId, Job>, h: Job, children: seq<Submission>, ids: seq<JobId>,
    now: Time)
    requires KeysBelong(keyRoot, jobs) && |ids| == |children| && FreshIds(jobs, ids) && h.root in jobs
    requires forall i :: 0 <= i < |children| ==> keyRoot(children[i].key) == Some(h.root)
    ensures KeysBelong(keyRoot, InsertChildren(jobs, h, children, ids, now))
    decreases children
  {
    if children != [] {
      var jobs1 := InsertUnlessTaken(jobs, ChildRow(h, children[0], ids[0], now));
      assert ids[0] !in jobs;
      assert KeysBelong(keyRoot, jobs1);
      assert FreshIds(jobs1, ids[1..]);
      InsertChildrenBelong(keyRoot, jobs1, h, children[1..], ids[1..], now);
    }
  }

  lemma BelongSurvives(keyRoot: string -> Option<JobId>, a: map<JobId, Job>, b: map<JobId, Job>)
    requires KeysBelong(keyRoot, a) && JobsEvolve(a, b) && b.Keys == a.Keys
    ensures KeysBelong(keyRoot, b)
  {
    forall id <- b ensures SameIdentity(a[id], b[id]) {
      assert RowEvolves(a[id], b[id]);
    }
  }

  lemma CompleteBelongs(
    keyRoot: string -> Option<JobId>, t: Tables, h: Job, r: HandlerResult, ids: seq<JobId>, now: Time)
    requires KeysBelong(keyRoot, t.jobs) && |ids| == |r.children| && FreshIds(t.jobs, ids)
    requires Owns(t.jobs, h) ==> h.root in t.jobs
    requires forall i :: 0 <= i < |r.children| ==> keyRoot(r.children[i].key) == Some(h.root)
    ensures KeysBelong(keyRoot, Complete(t, h, r, ids, now).jobs)
  {
    if Owns(t.jobs, h) {
      var t1 := EndLease(t, h, h.leaseToken, CompletionStatus(h, r), Ended(Completed), t.jobs[h.id].scheduledAt, now);
      assert KeysBelong(keyRoot, t1.jobs);
      InsertChildrenBelong(keyRoot, t1.jobs, h, r.children, ids, now);
      var t2 := CompleteBody(t, h, r, ids, now);
      assert KeysBelong(keyRoot, t2.jobs);
    }
  }

  lemma StepBelongs(keyRoot: string -> Option<JobId>, w: World, a: Action)
    requires WorldInv(w) && Enabled(w, a) && Disciplined(keyRoot, w, a) && KeysBelong(keyRoot, w.t.jobs)
    ensures KeysBelong(keyRoot, Next(w, a).t.jobs)
  {
    match a
    case ASubmit(_, _, _) =>
    case ARetry(_, _, _, _, _) =>
    case AReplay(_, _, _, _) =>
    case AComplete(h, r, ids, now) =>
      OwnedIsCurrent(w, h);
      if Owns(w.t.jobs, h) { assert Linked(w.t.jobs, h.id); }
      CompleteBelongs(keyRoot, w.t, h, r, ids, now);
    case _ =>
      SameRowsStep(w, a);
      BelongSurvives(keyRoot, w.t.jobs, After(w, a).jobs);
  }

  /** A disciplined completion finds the keys of its children free. */
  lemma DisciplinedIsSafe(keyRoot: string -> Option<JobId>, w: World, a: Action)
    requires WorldInv(w) && Enabled(w, a) && Disciplined(keyRoot, w, a) && KeysBelong(keyRoot, w.t.jobs)
    ensures !Strands(w, a)
  {
    if a.AComplete? && Owns(w.t.jobs, a.h) && a.h.id == a.h.root && a.result.children != [] {
      var key := a.result.children[0].key;
      QueuedRootHasNoDescendants(w.t.jobs, a.h.id);
      assert !KeyTaken(w.t.jobs, Some(key)) by {
        forall id <- w.t.jobs ensures w.t.jobs[id].key != Some(key) {
          assert !Descendant(w.t.jobs, a.h.id, id);
        }
      }
    }
  }

  ghost predicate DisciplinedAt(keyRoot: string -> Option<JobId>, acts: seq<Action>, n: nat)
    requires Run(EMPTY, acts)
  {
    n < |acts| && Disciplined(keyRoot, At(EMPTY, acts, n), acts[n])
  }

  ghost predicate DisciplinedRun(keyRoot: string -> Option<JobId>, acts: seq<Action>)
    requires Run(EMPTY, acts)
  {
    forall n: nat {:trigger DisciplinedAt(keyRoot, acts, n)} :: n < |acts| ==> DisciplinedAt(keyRoot, acts, n)
  }

  lemma {:induction false} BelongAt(keyRoot: string -> Option<JobId>, acts: seq<Action>, i: nat)
    requires Run(EMPTY, acts) && i <= |acts|
    requires DisciplinedRun(keyRoot, acts)
    ensures KeysBelong(keyRoot, At(EMPTY, acts, i).t.jobs)
    decreases i
  {
    if i > 0 {
      BelongAt(keyRoot, acts, i - 1);
      ReachableInv(acts, i - 1);
      AtNext(EMPTY, acts, i - 1);
      assert DisciplinedAt(keyRoot, acts, i - 1);
      StepBelongs(keyRoot, At(EMPTY, acts, i - 1), acts[i - 1]);
    }
  }

  /** With serial transactions, child keys derived from their root and no cancellation
      aimed at a child, every waiting root has an active descendant at all times. */
  lemma {:induction false} NoStrandedRoot(keyRoot: string -> Option<JobId>, acts: seq<Action>, i: nat)
    requires Run(EMPTY, acts) && i <= |acts|
    requires DisciplinedRun(keyRoot, acts)
    ensures NoneStranded(At(EMPTY, acts, i).t.jobs)
    decreases i
  {
    if i > 0 {
      NoStrandedRoot(keyRoot, acts, i - 1);
      ReachableInv(acts, i - 1);
      AtNext(EMPTY, acts, i - 1);
      BelongAt(keyRoot, acts, i - 1);
      assert DisciplinedAt(keyRoot, acts, i - 1);
      SafeStep(keyRoot, At(EMPTY, acts, i - 1), acts[i - 1]);
    }
  }

  lemma SafeStep(keyRoot: string -> Option<JobId>, w: World, a: Action)
    requires WorldInv(w) && Enabled(w, a) && Disciplined(keyRoot, w, a) && KeysBelong(keyRoot, w.t.jobs)
    requires NoneStranded(w.t.jobs)
    ensures NoneStranded(Next(w, a).t.jobs)
  {
    DisciplinedIsSafe(keyRoot, w, a);
    StrandedExactly(w, a);
  }
}
