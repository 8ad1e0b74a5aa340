/** Descendants of a waiting root that end in overlapping transactions. Under READ
    COMMITTED the counts of finalizeRoot see the transaction's own writes, and another
    transaction's only if it has committed. */
module JobOverlap {
  import opened Common
  import opened JobTables
  import opened JobSteps
  import opened JobRoots

  /** A transaction that ends the lease of a descendant. */
  datatype Ending =
    | Completing(h: Job, result: HandlerResult, ids: seq<JobId>, now: Time)
    | Failing(h: Job, kind: ErrorKind, retryAt: Time, now: Time)
    | Recovering(h: Job, now: Time)

  /** The transaction gets past its fenced UPDATE in this world. */
  ghost predicate Fits(w: World, e: Ending) {
    && e.h.id in w.t.jobs && e.h.id != e.h.root
    && match e
       case Completing(h, r, ids, _) =>
         h in w.held && Owns(w.t.jobs, h) && |ids| == |r.children| && FreshIds(w.t.jobs, ids)
       case Failing(h, _, _, _) => h in w.held && Owns(w.t.jobs, h)
       case Recovering(h, now) => h == w.t.jobs[h.id] && Expired(h, now)
  }

  function NewIds(e: Ending): seq<JobId> {
    if e.Completing? then e.ids else []
  }

  function Children(e: Ending): seq<Submission> {
    if e.Completing? then e.result.children else []
  }

  predicate WellSized(e: Ending) {
    |NewIds(e)| == |Children(e)|
  }

  /** What the transaction writes before it finalises the root; nothing for an unknown job. */
  function Written(t: Tables, e: Ending): Tables {
    if e.h.id !in t.jobs || !WellSized(e) then t
    else
      match e
      case Completing(h, r, ids, now) => CompleteBody(t, h, r, ids, now)
      case Failing(h, kind, retryAt, now) => FailBody(t, h, kind, retryAt, now)
      case Recovering(h, now) => ReclaimBody(t, h, now)
  }

  function EndStatus(e: Ending): Status {
    match e
    case Completing(h, r, _, _) => CompletionStatus(h, r)
    case Failing(h, kind, _, _) => FailureStatus(h, kind)
    case Recovering(h, _) => RecoveryStatus(h)
  }

  /** finalizeRoot, called only when the job ended for good, on counts over `seen`. */
  function Finish(t: Tables, seen: map<JobId, Job>, e: Ending): Tables {
    if Terminal(EndStatus(e)) then FinalizeSeen(t, seen, e.h.root, e.now) else t
  }

  /** The whole transaction, with no other beside it. */
  function Serial(t: Tables, e: Ending): Tables {
    if e.h.id !in t.jobs || !WellSized(e) then t
    else
      match e
      case Completing(h, r, ids, now) => Complete(t, h, r, ids, now)
      case Failing(h, kind, retryAt, now) => Fail(t, h, kind, retryAt, now)
      case Recovering(h, now) => ReclaimRow(t, h, now)
  }

  function SerialAll(t: Tables, es: seq<Ending>, n: nat): Tables
    requires n <= |es|
  {
    if n == 0 then t else Serial(SerialAll(t, es, n - 1), es[n - 1])
  }

  /** The writes of those among the first n endings that are kept. */
  function WriteSome(t: Tables, es: seq<Ending>, n: nat, keep: nat -> bool): Tables
    requires n <= |es|
  {
    if n == 0 then t
    else
      var before := WriteSome(t, es, n - 1, keep);
      if keep(n - 1) then Written(before, es[n - 1]) else before
  }

  /** Whether one ending, when it counts, sees what another one has written. */
  type Sight = (nat, nat) -> bool

  function Everything(): (nat -> bool) {
    (k: nat) => true
  }

  /** What ending i counts on: its own writes and those it sees. */
  function Seen(sees: Sight, i: nat): (nat -> bool) {
    (k: nat) => k == i || sees(i, k)
  }

  function SeenTable(t: Tables, es: seq<Ending>, sees: Sight, i: nat): map<JobId, Job> {
    WriteSome(t, es, |es|, Seen(sees, i)).jobs
  }

  /** The first n endings finalise the root, one after the other, on what each has seen. */
  function FinishAll(t: Tables, es: seq<Ending>, sees: Sight, n: nat): Tables
    requires n <= |es|
  {
    if n == 0 then WriteSome(t, es, |es|, Everything())
    else Finish(FinishAll(t, es, sees, n - 1), SeenTable(t, es, sees, n - 1), es[n - 1])
  }

  /** Endings side by side: all have written, then all finalise. */
  function Overlap(t: Tables, es: seq<Ending>, sees: Sight): Tables {
    FinishAll(t, es, sees, |es|)
  }

  predicate SeesAll(es: seq<Ending>, sees: Sight, i: nat) {
    i < |es| && forall k: nat :: k < |es| && k != i ==> sees(i, k)
  }

  /** Different running descendants of one waiting root, each about to end. */
  ghost predicate Siblings(w: World, es: seq<Ending>, root: JobId) {
    && WorldInv(w) && root in w.t.jobs && w.t.jobs[root].status == Waiting
    && (forall i :: 0 <= i < |es| ==> Fits(w, es[i]) && es[i].h.root == root)
    && Apart(es)
  }

  /** Different jobs, and different ids for their children. */
  ghost predicate Apart(es: seq<Ending>) {
    forall i, k {:trigger es[i], es[k]} :: 0 <= i < k < |es| ==>
      es[i].h.id != es[k].h.id && forall id :: id in NewIds(es[i]) ==> id !in NewIds(es[k])
  }

  predicate AddsNone(jobs: map<JobId, Job>, e: Ending) {
    forall i :: 0 <= i < |Children(e)| ==> KeyTaken(jobs, Some(Children(e)[i].key))
  }

  ghost predicate Ends(es: seq<Ending>, id: JobId) {
    exists i :: 0 <= i < |es| && es[i].h.id == id
  }

  /** All end for good, none adds a child, and no other descendant is active. */
  ghost predicate LastOnes(jobs: map<JobId, Job>, es: seq<Ending>, root: JobId) {
    && (forall i :: 0 <= i < |es| ==> Terminal(EndStatus(es[i])) && AddsNone(jobs, es[i]))
    && forall c <- jobs :: Descendant(jobs, root, c) && Active(jobs[c].status) ==> Ends(es, c)
  }

  // -------------------------------------------------------------- what an ending writes

  lemma EndingIsCurrent(w: World, e: Ending)
    requires WorldInv(w) && Fits(w, e)
    ensures Current(w.t, e.h) && w.t.jobs[e.h.id].root == e.h.root
  {
    if !e.Recovering? {
      OwnedIsCurrent(w, e.h);
    }
  }

  lemma {:induction false} SomeChildInserted(
    jobs: map<JobId, Job>, h: Job, children: seq<Submission>, ids: seq<JobId>, now: Time)
    requires |ids| == |children| && FreshIds(jobs, ids)
    requires exists i :: 0 <= i < |children| && !KeyTaken(jobs, Some(children[i].key))
    ensures exists id :: id in InsertChildren(jobs, h, children, ids, now) && id !in jobs
    decreases children
  {
    var row := ChildRow(h, children[0], ids[0], now);
    var jobs1 := InsertUnlessTaken(jobs, row);
    assert ids[0] !in jobs;
    assert FreshIds(jobs1, ids[1..]);
    if KeyTaken(jobs, row.key) {
      var i :| 0 <= i < |children| && !KeyTaken(jobs, Some(children[i].key));
      assert children[i] == children[1..][i - 1];
      SomeChildInserted(jobs1, h, children[1..], ids[1..], now);
    } else {
      InsertChildrenFrame(jobs1, h, children[1..], ids[1..], now);
      var rest := InsertChildren(jobs1, h, children[1..], ids[1..], now);
      assert row.id in jobs1;
      assert row.id in rest;
      assert InsertChildren(jobs, h, children, ids, now) == rest;
    }
  }

  lemma SameTaken(jobs: map<JobId, Job>, id: JobId, row: Job, e: Ending)
    requires id in jobs && row.key == jobs[id].key
    ensures AddsNone(jobs[id := row], e) == AddsNone(jobs, e)
  {
    forall i | 0 <= i < |Children(e)|
      ensures KeyTaken(jobs[id := row], Some(Children(e)[i].key)) == KeyTaken(jobs, Some(Children(e)[i].key))
    {
      SameKeys(jobs, id, row, Some(Children(e)[i].key));
    }
  }

  /** The rows after an ending: its own row in the end status, new pending children of the
      same root exactly if some key was free, everything else as it was. */
  lemma WrittenRows(t: Tables, e: Ending)
    requires WellSized(e) && e.h.id in t.jobs && e.h.root in t.jobs && FreshIds(t.jobs, NewIds(e))
    ensures var after := Written(t, e).jobs;
            && (forall id <- t.jobs :: id in after && (id != e.h.id ==> after[id] == t.jobs[id]))
            && after[e.h.id].root == t.jobs[e.h.id].root && after[e.h.id].status == EndStatus(e)
            && after[e.h.id].key == t.jobs[e.h.id].key
            && (forall id <- after :: id !in t.jobs ==> after[id].status == Pending && after[id].root == e.h.root)
            && (AddsNone(t.jobs, e) <==> after == t.jobs[e.h.id := after[e.h.id]])
            && (!AddsNone(t.jobs, e) ==> exists id :: id in after && id !in t.jobs)
  {
    if e.Completing? {
      var ended := EndLease(t, e.h, e.h.leaseToken, EndStatus(e), Ended(Completed),
                            t.jobs[e.h.id].scheduledAt, e.now).jobs;
      InsertChildrenFrame(ended, e.h, Children(e), e.ids, e.now);
      ChildrenInserted(ended, e.h, Children(e), e.ids, e.now);
      SameTaken(t.jobs, e.h.id, ended[e.h.id], e);
      if !AddsNone(t.jobs, e) {
        SomeChildInserted(ended, e.h, Children(e), e.ids, e.now);
      }
    }
  }

  lemma InsertedIds(t: Tables, e: Ending)
    ensures forall id <- Written(t, e).jobs :: id in t.jobs || id in NewIds(e)
  {
    if e.Completing? && e.h.id in t.jobs && WellSized(e) {
      var ended := EndLease(t, e.h, e.h.leaseToken, EndStatus(e), Ended(Completed),
                            t.jobs[e.h.id].scheduledAt, e.now).jobs;
      InsertedFrom(ended, e.h, Children(e), e.ids, e.now);
    }
  }

  lemma {:induction false} InsertedFrom(
    jobs: map<JobId, Job>, h: Job, children: seq<Submission>, ids: seq<JobId>, now: Time)
    requires |ids| == |children|
    ensures forall id <- InsertChildren(jobs, h, children, ids, now) :: id in jobs || id in ids
    decreases children
  {
    if children != [] {
      InsertedFrom(InsertUnlessTaken(jobs, ChildRow(h, children[0], ids[0], now)), h, children[1..], ids[1..], now);
    }
  }

  // ------------------------------------------------------------- what several endings write

  /** What matters of the tables: running descendants of a waiting root. */
  ghost predicate Family(t: Tables, es: seq<Ending>, root: JobId) {
    && root in t.jobs && t.jobs[root].status == Waiting && Apart(es)
    && forall i {:trigger Member(t, es[i], root)} :: 0 <= i < |es| ==> Member(t, es[i], root)
  }

  ghost predicate Member(t: Tables, e: Ending, root: JobId) {
    && WellSized(e) && FreshIds(t.jobs, NewIds(e)) && e.h.root == root && e.h.id != root
    && e.h.id in t.jobs && t.jobs[e.h.id].root == root && t.jobs[e.h.id].status == Running
  }

  lemma SiblingsAreFamily(w: World, es: seq<Ending>, root: JobId)
    requires Siblings(w, es, root)
    ensures Family(w.t, es, root)
  {
    forall i | 0 <= i < |es| ensures Member(w.t, es[i], root) {
      EndingIsCurrent(w, es[i]);
    }
  }

  /** Rows of jobs that no written ending is about are as they were. */
  ghost predicate KeptRows(t: Tables, es: seq<Ending>, n: nat, keep: nat -> bool, after: map<JobId, Job>)
    requires n <= |es|
  {
    && (forall id <- t.jobs :: id in after && after[id].key == t.jobs[id].key)
    && (forall id <- t.jobs :: after[id] == t.jobs[id] || exists k: nat :: k < n && keep(k) && es[k].h.id == id)
  }

  /** The row of a written ending has its end status. */
  ghost predicate EndedRows(es: seq<Ending>, n: nat, keep: nat -> bool, root: JobId, after: map<JobId, Job>)
    requires n <= |es|
  {
    forall k: nat :: k < n && keep(k) ==>
      es[k].h.id in after && after[es[k].h.id].root == root && after[es[k].h.id].status == EndStatus(es[k])
  }

  /** New rows are pending children with ids drawn by the endings. */
  ghost predicate NewRows(t: Tables, es: seq<Ending>, n: nat, root: JobId, after: map<JobId, Job>)
    requires n <= |es|
  {
    forall id <- after :: id !in t.jobs ==>
      after[id].status == Pending && after[id].root == root && exists k: nat :: k < n && id in NewIds(es[k])
  }

  /** No row is new exactly when no written ending adds one. */
  ghost predicate KnownKeys(t: Tables, es: seq<Ending>, n: nat, keep: nat -> bool, after: map<JobId, Job>)
    requires n <= |es|
  {
    after.Keys == t.jobs.Keys <==> forall k: nat :: k < n && keep(k) ==> AddsNone(t.jobs, es[k])
  }

  ghost predicate RowsWritten(
    t: Tables, es: seq<Ending>, n: nat, keep: nat -> bool, root: JobId, after: map<JobId, Job>)
    requires n <= |es|
  {
    && KeptRows(t, es, n, keep, after) && EndedRows(es, n, keep, root, after) && NewRows(t, es, n, root, after)
    && KnownKeys(t, es, n, keep, after)
  }

  /** One ending written on top of a table. */
  ghost predicate OneWritten(before: map<JobId, Job>, e: Ending, root: JobId, after: map<JobId, Job>) {
    && (forall id <- before ::
          id in after && after[id].key == before[id].key && (id != e.h.id ==> after[id] == before[id]))
    && e.h.id in after && after[e.h.id].root == root && after[e.h.id].status == EndStatus(e)
    && (forall id <- after ::
          id !in before ==> after[id].status == Pending && after[id].root == root && id in NewIds(e))
    && (after.Keys == before.Keys <==> AddsNone(before, e))
  }

  lemma WritesOne(before: Tables, e: Ending, root: JobId)
    requires root in before.jobs && WellSized(e) && FreshIds(before.jobs, NewIds(e)) && e.h.root == root
    requires e.h.id in before.jobs && before.jobs[e.h.id].root == root
    ensures OneWritten(before.jobs, e, root, Written(before, e).jobs)
  {
    WrittenRows(before, e);
    InsertedIds(before, e);
  }

  lemma SameKeysTaken(a: map<JobId, Job>, b: map<JobId, Job>, e: Ending)
    requires a.Keys == b.Keys && forall id <- a :: b[id].key == a[id].key
    ensures AddsNone(a, e) == AddsNone(b, e)
  {
    forall i | 0 <= i < |Children(e)|
      ensures KeyTaken(a, Some(Children(e)[i].key)) == KeyTaken(b, Some(Children(e)[i].key))
    {
    }
  }

  lemma {:induction false} SomeRows(t: Tables, es: seq<Ending>, n: nat, keep: nat -> bool, root: JobId)
    requires Family(t, es, root) && n <= |es|
    ensures RowsWritten(t, es, n, keep, root, WriteSome(t, es, n, keep).jobs)
    decreases n
  {
    if n == 0 {
      NoRows(t, es, keep, root);
    } else {
      SomeRows(t, es, n - 1, keep, root);
      NextRow(t, es, n, keep, root, WriteSome(t, es, n - 1, keep));
    }
  }

  lemma NoRows(t: Tables, es: seq<Ending>, keep: nat -> bool, root: JobId)
    ensures RowsWritten(t, es, 0, keep, root, t.jobs)
  {
  }

  lemma NextRow(t: Tables, es: seq<Ending>, n: nat, keep: nat -> bool, root: JobId, before: Tables)
    requires Family(t, es, root) && 0 < n <= |es| && RowsWritten(t, es, n - 1, keep, root, before.jobs)
    ensures RowsWritten(t, es, n, keep, root, (if keep(n - 1) then Written(before, es[n - 1]) else before).jobs)
  {
    if keep(n - 1) {
      OneMoreRow(t, es, n, keep, root, before);
    } else {
      OneSkipped(t, es, n, keep, root, before.jobs);
    }
  }

  lemma OneSkipped(t: Tables, es: seq<Ending>, n: nat, keep: nat -> bool, root: JobId, rows: map<JobId, Job>)
    requires 0 < n <= |es| && !keep(n - 1) && RowsWritten(t, es, n - 1, keep, root, rows)
    ensures RowsWritten(t, es, n, keep, root, rows)
  {
    KeptSkipped(t, es, n, keep, rows);
    EndedSkipped(es, n, keep, root, rows);
    NewSkipped(t, es, n, root, rows);
    KeysSkipped(t, es, n, keep, rows);
  }

  lemma KeptSkipped(t: Tables, es: seq<Ending>, n: nat, keep: nat -> bool, rows: map<JobId, Job>)
    requires 0 < n <= |es| && KeptRows(t, es, n - 1, keep, rows)
    ensures KeptRows(t, es, n, keep, rows)
  {
  }

  lemma EndedSkipped(es: seq<Ending>, n: nat, keep: nat -> bool, root: JobId, rows: map<JobId, Job>)
    requires 0 < n <= |es| && !keep(n - 1) && EndedRows(es, n - 1, keep, root, rows)
    ensures EndedRows(es, n, keep, root, rows)
  {
  }

  lemma KeysSkipped(t: Tables, es: seq<Ending>, n: nat, keep: nat -> bool, rows: map<JobId, Job>)
    requires 0 < n <= |es| && !keep(n - 1) && KnownKeys(t, es, n - 1, keep, rows)
    ensures KnownKeys(t, es, n, keep, rows)
  {
    assert forall k: nat :: k < n && keep(k) ==> k < n - 1;
  }

  lemma NewSkipped(t: Tables, es: seq<Ending>, n: nat, root: JobId, rows: map<JobId, Job>)
    requires 0 < n <= |es| && NewRows(t, es, n - 1, root, rows)
    ensures NewRows(t, es, n, root, rows)
  {
  }

  lemma OneMoreRow(t: Tables, es: seq<Ending>, n: nat, keep: nat -> bool, root: JobId, before: Tables)
    requires Family(t, es, root) && 0 < n <= |es| && keep(n - 1)
    requires RowsWritten(t, es, n - 1, keep, root, before.jobs)
    ensures RowsWritten(t, es, n, keep, root, Written(before, es[n - 1]).jobs)
  {
    var e := es[n - 1];
    assert Member(t, e, root);
    OthersDiffer(t, es, n - 1, keep, root, before.jobs);
    WritesOne(before, e, root);
    var after := Written(before, e).jobs;
    MoreKept(t, es, n, keep, root, before.jobs, after);
    MoreEnded(t, es, n, keep, root, before.jobs, after);
    MoreNew(t, es, n, root, before.jobs, after);
    MoreKeys(t, es, n, keep, root, before.jobs, after);
  }

  /** The next ending finds its own row untouched and its ids still fresh. */
  lemma OthersDiffer(
    t: Tables, es: seq<Ending>, m: nat, keep: nat -> bool, root: JobId, before: map<JobId, Job>)
    requires Family(t, es, root) && m < |es| && KeptRows(t, es, m, keep, before) && NewRows(t, es, m, root, before)
    ensures es[m].h.id in t.jobs && es[m].h.id in before && before[es[m].h.id] == t.jobs[es[m].h.id]
    ensures FreshIds(before, NewIds(es[m])) && root in before
  {
    assert Member(t, es[m], root);
    forall k: nat | k < m
      ensures es[k].h.id != es[m].h.id && forall id :: id in NewIds(es[k]) ==> id !in NewIds(es[m])
    {
    }
  }

  lemma MoreKept(
    t: Tables, es: seq<Ending>, n: nat, keep: nat -> bool, root: JobId, before: map<JobId, Job>,
    after: map<JobId, Job>)
    requires 0 < n <= |es| && keep(n - 1) && KeptRows(t, es, n - 1, keep, before)
    requires OneWritten(before, es[n - 1], root, after)
    ensures KeptRows(t, es, n, keep, after)
  {
    forall id <- t.jobs ensures after[id] == t.jobs[id] || exists k: nat :: k < n && keep(k) && es[k].h.id == id {
      if id == es[n - 1].h.id {
        assert keep(n - 1) && es[n - 1].h.id == id;
      }
    }
  }

  lemma MoreEnded(
    t: Tables, es: seq<Ending>, n: nat, keep: nat -> bool, root: JobId, before: map<JobId, Job>,
    after: map<JobId, Job>)
    requires Family(t, es, root) && 0 < n <= |es| && EndedRows(es, n - 1, keep, root, before)
    requires OneWritten(before, es[n - 1], root, after)
    ensures EndedRows(es, n, keep, root, after)
  {
    forall k: nat | k < n - 1 && keep(k)
      ensures es[k].h.id in after && after[es[k].h.id] == before[es[k].h.id]
    {
      assert es[k].h.id != es[n - 1].h.id;
    }
  }

  lemma MoreNew(
    t: Tables, es: seq<Ending>, n: nat, root: JobId, before: map<JobId, Job>, after: map<JobId, Job>)
    requires Family(t, es, root) && 0 < n <= |es| && NewRows(t, es, n - 1, root, before)
    requires OneWritten(before, es[n - 1], root, after)
    ensures NewRows(t, es, n, root, after)
  {
    assert Member(t, es[n - 1], root);
    forall id <- after | id !in t.jobs
      ensures after[id].status == Pending && after[id].root == root && exists k: nat :: k < n && id in NewIds(es[k])
    {
      if id in before {
        var k: nat :| k < n - 1 && id in NewIds(es[k]);
        assert k < n && id != es[n - 1].h.id;
      } else {
        assert id in NewIds(es[n - 1]);
      }
    }
  }

  lemma MoreKeys(
    t: Tables, es: seq<Ending>, n: nat, keep: nat -> bool, root: JobId, before: map<JobId, Job>,
    after: map<JobId, Job>)
    requires 0 < n <= |es| && keep(n - 1) && RowsWritten(t, es, n - 1, keep, root, before)
    requires OneWritten(before, es[n - 1], root, after)
    ensures KnownKeys(t, es, n, keep, after)
  {
    assert t.jobs.Keys <= before.Keys <= after.Keys;
    if before.Keys == t.jobs.Keys {
      SameKeysTaken(t.jobs, before, es[n - 1]);
    } else {
      var id :| id in before.Keys && id !in t.jobs.Keys;
      assert id in after.Keys;
    }
  }

  // ----------------------------------------------------------------- what is left active

  /** After all endings no descendant is active exactly when they were the last ones. */
  lemma LeftActive(t: Tables, es: seq<Ending>, root: JobId)
    requires Family(t, es, root)
    ensures HasActive(WriteSome(t, es, |es|, Everything()).jobs, root) <==> !LastOnes(t.jobs, es, root)
  {
    SomeRows(t, es, |es|, Everything(), root);
    var after := WriteSome(t, es, |es|, Everything()).jobs;
    if LastOnes(t.jobs, es, root) {
      NothingLeft(t, es, root, after);
    } else {
      SomethingLeft(t, es, root, after);
    }
  }

  lemma NothingLeft(t: Tables, es: seq<Ending>, root: JobId, after: map<JobId, Job>)
    requires RowsWritten(t, es, |es|, Everything(), root, after) && LastOnes(t.jobs, es, root)
    ensures !HasActive(after, root)
  {
    assert after.Keys == t.jobs.Keys;
    forall c <- after ensures !(Descendant(after, root, c) && Active(after[c].status)) {
      if k: nat :| k < |es| && es[k].h.id == c {
        assert Everything()(k);
      } else {
        assert after[c] == t.jobs[c] && !Ends(es, c);
      }
    }
  }

  lemma SomethingLeft(t: Tables, es: seq<Ending>, root: JobId, after: map<JobId, Job>)
    requires Family(t, es, root) && RowsWritten(t, es, |es|, Everything(), root, after)
    requires !LastOnes(t.jobs, es, root)
    ensures HasActive(after, root)
  {
    if k: nat :| k < |es| && !Terminal(EndStatus(es[k])) {
      assert Member(t, es[k], root) && Everything()(k);
      assert Descendant(after, root, es[k].h.id);
    } else if k: nat :| k < |es| && !AddsNone(t.jobs, es[k]) {
      assert Everything()(k);
      assert after.Keys != t.jobs.Keys && t.jobs.Keys <= after.Keys;
      var id :| id in after.Keys && id !in t.jobs.Keys;
      assert Descendant(after, root, id);
    } else {
      var c :| c in t.jobs && Descendant(t.jobs, root, c) && Active(t.jobs[c].status) && !Ends(es, c);
      assert after[c] == t.jobs[c];
      assert Descendant(after, root, c);
    }
  }

  /** A count that misses one of the endings still sees its job running. */
  lemma OtherStillSeen(t: Tables, es: seq<Ending>, n: nat, keep: nat -> bool, root: JobId, k: nat)
    requires Family(t, es, root) && n <= |es| && k < |es| && (k < n ==> !keep(k))
    ensures HasActive(WriteSome(t, es, n, keep).jobs, root)
  {
    SomeRows(t, es, n, keep, root);
    var after := WriteSome(t, es, n, keep).jobs;
    assert Member(t, es[k], root);
    Untouched(t, es, n, keep, after, k);
    assert Descendant(after, root, es[k].h.id);
  }

  lemma Untouched(t: Tables, es: seq<Ending>, n: nat, keep: nat -> bool, after: map<JobId, Job>, k: nat)
    requires Apart(es) && n <= |es| && k < |es| && (k < n ==> !keep(k)) && es[k].h.id in t.jobs
    requires KeptRows(t, es, n, keep, after)
    ensures es[k].h.id in after && after[es[k].h.id] == t.jobs[es[k].h.id]
  {
    forall i: nat | i < n && keep(i) ensures es[i].h.id != es[k].h.id {
    }
  }

  lemma {:induction false} SameWrites(t: Tables, es: seq<Ending>, n: nat, keep: nat -> bool, other: nat -> bool)
    requires n <= |es| && forall k: nat :: k < n ==> keep(k) == other(k)
    ensures WriteSome(t, es, n, keep) == WriteSome(t, es, n, other)
    decreases n
  {
    if n > 0 {
      SameWrites(t, es, n - 1, keep, other);
    }
  }

  /** A count finds nothing active exactly if the endings are the last and it sees all. */
  lemma CountFinds(t: Tables, es: seq<Ending>, sees: Sight, i: nat, root: JobId)
    requires Family(t, es, root) && i < |es|
    ensures HasActive(SeenTable(t, es, sees, i), root) <==> !(LastOnes(t.jobs, es, root) && SeesAll(es, sees, i))
    ensures SeesAll(es, sees, i) ==> SeenTable(t, es, sees, i) == WriteSome(t, es, |es|, Everything()).jobs
  {
    if SeesAll(es, sees, i) {
      SameWrites(t, es, |es|, Seen(sees, i), Everything());
      LeftActive(t, es, root);
    } else {
      var k: nat :| k < |es| && k != i && !sees(i, k);
      assert !Seen(sees, i)(k);
      OtherStillSeen(t, es, |es|, Seen(sees, i), root, k);
    }
  }

  lemma RootStillWaiting(t: Tables, es: seq<Ending>, root: JobId)
    requires Family(t, es, root)
    ensures var both := WriteSome(t, es, |es|, Everything()).jobs; root in both && both[root].status == Waiting
  {
    SomeRows(t, es, |es|, Everything(), root);
    forall k: nat | k < |es| ensures es[k].h.id != root {
      assert Member(t, es[k], root);
    }
  }

  // ------------------------------------------------------------------------- finalising

  function Closed(jobs: map<JobId, Job>, root: JobId, now: Time): map<JobId, Job>
    requires root in jobs
  {
    jobs[root := jobs[root].(status := Verdict(jobs, root), completedAt := Some(now))]
  }

  /** Some ending among the first n is last of all and sees all. */
  ghost predicate SomeoneCloses(t: Tables, es: seq<Ending>, sees: Sight, n: nat, root: JobId) {
    LastOnes(t.jobs, es, root) && exists i: nat :: i < n && SeesAll(es, sees, i)
  }

  /** After the first n endings have finished: the first that closes the root does so, at
      its own time, and the others change nothing. */
  ghost predicate FinishedTo(t: Tables, es: seq<Ending>, sees: Sight, n: nat, root: JobId, now: Time)
    requires n <= |es|
  {
    var all := WriteSome(t, es, |es|, Everything()).jobs;
    && root in all && all[root].status == Waiting
    && FinishAll(t, es, sees, n).jobs == if SomeoneCloses(t, es, sees, n, root) then Closed(all, root, now) else all
  }

  lemma {:induction false} FinishedRows(
    t: Tables, es: seq<Ending>, sees: Sight, n: nat, root: JobId)
    returns (now: Time)
    requires Family(t, es, root) && n <= |es|
    ensures FinishedTo(t, es, sees, n, root, now)
    decreases n
  {
    if n == 0 {
      now := 0;
      RootStillWaiting(t, es, root);
    } else {
      var before := FinishedRows(t, es, sees, n - 1, root);
      now := FinishedStep(t, es, sees, n, root, before);
    }
  }

  lemma FinishedStep(
    t: Tables, es: seq<Ending>, sees: Sight, n: nat, root: JobId, before: Time)
    returns (now: Time)
    requires Family(t, es, root) && 0 < n <= |es| && FinishedTo(t, es, sees, n - 1, root, before)
    ensures FinishedTo(t, es, sees, n, root, now)
  {
    now := if SomeoneCloses(t, es, sees, n - 1, root) then before else es[n - 1].now;
    CloserSeesAll(t, es, sees, n - 1, root);
    assert Member(t, es[n - 1], root);
    FinishedNext(t, es, sees, n, root, before);
  }

  lemma FinishedNext(t: Tables, es: seq<Ending>, sees: Sight, n: nat, root: JobId, now: Time)
    requires 0 < n <= |es| && es[n - 1].h.root == root && FinishedTo(t, es, sees, n - 1, root, now)
    requires CountsSomebody(t, es, sees, n - 1, root)
    ensures FinishedTo(t, es, sees, n, root, if SomeoneCloses(t, es, sees, n - 1, root) then now else es[n - 1].now)
  {
    var closed := SomeoneCloses(t, es, sees, n - 1, root);
    var closes := LastOnes(t.jobs, es, root) && SeesAll(es, sees, n - 1);
    OneFinish(FinishAll(t, es, sees, n - 1), WriteSome(t, es, |es|, Everything()).jobs,
              SeenTable(t, es, sees, n - 1), es[n - 1], root, closed, closes, now);
    SomeoneElse(t, es, sees, n, root);
  }

  /** The last ending of all that sees all counts nobody; every other one counts somebody. */
  ghost predicate CountsSomebody(t: Tables, es: seq<Ending>, sees: Sight, i: nat, root: JobId)
    requires i < |es|
  {
    var all := WriteSome(t, es, |es|, Everything()).jobs;
    var seen := SeenTable(t, es, sees, i);
    if LastOnes(t.jobs, es, root) && SeesAll(es, sees, i)
    then Terminal(EndStatus(es[i])) && seen == all && !HasActive(all, root)
    else HasActive(seen, root)
  }

  lemma CloserSeesAll(t: Tables, es: seq<Ending>, sees: Sight, i: nat, root: JobId)
    requires Family(t, es, root) && i < |es|
    ensures CountsSomebody(t, es, sees, i, root)
  {
    CountFinds(t, es, sees, i, root);
    LeftActive(t, es, root);
  }

  lemma SomeoneElse(t: Tables, es: seq<Ending>, sees: Sight, n: nat, root: JobId)
    requires 0 < n <= |es|
    ensures SomeoneCloses(t, es, sees, n, root) <==>
            SomeoneCloses(t, es, sees, n - 1, root) || (LastOnes(t.jobs, es, root) && SeesAll(es, sees, n - 1))
  {
  }

  lemma OneFinish(
    done: Tables, all: map<JobId, Job>, seen: map<JobId, Job>, e: Ending, root: JobId, closed: bool, closes: bool,
    now: Time)
    requires e.h.root == root && root in all && all[root].status == Waiting
    requires done.jobs == if closed then Closed(all, root, now) else all
    requires if closes then Terminal(EndStatus(e)) && seen == all && !HasActive(all, root) else HasActive(seen, root)
    ensures Finish(done, seen, e).jobs ==
            if closed then Closed(all, root, now) else if closes then Closed(all, root, e.now) else all
  {
  }

  // ------------------------------------------------------------------------- theorems

  /** Any number of overlapping endings, of any kinds, leave their root waiting for nobody
      exactly when they are the last ones and none counts on the writes of all the others.
      Otherwise the root either still has an active descendant or has got its verdict. */
  lemma OverlapStrandsExactly(w: World, es: seq<Ending>, sees: Sight, root: JobId)
    requires Siblings(w, es, root)
    ensures var jobs := Overlap(w.t, es, sees).jobs; var closing := exists i: nat :: i < |es| && SeesAll(es, sees, i);
            && root in jobs
            && (jobs[root].status == Waiting && !HasActive(jobs, root) <==>
                LastOnes(w.t.jobs, es, root) && !closing)
            && (jobs[root].status != Waiting <==> LastOnes(w.t.jobs, es, root) && closing)
            && (jobs[root].status != Waiting ==> !HasActive(jobs, root) && jobs[root].status == Verdict(jobs, root))
  {
    SiblingsAreFamily(w, es, root);
    LeftActive(w.t, es, root);
    var now := FinishedRows(w.t, es, sees, |es|, root);
    var all := WriteSome(w.t, es, |es|, Everything()).jobs;
    if SomeoneCloses(w.t, es, sees, |es|, root) {
      RootRowIrrelevant(all, root, Closed(all, root, now)[root]);
    }
  }

  /** What transactions run one after the other see. */
  function Earlier(): Sight {
    (i: nat, k: nat) => k < i
  }

  /** Transactions run one after the other are the case in which each sees the earlier ones,
      so the last sees all and no root is stranded. */
  lemma SerialIsOverlap(w: World, es: seq<Ending>, root: JobId)
    requires Siblings(w, es, root)
    ensures SerialAll(w.t, es, |es|) == Overlap(w.t, es, Earlier())
    ensures es != [] ==> SeesAll(es, Earlier(), |es| - 1)
  {
    SiblingsAreFamily(w, es, root);
    if es != [] {
      forall i: nat | i < |es| ensures !es[i].Recovering? ==> Owns(w.t.jobs, es[i].h) {
        assert Fits(w, es[i]);
      }
      SerialLast(w.t, es, root);
    }
  }

  lemma {:induction false} SerialWrites(t: Tables, es: seq<Ending>, n: nat, root: JobId)
    requires Family(t, es, root) && n < |es|
    requires forall i: nat :: i < |es| && !es[i].Recovering? ==> Owns(t.jobs, es[i].h)
    ensures SerialAll(t, es, n) == WriteSome(t, es, n, Everything())
    decreases n
  {
    if n > 0 {
      SerialWrites(t, es, n - 1, root);
      SerialNext(t, es, n - 1, root);
      OtherStillSeen(t, es, n, Everything(), root, n);
      assert Member(t, es[n - 1], root);
      NothingFinished(WriteSome(t, es, n, Everything()), es[n - 1], root);
    }
  }

  lemma NothingFinished(t: Tables, e: Ending, root: JobId)
    requires e.h.root == root && HasActive(t.jobs, root)
    ensures Finish(t, t.jobs, e) == t
  {
  }

  /** One more serial transaction after the first m: its writes, then its count on them. */
  lemma SerialNext(t: Tables, es: seq<Ending>, m: nat, root: JobId)
    requires Family(t, es, root) && m < |es| && (!es[m].Recovering? ==> Owns(t.jobs, es[m].h))
    ensures var next := WriteSome(t, es, m + 1, Everything());
            Serial(WriteSome(t, es, m, Everything()), es[m]) == Finish(next, next.jobs, es[m])
  {
    SomeRows(t, es, m, Everything(), root);
    assert Member(t, es[m], root);
    OthersDiffer(t, es, m, Everything(), root, WriteSome(t, es, m, Everything()).jobs);
    SerialIs(WriteSome(t, es, m, Everything()), es[m]);
  }

  lemma SerialLast(t: Tables, es: seq<Ending>, root: JobId)
    requires Family(t, es, root) && es != []
    requires forall i: nat :: i < |es| && !es[i].Recovering? ==> Owns(t.jobs, es[i].h)
    ensures SerialAll(t, es, |es|) == Overlap(t, es, Earlier())
    ensures SeesAll(es, Earlier(), |es| - 1)
  {
    var n := |es| - 1;
    SerialWrites(t, es, n, root);
    SerialNext(t, es, n, root);
    NobodyElseCloses(t, es, n, root);
    CountFinds(t, es, Earlier(), n, root);
  }

  lemma {:induction false} NobodyElseCloses(t: Tables, es: seq<Ending>, n: nat, root: JobId)
    requires Family(t, es, root) && n < |es|
    ensures FinishAll(t, es, Earlier(), n) == WriteSome(t, es, |es|, Everything())
    decreases n
  {
    if n > 0 {
      NobodyElseCloses(t, es, n - 1, root);
      assert !Earlier()(n - 1, n);
      assert !SeesAll(es, Earlier(), n - 1);
      CountFinds(t, es, Earlier(), n - 1, root);
      assert Member(t, es[n - 1], root);
    }
  }

  /** A transaction is its writes followed by the count over them. */
  lemma SerialIs(t: Tables, e: Ending)
    requires WellSized(e) && e.h.id in t.jobs && e.h.id != e.h.root && (!e.Recovering? ==> Owns(t.jobs, e.h))
    ensures Serial(t, e) == Finish(Written(t, e), Written(t, e).jobs, e)
  {
  }
}
