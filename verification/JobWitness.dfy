/** Runs from the empty tables that strand a root: by a cancelled child, by child keys that
    are taken, and by two children that end side by side. */
module JobWitness {
  import opened Common
  import opened JobTables
  import opened JobSteps
  import opened JobRuns
  import opened JobRoots
  import opened JobOverlap

  const AUDIT := Submission("dependency_audit", "{}", 3, "", "", None, None, false, None, None)
  const PUBLIC := Submission("demo", "{}", 3, "a", "", None, None, false, None, None)

  function Package(key: string): Submission {
    Submission("audit_npm_package", "{}", 3, key, "", None, None, true, None, None)
  }

  // ----------------------------------------------------------------------- single steps

  /** Submitting without a key, or with a free one, adds a pending root. */
  lemma Submits(w: World, input: Submission, id: JobId, now: Time) returns (next: World)
    requires Reached(w) && PublicSubmission(input) && id !in w.t.jobs && !KeyTaken(w.t.jobs, PublicKey(input.key))
    ensures Reached(next) && next.held == w.held && next.issued == w.issued
    ensures next.t == w.t.(jobs := w.t.jobs[id := SubmittedRow(input, id, now)])
  {
    var a := ASubmit(input, id, now);
    next := Next(w, a);
    ReachedNext(w, a);
  }

  /** Claiming the oldest due job. */
  lemma Claimed(w: World, id: JobId, token: Token, now: Time) returns (next: World)
    requires Reached(w) && Oldest(w.t.jobs, now, {}, id) && token !in w.issued
    ensures Reached(next) && next.issued == w.issued + {token}
    ensures var row := ClaimedRow(w.t.jobs[id], "worker", token, now, 30);
            next.t.jobs == w.t.jobs[id := row] && next.held == w.held + {row}
  {
    var a := AClaim("worker", token, 30, {}, Some(id), now);
    next := Next(w, a);
    ReachedNext(w, a);
  }

  /** Completing a root that returned children. */
  lemma FansOut(w: World, h: Job, children: seq<Submission>, ids: seq<JobId>, now: Time) returns (next: World)
    requires Reached(w) && h in w.held && Owns(w.t.jobs, h) && h.id == h.root && children != []
    requires |ids| == |children| && FreshIds(w.t.jobs, ids) && NonNegativeBudgets(children)
    ensures Reached(next) && next.held == w.held && next.issued == w.issued
    ensures var waiting := ReleasedRow(w.t.jobs[h.id], Waiting, w.t.jobs[h.id].scheduledAt, now);
            next.t.jobs == InsertChildren(w.t.jobs[h.id := waiting], h, children, ids, now)
  {
    var a := AComplete(h, HandlerResult("", children), ids, now);
    next := Next(w, a);
    ReachedNext(w, a);
  }

  lemma ChildInserted(jobs: map<JobId, Job>, h: Job, child: Submission, id: JobId, now: Time)
    ensures InsertChildren(jobs, h, [child], [id], now) == InsertUnlessTaken(jobs, ChildRow(h, child, id, now))
  {
    assert [child][1..] == [] && [id][1..] == [];
  }

  lemma ChildrenInsertedInTurn(
    jobs: map<JobId, Job>, h: Job, a: Submission, b: Submission, i: JobId, k: JobId, now: Time)
    ensures InsertChildren(jobs, h, [a, b], [i, k], now) ==
            InsertUnlessTaken(InsertUnlessTaken(jobs, ChildRow(h, a, i, now)), ChildRow(h, b, k, now))
  {
    assert [a, b][1..] == [b] && [i, k][1..] == [k];
    ChildInserted(InsertUnlessTaken(jobs, ChildRow(h, a, i, now)), h, b, k, now);
  }

  // --------------------------------------------------------------------- an audit begins

  /** An audit has been submitted and claimed. */
  lemma AuditClaimed() returns (w: World, h: Job)
    ensures Reached(w) && w.held == {h} && w.issued == {7} && w.t.jobs == map[0 := h]
    ensures h.id == 0 && h.root == 0 && h.key.None? && Owns(w.t.jobs, h)
  {
    EmptyReached();
    var w1 := Submits(EMPTY, AUDIT, 0, 0);
    w := Claimed(w1, 0, 7, 1);
    h := ClaimedRow(SubmittedRow(AUDIT, 0, 0), "worker", 7, 1, 30);
  }

  /** An audit waits for one pending child. */
  lemma OnePendingChild() returns (w: World, waiting: Job, child: Job)
    ensures Reached(w) && w.t.jobs == map[0 := waiting, 1 := child]
    ensures waiting.status == Waiting && waiting.root == 0 && child.status == Pending && child.root == 0
  {
    var w2, h := AuditClaimed();
    w := FansOut(w2, h, [Package("a")], [1], 2);
    waiting := ReleasedRow(h, Waiting, h.scheduledAt, 2);
    child := ChildRow(h, Package("a"), 1, 2);
    ChildInserted(map[0 := waiting], h, Package("a"), 1, 2);
    assert w2.t.jobs[0 := waiting] == map[0 := waiting];
  }

  /** Cancelling the only child of an audit leaves it waiting for ever. */
  lemma CancelledChildStrands() returns (w: World)
    ensures Reached(w) && !NoneStranded(w.t.jobs)
  {
    var w3, waiting, child := OnePendingChild();
    ReachedIsInv(w3);
    assert HasActive(w3.t.jobs, 0) by {
      assert Descendant(w3.t.jobs, 0, 1);
    }
    StrandedExactly(w3, ACancel(1, 3));
    w := Next(w3, ACancel(1, 3));
    ReachedNext(w3, ACancel(1, 3));
  }

  /** An audit has been claimed after a public job was submitted under a child's key. */
  lemma KeyTakenFirst() returns (w: World, h: Job, other: Job)
    ensures Reached(w) && h in w.held && w.t.jobs == map[0 := h, 1 := other] && other.status == Pending
    ensures h.id == 0 && h.root == 0 && Owns(w.t.jobs, h) && other.key == Some("a")
  {
    var w2, root;
    w2, root, other := TwoSubmitted();
    w := Claimed(w2, 0, 7, 1);
    h := ClaimedRow(root, "worker", 7, 1, 30);
  }

  lemma TwoSubmitted() returns (w: World, root: Job, other: Job)
    ensures Reached(w) && w.t.jobs == map[0 := root, 1 := other] && w.issued == {}
    ensures root.status == Pending && root.id == 0 && root.root == 0 && root.scheduledAt == 0
    ensures other.status == Pending && other.id == 1 && other.scheduledAt == 1 && other.key == Some("a")
  {
    EmptyReached();
    var w1 := Submits(EMPTY, AUDIT, 0, 0);
    w := Submits(w1, PUBLIC, 1, 1);
    root, other := SubmittedRow(AUDIT, 0, 0), SubmittedRow(PUBLIC, 1, 1);
  }

  /** A public job has taken the key of the only child, so completing the audit inserts
      nothing and leaves it waiting for ever. */
  lemma TakenKeyStrands() returns (w: World)
    ensures Reached(w) && !NoneStranded(w.t.jobs)
  {
    var w3, h, other := KeyTakenFirst();
    assert KeyTaken(w3.t.jobs, Some(Package("a").key)) by {
      assert w3.t.jobs[1].key == Some("a");
    }
    assert w3.t.jobs[0] == h && h.status == Running && other.status == Pending;
    w := TakenKeyEnds(w3, h, Package("a"), 2, 2);
  }

  lemma TakenKeyEnds(w: World, h: Job, child: Submission, id: JobId, now: Time) returns (next: World)
    requires Reached(w) && NoneStranded(w.t.jobs) && h in w.held && Owns(w.t.jobs, h) && h.id == h.root
    requires KeyTaken(w.t.jobs, Some(child.key)) && id !in w.t.jobs && 0 <= child.maxAttempts
    ensures Reached(next) && !NoneStranded(next.t.jobs)
  {
    var a := AComplete(h, HandlerResult("", [child]), [id], now);
    ReachedIsInv(w);
    StrandedExactly(w, a);
    next := Next(w, a);
    ReachedNext(w, a);
  }

  /** An audit waits for two pending children. */
  lemma TwoPendingChildren() returns (w: World, a: Job, b: Job)
    ensures Reached(w) && w.issued == {7} && w.t.jobs.Keys == {0, 1, 2}
    ensures w.t.jobs[0].status == Waiting && w.t.jobs[1] == a && w.t.jobs[2] == b
    ensures a.status == Pending && a.id == 1 && a.root == 0 && a.scheduledAt == 2 && a.createdAt == 2
    ensures b.status == Pending && b.id == 2 && b.root == 0 && b.scheduledAt == 2 && b.createdAt == 2
  {
    var w2, root := AuditClaimed();
    var first, second := Package("a"), Package("b");
    w := FansOut(w2, root, [first, second], [1, 2], 2);
    var waiting := ReleasedRow(root, Waiting, root.scheduledAt, 2);
    a, b := ChildRow(root, first, 1, 2), ChildRow(root, second, 2, 2);
    assert first.key[0] != second.key[0];
    TwoInserted(map[0 := waiting], root, first, second, 2);
    assert w2.t.jobs[0 := waiting] == map[0 := waiting];
  }

  lemma TwoInserted(jobs: map<JobId, Job>, h: Job, a: Submission, b: Submission, now: Time)
    requires jobs.Keys == {0} && jobs[0].key.None? && a.key != b.key
    ensures InsertChildren(jobs, h, [a, b], [1, 2], now) ==
            jobs[1 := ChildRow(h, a, 1, now)][2 := ChildRow(h, b, 2, now)]
  {
    ChildrenInsertedInTurn(jobs, h, a, b, 1, 2, now);
  }

  /** Both children of an audit are running, and nothing else is left of it. */
  lemma TwoRunningChildren() returns (w: World, g: Job, h: Job)
    ensures Reached(w) && g in w.held && h in w.held && w.t.jobs.Keys == {0, 1, 2}
    ensures w.t.jobs[0].status == Waiting && w.t.jobs[1] == g && w.t.jobs[2] == h
    ensures g.id == 1 && h.id == 2 && g.root == 0 && h.root == 0 && Owns(w.t.jobs, g) && Owns(w.t.jobs, h)
  {
    var w3, a, b := TwoPendingChildren();
    var w4 := Claimed(w3, 1, 8, 3);
    g := ClaimedRow(a, "worker", 8, 3, 30);
    w := Claimed(w4, 2, 9, 4);
    h := ClaimedRow(b, "worker", 9, 4, 30);
  }

  function CompleteBoth(g: Job, h: Job, now: Time): seq<Ending> {
    [Completing(g, HandlerResult("", []), [], now), Completing(h, HandlerResult("", []), [], now)]
  }

  function NoneSeen(): Sight {
    (i: nat, k: nat) => false
  }

  /** The two children complete side by side, neither counting on the other: the audit is
      left waiting with nothing to wait for. */
  lemma OverlapCanStrand() returns (w: World, es: seq<Ending>)
    ensures Reached(w) && |es| == 2 && Siblings(w, es, 0) && LastOnes(w.t.jobs, es, 0)
    ensures !NoneStranded(Overlap(w.t, es, NoneSeen()).jobs)
  {
    var g, h;
    w, g, h := TwoRunningChildren();
    es := CompleteBoth(g, h, 5);
    ReachedIsInv(w);
    BothComplete(w, g, h, 5);
    NobodySees(es);
    OverlapStrandsExactly(w, es, NoneSeen(), 0);
  }

  lemma NobodySees(es: seq<Ending>)
    requires |es| == 2
    ensures forall i: nat :: !SeesAll(es, NoneSeen(), i)
  {
    forall i: nat ensures !SeesAll(es, NoneSeen(), i) {
      assert !NoneSeen()(i, 1 - if i == 0 then 0 else 1);
    }
  }

  /** The last two running children of an audit, each about to complete without children. */
  lemma BothComplete(w: World, g: Job, h: Job, now: Time)
    requires WorldInv(w) && g in w.held && h in w.held && w.t.jobs.Keys == {0, 1, 2}
    requires w.t.jobs[0].status == Waiting && w.t.jobs[1] == g && w.t.jobs[2] == h
    requires g.id == 1 && h.id == 2 && g.root == 0 && h.root == 0 && Owns(w.t.jobs, g) && Owns(w.t.jobs, h)
    ensures var es := CompleteBoth(g, h, now); Siblings(w, es, 0) && LastOnes(w.t.jobs, es, 0)
  {
    var es := CompleteBoth(g, h, now);
    assert Fits(w, es[0]) && Fits(w, es[1]);
    BothAreLast(w.t.jobs, g, h, now);
  }

  lemma BothAreLast(jobs: map<JobId, Job>, g: Job, h: Job, now: Time)
    requires jobs.Keys == {0, 1, 2} && g.id == 1 && h.id == 2 && g.root == 0 && h.root == 0
    ensures Apart(CompleteBoth(g, h, now)) && LastOnes(jobs, CompleteBoth(g, h, now), 0)
  {
    var es := CompleteBoth(g, h, now);
    assert es[0].h.id == 1 && es[1].h.id == 2;
    assert Ends(es, 1) && Ends(es, 2);
  }
}
