/** Properties of whole runs of the job service: any interleaving of submissions, claims,
    expiries, stale and current writes, cancellations, retries and replays. */
module JobRuns {
  import opened Common
  import opened JobTables
  import opened JobInvariant
  import opened JobSteps

  ghost predicate Run(w: World, acts: seq<Action>)
    decreases |acts|
  {
    acts == [] || (Enabled(w, acts[0]) && Run(Next(w, acts[0]), acts[1..]))
  }

  /** The state after the first `i` actions. */
  ghost function At(w: World, acts: seq<Action>, i: nat): World
    requires Run(w, acts) && i <= |acts|
    decreases i
  {
    if i == 0 then w else At(Next(w, acts[0]), acts[1..], i - 1)
  }

  lemma {:induction false} AtNext(w: World, acts: seq<Action>, i: nat)
    requires Run(w, acts) && i < |acts|
    ensures Enabled(At(w, acts, i), acts[i])
    ensures At(w, acts, i + 1) == Next(At(w, acts, i), acts[i])
    decreases i
  {
    if i > 0 {
      AtNext(Next(w, acts[0]), acts[1..], i - 1);
    }
  }

  lemma EmptyInv()
    ensures WorldInv(EMPTY)
  {
  }

  lemma {:induction false} InvAt(w: World, acts: seq<Action>, i: nat)
    requires WorldInv(w) && Run(w, acts) && i <= |acts|
    ensures WorldInv(At(w, acts, i))
    decreases i
  {
    if i > 0 {
      StepKeeps(w, acts[0]);
      InvAt(Next(w, acts[0]), acts[1..], i - 1);
    }
  }

  /** Every reachable state satisfies the invariant. */
  lemma ReachableInv(acts: seq<Action>, i: nat)
    requires Run(EMPTY, acts) && i <= |acts|
    ensures WorldInv(At(EMPTY, acts, i))
  {
    EmptyInv();
    InvAt(EMPTY, acts, i);
  }

  /** Some run leads to the state. */
  ghost predicate Reached(w: World) {
    exists acts :: Run(EMPTY, acts) && At(EMPTY, acts, |acts|) == w
  }

  lemma {:induction false} RunExtends(w: World, acts: seq<Action>, a: Action)
    requires Run(w, acts) && Enabled(At(w, acts, |acts|), a)
    ensures Run(w, acts + [a]) && At(w, acts + [a], |acts| + 1) == Next(At(w, acts, |acts|), a)
    decreases |acts|
  {
    if acts == [] {
      assert [] + [a] == [a] && [a][1..] == [];
    } else {
      assert (acts + [a])[1..] == acts[1..] + [a];
      RunExtends(Next(w, acts[0]), acts[1..], a);
    }
  }

  lemma EmptyReached()
    ensures Reached(EMPTY)
  {
    assert Run(EMPTY, []) && At(EMPTY, [], 0) == EMPTY;
  }

  lemma ReachedNext(w: World, a: Action)
    requires Reached(w) && Enabled(w, a)
    ensures Reached(Next(w, a))
  {
    var acts :| Run(EMPTY, acts) && At(EMPTY, acts, |acts|) == w;
    RunExtends(EMPTY, acts, a);
    assert |acts + [a]| == |acts| + 1;
  }

  lemma ReachedIsInv(w: World)
    requires Reached(w)
    ensures WorldInv(w)
  {
    var acts :| Run(EMPTY, acts) && At(EMPTY, acts, |acts|) == w;
    ReachableInv(acts, |acts|);
  }

  lemma EvolvesReflexive(t: Tables)
    ensures Evolves(t, t)
  {
  }

  /** From any point of a run to any later one, nothing final is taken back. */
  lemma {:induction false} RunEvolves(acts: seq<Action>, i: nat, j: nat)
    requires Run(EMPTY, acts) && i <= j <= |acts|
    ensures Evolves(At(EMPTY, acts, i).t, At(EMPTY, acts, j).t)
    decreases j - i
  {
    if i == j {
      EvolvesReflexive(At(EMPTY, acts, i).t);
    } else {
      RunEvolves(acts, i, j - 1);
      ReachableInv(acts, j - 1);
      AtNext(EMPTY, acts, j - 1);
      StepKeeps(At(EMPTY, acts, j - 1), acts[j - 1]);
      EvolvesTransitive(At(EMPTY, acts, i).t, At(EMPTY, acts, j - 1).t, At(EMPTY, acts, j).t);
    }
  }

  // ------------------------------------------------------------------------ fencing

  /** A held claim either owns its row, with the current attempt number, or every
      fenced write made with it changes nothing. */
  lemma Fencing(acts: seq<Action>, i: nat, h: Job)
    requires Run(EMPTY, acts) && i <= |acts| && h in At(EMPTY, acts, i).held
    ensures var t := At(EMPTY, acts, i).t;
            && h.id in t.jobs && SameIdentity(t.jobs[h.id], h)
            && (Owns(t.jobs, h) ==> h.attempts == t.jobs[h.id].attempts)
            && (!Owns(t.jobs, h) ==>
                  && (forall now, lease :: Heartbeat(t, h, now, lease) == t)
                  && (forall r: HandlerResult, ids: seq<JobId>, now | |ids| == |r.children| ::
                        Complete(t, h, r, ids, now) == t)
                  && (forall kind, retryAt, now :: Fail(t, h, kind, retryAt, now) == t))
  {
    ReachableInv(acts, i);
    var w := At(EMPTY, acts, i);
    assert HeldOk(w.t, h);
    OwnedIsCurrent(w, h);
  }

  /** At most one of the claims ever handed out owns a job. */
  lemma OneOwner(acts: seq<Action>, i: nat, g: Job, h: Job)
    requires Run(EMPTY, acts) && i <= |acts|
    requires g in At(EMPTY, acts, i).held && h in At(EMPTY, acts, i).held && g.id == h.id
    requires Owns(At(EMPTY, acts, i).t.jobs, g) && Owns(At(EMPTY, acts, i).t.jobs, h)
    ensures g == h
  {
    ReachableInv(acts, i);
    assert SameClaim(At(EMPTY, acts, i), g, h);
  }

  ghost predicate Leased(jobs: map<JobId, Job>, token: Token) {
    exists id <- jobs :: jobs[id].leaseToken == Some(token)
  }

  /** The action that ends the lease of `token`, whoever performs it. */
  ghost predicate Consumes(w: World, a: Action, token: Token)
    requires Enabled(w, a)
  {
    Leased(w.t.jobs, token) && !Leased(Next(w, a).t.jobs, token)
  }

  lemma LeasedIsIssued(w: World, token: Token)
    requires WorldInv(w) && Leased(w.t.jobs, token)
    ensures token in w.issued
  {
    var id :| id in w.t.jobs && w.t.jobs[id].leaseToken == Some(token);
    var k := (id, w.t.jobs[id].attempts);
    assert RowOk(w.t.jobs[id]);
    assert AttemptOk(w.t.jobs, k, w.t.attempts[k]);
  }

  lemma SpentStaysSpent(w: World, a: Action, token: Token)
    requires WorldInv(w) && Enabled(w, a) && token in w.issued && !Leased(w.t.jobs, token)
    ensures token in Next(w, a).issued && !Leased(Next(w, a).t.jobs, token)
  {
    if !Claims(a) {
      QuietStep(w, a);
    }
  }

  lemma {:induction false} SpentForever(acts: seq<Action>, i: nat, j: nat, token: Token)
    requires Run(EMPTY, acts) && i <= j <= |acts|
    requires token in At(EMPTY, acts, i).issued && !Leased(At(EMPTY, acts, i).t.jobs, token)
    ensures token in At(EMPTY, acts, j).issued && !Leased(At(EMPTY, acts, j).t.jobs, token)
    decreases j - i
  {
    if i < j {
      SpentForever(acts, i, j - 1, token);
      ReachableInv(acts, j - 1);
      AtNext(EMPTY, acts, j - 1);
      SpentStaysSpent(At(EMPTY, acts, j - 1), acts[j - 1], token);
    }
  }

  /** Each claim token is consumed at most once in any run. */
  lemma TokenConsumedOnce(acts: seq<Action>, i: nat, j: nat, token: Token)
    requires Run(EMPTY, acts) && i < |acts| && j < |acts|
    requires Enabled(At(EMPTY, acts, i), acts[i]) && Consumes(At(EMPTY, acts, i), acts[i], token)
    requires Enabled(At(EMPTY, acts, j), acts[j]) && Consumes(At(EMPTY, acts, j), acts[j], token)
    ensures i == j
  {
    if i < j {
      ConsumedIsSpent(acts, i, j, token);
    } else if j < i {
      ConsumedIsSpent(acts, j, i, token);
    }
  }

  lemma ConsumedIsSpent(acts: seq<Action>, i: nat, j: nat, token: Token)
    requires Run(EMPTY, acts) && i < j < |acts|
    requires Enabled(At(EMPTY, acts, i), acts[i]) && Consumes(At(EMPTY, acts, i), acts[i], token)
    ensures !Leased(At(EMPTY, acts, j).t.jobs, token)
  {
    ReachableInv(acts, i);
    AtNext(EMPTY, acts, i);
    LeasedIsIssued(At(EMPTY, acts, i), token);
    SpentForever(acts, i + 1, j, token);
  }

  // ------------------------------------------------------------- terminal bookkeeping

  /** What a reader of the tables may rely on at any time. */
  lemma Bookkeeping(acts: seq<Action>, i: nat, id: JobId)
    requires Run(EMPTY, acts) && i <= |acts| && id in At(EMPTY, acts, i).t.jobs
    ensures var t := At(EMPTY, acts, i).t; var j := t.jobs[id];
            && (Terminal(j.status) <==> j.completedAt.Some?)
            && (j.status == Running <==> j.lockedBy.Some?) && (j.status == Running <==> j.leaseToken.Some?)
            && (j.status == Running <==> j.lockedUntil.Some?) && (j.status == Running <==> j.heartbeatAt.Some?)
            && (j.status == DeadLettered <==> exists n :: 0 <= n < |t.dlq| && t.dlq[n].job == id)
            && (forall m, n :: 0 <= m < |t.dlq| && 0 <= n < |t.dlq| && t.dlq[m].job == t.dlq[n].job ==> m == n)
            && (id in t.results ==> j.status == Completed)
            && j.attempts <= j.maxAttempts
            && (Queued(j.status) ==> j.attempts < j.maxAttempts)
            && (forall n: nat :: (id, n) in t.attempts <==> 1 <= n <= j.attempts)
            && (forall n: nat | (id, n) in t.attempts ::
                  t.attempts[(id, n)].status == InProgress <==> j.status == Running && n == j.attempts)
            && (forall other <- t.jobs :: j.key.Some? && t.jobs[other].key == j.key ==> other == id)
            && (forall other <- t.jobs ::
                  j.replayedFrom.Some? && t.jobs[other].replayedFrom == j.replayedFrom ==> other == id)
  {
    ReachableInv(acts, i);
    var t := At(EMPTY, acts, i).t;
    assert RowOk(t.jobs[id]);
    forall n: nat | (id, n) in t.attempts
      ensures 1 <= n <= t.jobs[id].attempts
      ensures t.attempts[(id, n)].status == InProgress <==> t.jobs[id].status == Running && n == t.jobs[id].attempts
    {
      assert AttemptOk(t.jobs, (id, n), t.attempts[(id, n)]);
    }
    if t.jobs[id].status == DeadLettered {
      assert InDlq(t.dlq, id);
    }
    forall other <- t.jobs ensures t.jobs[id].key.Some? && t.jobs[other].key == t.jobs[id].key ==> other == id {
      assert KeysDiffer(t.jobs, id, other);
    }
    forall other <- t.jobs | t.jobs[id].replayedFrom.Some? && t.jobs[other].replayedFrom == t.jobs[id].replayedFrom
      ensures other == id
    {
      ReplayedOnce(t, id, other);
    }
  }

  lemma ReplayedOnce(t: Tables, a: JobId, b: JobId)
    requires DlqInv(t.jobs, t.dlq) && ReplayInv(t.jobs, t.dlq)
    requires a in t.jobs && b in t.jobs && t.jobs[a].replayedFrom.Some?
    requires t.jobs[a].replayedFrom == t.jobs[b].replayedFrom
    ensures a == b
  {
    var s := t.jobs[a].replayedFrom.value;
    assert ReplayedBy(t.dlq, s, a) && ReplayedBy(t.dlq, s, b);
    var m :| 0 <= m < |t.dlq| && t.dlq[m].job == s && t.dlq[m].replayedAs == Some(a);
    var n :| 0 <= n < |t.dlq| && t.dlq[n].job == s && t.dlq[n].replayedAs == Some(b);
    assert m == n;
  }

  /** Terminal rows, finished attempts, results and replayed DLQ rows never change. */
  lemma FinalIsFinal(acts: seq<Action>, i: nat, j: nat, id: JobId)
    requires Run(EMPTY, acts) && i <= j <= |acts| && id in At(EMPTY, acts, i).t.jobs
    ensures var a := At(EMPTY, acts, i).t; var b := At(EMPTY, acts, j).t;
            && id in b.jobs
            && (Terminal(a.jobs[id].status) ==>
                  b.jobs[id].status == a.jobs[id].status && b.jobs[id].completedAt == a.jobs[id].completedAt)
            && (id in a.results ==> id in b.results && b.results[id] == a.results[id])
            && (forall k <- a.attempts :: a.attempts[k].finishedAt.Some? ==>
                  k in b.attempts && b.attempts[k] == a.attempts[k])
            && (forall n :: 0 <= n < |a.dlq| && a.dlq[n].replayedAs.Some? ==> n < |b.dlq| && b.dlq[n] == a.dlq[n])
  {
    RunEvolves(acts, i, j);
    var a, b := At(EMPTY, acts, i).t, At(EMPTY, acts, j).t;
    assert RowEvolves(a.jobs[id], b.jobs[id]);
    forall n | 0 <= n < |a.dlq| && a.dlq[n].replayedAs.Some? ensures b.dlq[n] == a.dlq[n] {
      assert DlqEvolves(a.dlq[n], b.dlq[n]);
    }
  }

  // -------------------------------------------------------------------- bounded work

  predicate InFamily(jobs: map<JobId, Job>, root: JobId, id: JobId) {
    id in jobs && jobs[id].root == root
  }

  /** Claim steps on the family of `root` among the first `n` actions. */
  ghost function ClaimsOn(acts: seq<Action>, n: nat, root: JobId): nat
    requires Run(EMPTY, acts) && n <= |acts|
    decreases n
  {
    if n == 0 then 0
    else
      ClaimsOn(acts, n - 1, root) +
      (if Claims(acts[n - 1]) && InFamily(At(EMPTY, acts, n - 1).t.jobs, root, acts[n - 1].pick.value) then 1 else 0)
  }

  ghost function FamilyAttempts(t: Tables, root: JobId): set<(JobId, nat)> {
    set k <- t.attempts | InFamily(t.jobs, root, k.0)
  }

  /** Every claim leaves exactly one attempt row behind. */
  lemma {:induction false} ClaimsAreAttempts(acts: seq<Action>, n: nat, root: JobId)
    requires Run(EMPTY, acts) && n <= |acts|
    ensures ClaimsOn(acts, n, root) == |FamilyAttempts(At(EMPTY, acts, n).t, root)|
    decreases n
  {
    if n == 0 {
      assert FamilyAttempts(EMPTY.t, root) == {};
    } else {
      ClaimsAreAttempts(acts, n - 1, root);
      ReachableInv(acts, n - 1);
      AtNext(EMPTY, acts, n - 1);
      StepCountsClaims(At(EMPTY, acts, n - 1), acts[n - 1], root);
    }
  }

  lemma AttemptJobsExist(t: Tables)
    requires AttemptsInv(t.jobs, t.attempts)
    ensures forall k <- t.attempts :: k.0 in t.jobs
  {
    forall k <- t.attempts ensures k.0 in t.jobs {
      assert AttemptOk(t.jobs, k, t.attempts[k]);
    }
  }

  lemma FamilyAttemptsSame(a: Tables, b: Tables, root: JobId)
    requires JobsEvolve(a.jobs, b.jobs) && b.attempts.Keys == a.attempts.Keys
    requires forall k <- a.attempts :: k.0 in a.jobs
    ensures FamilyAttempts(b, root) == FamilyAttempts(a, root)
  {
    SameFamilies(a, b, root);
  }

  lemma FamilyAttemptsAdd(a: Tables, b: Tables, root: JobId, k: (JobId, nat))
    requires JobsEvolve(a.jobs, b.jobs) && b.attempts.Keys == a.attempts.Keys + {k} && k !in a.attempts
    requires (forall l <- a.attempts :: l.0 in a.jobs) && k.0 in a.jobs
    ensures |FamilyAttempts(b, root)| == |FamilyAttempts(a, root)| + if InFamily(a.jobs, root, k.0) then 1 else 0
  {
    SameFamilies(a, b, root);
    OneMoreAttempt(a, b, root, k);
  }

  lemma OneMoreAttempt(a: Tables, b: Tables, root: JobId, k: (JobId, nat))
    requires b.attempts.Keys == a.attempts.Keys + {k} && k !in a.attempts
    requires (forall l <- a.attempts :: l.0 in a.jobs) && k.0 in a.jobs
    requires forall id <- a.jobs :: InFamily(a.jobs, root, id) <==> InFamily(b.jobs, root, id)
    ensures |FamilyAttempts(b, root)| == |FamilyAttempts(a, root)| + if InFamily(a.jobs, root, k.0) then 1 else 0
  {
    if InFamily(a.jobs, root, k.0) {
      assert FamilyAttempts(b, root) == FamilyAttempts(a, root) + {k};
    } else {
      assert FamilyAttempts(b, root) == FamilyAttempts(a, root);
    }
  }

  lemma StepCountsClaims(w: World, a: Action, root: JobId)
    requires WorldInv(w) && Enabled(w, a)
    ensures |FamilyAttempts(Next(w, a).t, root)| == |FamilyAttempts(w.t, root)| +
            (if Claims(a) && InFamily(w.t.jobs, root, a.pick.value) then 1 else 0)
  {
    AttemptJobsExist(w.t);
    if Claims(a) {
      var id := a.pick.value;
      assert RowOk(w.t.jobs[id]);
      ClaimCounts(w.t, id, a.worker, a.token, a.now, a.lease, root);
    } else {
      QuietStep(w, a);
      FamilyAttemptsSame(w.t, After(w, a), root);
    }
  }

  lemma ClaimCounts(t: Tables, id: JobId, worker: WorkerId, token: Token, now: Time, lease: Time, root: JobId)
    requires AttemptsInv(t.jobs, t.attempts) && id in t.jobs && Queued(t.jobs[id].status)
    requires t.jobs[id].completedAt.None?
    ensures |FamilyAttempts(Claim(t, id, worker, token, now, lease), root)| ==
            |FamilyAttempts(t, root)| + if InFamily(t.jobs, root, id) then 1 else 0
  {
    var k: (JobId, nat) := (id, t.jobs[id].attempts + 1);
    AttemptJobsExist(t);
    ClaimAddsAttempt(t, id, worker, token, now, lease);
    FamilyAttemptsAdd(t, Claim(t, id, worker, token, now, lease), root, k);
  }

  lemma SameFamilies(a: Tables, b: Tables, root: JobId)
    requires JobsEvolve(a.jobs, b.jobs)
    ensures forall id <- a.jobs :: InFamily(a.jobs, root, id) <==> InFamily(b.jobs, root, id)
  {
    forall id <- a.jobs ensures InFamily(a.jobs, root, id) <==> InFamily(b.jobs, root, id) {
      assert RowEvolves(a.jobs[id], b.jobs[id]);
    }
  }

  /** The children that handlers return for `root` carry a key from `keys` and the whole
      family has a budget of at most `budget` attempts per job. */
  ghost predicate Within(w: World, a: Action, root: JobId, keys: set<string>, budget: nat) {
    match a
    case ASubmit(input, newId, _) => newId == root ==> EffectiveMax(input.maxAttempts) <= budget
    case AReplay(_, maxAttempts, newId, _) => newId == root ==> EffectiveMax(maxAttempts) <= budget
    case ARetry(id, maxAttempts, _, newId, _) =>
      newId == root && id in w.t.jobs ==>
        EffectiveMax(if maxAttempts == 0 then w.t.jobs[id].maxAttempts else maxAttempts) <= budget
    case AComplete(h, r, _, _) =>
      h.root == root ==>
        forall i :: 0 <= i < |r.children| ==>
          r.children[i].key in keys && EffectiveMax(r.children[i].maxAttempts) <= budget
    case _ => true
  }

  ghost predicate AllWithin(acts: seq<Action>, root: JobId, keys: set<string>, budget: nat)
    requires Run(EMPTY, acts)
  {
    forall i :: 0 <= i < |acts| ==> Within(At(EMPTY, acts, i), acts[i], root, keys, budget)
  }

  ghost predicate FamilyWithin(jobs: map<JobId, Job>, root: JobId, keys: set<string>, budget: nat) {
    forall id <- jobs :: jobs[id].root == root ==>
      jobs[id].maxAttempts <= budget && (id != root ==> jobs[id].key.Some? && jobs[id].key.value in keys)
  }

  lemma {:induction false} InsertChildrenWithin(
    jobs: map<JobId, Job>, h: Job, children: seq<Submission>, ids: seq<JobId>, now: Time, root: JobId,
    keys: set<string>, budget: nat)
    requires FamilyWithin(jobs, root, keys, budget) && |ids| == |children|
    requires h.root == root ==> forall i :: 0 <= i < |children| ==>
               children[i].key in keys && EffectiveMax(children[i].maxAttempts) <= budget
    ensures FamilyWithin(InsertChildren(jobs, h, children, ids, now), root, keys, budget)
    decreases children
  {
    if children != [] {
      var jobs1 := InsertUnlessTaken(jobs, ChildRow(h, children[0], ids[0], now));
      assert FamilyWithin(jobs1, root, keys, budget);
      InsertChildrenWithin(jobs1, h, children[1..], ids[1..], now, root, keys, budget);
    }
  }

  /** Existing rows keep what FamilyWithin says; only inserted rows need looking at. */
  lemma WithinSurvives(a: map<JobId, Job>, b: map<JobId, Job>, root: JobId, keys: set<string>, budget: nat)
    requires FamilyWithin(a, root, keys, budget) && JobsEvolve(a, b) && b.Keys == a.Keys
    ensures FamilyWithin(b, root, keys, budget)
  {
    forall id <- b ensures SameIdentity(a[id], b[id]) {
      assert RowEvolves(a[id], b[id]);
    }
  }

  lemma InsertWithin(jobs: map<JobId, Job>, row: Job, root: JobId, keys: set<string>, budget: nat)
    requires FamilyWithin(jobs, root, keys, budget) && row.root == row.id
    requires row.id == root ==> row.maxAttempts <= budget
    ensures FamilyWithin(jobs[row.id := row], root, keys, budget)
  {
  }

  lemma CompleteWithin(
    t: Tables, h: Job, r: HandlerResult, ids: seq<JobId>, now: Time, root: JobId, keys: set<string>, budget: nat)
    requires FamilyWithin(t.jobs, root, keys, budget) && |ids| == |r.children|
    requires h.root == root ==> forall i :: 0 <= i < |r.children| ==>
               r.children[i].key in keys && EffectiveMax(r.children[i].maxAttempts) <= budget
    ensures FamilyWithin(Complete(t, h, r, ids, now).jobs, root, keys, budget)
  {
    if Owns(t.jobs, h) {
      var t1 := EndLease(t, h, h.leaseToken, CompletionStatus(h, r), Ended(Completed), t.jobs[h.id].scheduledAt, now);
      assert FamilyWithin(t1.jobs, root, keys, budget);
      InsertChildrenWithin(t1.jobs, h, r.children, ids, now, root, keys, budget);
      var t2 := CompleteBody(t, h, r, ids, now);
      assert FamilyWithin(t2.jobs, root, keys, budget);
      assert FamilyWithin(FinalizeRoot(t2, h.root, now).jobs, root, keys, budget);
    }
  }

  lemma StepWithin(w: World, a: Action, root: JobId, keys: set<string>, budget: nat)
    requires WorldInv(w) && Enabled(w, a) && Within(w, a, root, keys, budget)
    requires FamilyWithin(w.t.jobs, root, keys, budget)
    ensures FamilyWithin(Next(w, a).t.jobs, root, keys, budget)
  {
    match a
    case ASubmit(input, newId, now) =>
      InsertWithin(w.t.jobs, SubmittedRow(input, newId, now), root, keys, budget);
    case ARetry(id, maxAttempts, hash, newId, now) =>
      if id in w.t.jobs {
        InsertWithin(w.t.jobs, SubmittedRow(RetrySubmission(w.t.jobs[id], maxAttempts, hash), newId, now),
                     root, keys, budget);
      }
    case AReplay(entry, maxAttempts, newId, now) =>
      if entry < |w.t.dlq| {
        InsertWithin(w.t.jobs, ReplayRow(w.t.dlq[entry], maxAttempts, newId, now), root, keys, budget);
      }
    case AComplete(h, r, ids, now) =>
      CompleteWithin(w.t, h, r, ids, now, root, keys, budget);
    case _ =>
      SameRowsStep(w, a);
      WithinSurvives(w.t.jobs, After(w, a).jobs, root, keys, budget);
  }

  lemma FailRows(t: Tables, h: Job, kind: ErrorKind, retryAt: Time, now: Time)
    ensures Fail(t, h, kind, retryAt, now).jobs.Keys == t.jobs.Keys
  {
  }

  lemma CancelRows(t: Tables, id: JobId, now: Time)
    ensures Cancel(t, id, now).jobs.Keys == t.jobs.Keys
  {
  }

  /** The actions that insert no row. */
  lemma SameRowsStep(w: World, a: Action)
    requires WorldInv(w) && Enabled(w, a)
    requires a.AClaim? || a.AHeartbeat? || a.AFail? || a.ACancel? || a.AReclaim?
    ensures After(w, a).jobs.Keys == w.t.jobs.Keys && JobsEvolve(w.t.jobs, After(w, a).jobs)
  {
    match a
    case AClaim(_, _, _, _, pick, _) =>
      if pick.Some? { ClaimEvolves(w, a); } else { EvolvesReflexive(w.t); }
    case AHeartbeat(h, lease, now) => HeartbeatQuiet(w.t, h, now, lease);
    case AFail(h, kind, retryAt, now) =>
      OwnedIsCurrent(w, h);
      FailKeeps(w.t, h, kind, retryAt, now);
      FailRows(w.t, h, kind, retryAt, now);
    case ACancel(id, now) =>
      CancelQuiet(w.t, id, now);
      CancelRows(w.t, id, now);
    case AReclaim(batch, now) => ReclaimAllKeeps(w.t, batch, now);
  }

  lemma {:induction false} RunWithin(acts: seq<Action>, n: nat, root: JobId, keys: set<string>, budget: nat)
    requires Run(EMPTY, acts) && n <= |acts| && AllWithin(acts, root, keys, budget)
    ensures FamilyWithin(At(EMPTY, acts, n).t.jobs, root, keys, budget)
    decreases n
  {
    if n > 0 {
      RunWithin(acts, n - 1, root, keys, budget);
      ReachableInv(acts, n - 1);
      AtNext(EMPTY, acts, n - 1);
      StepWithin(At(EMPTY, acts, n - 1), acts[n - 1], root, keys, budget);
    }
  }

  /** A set of pairs over `xs` and 1..m has at most |xs| * m members. */
  lemma {:induction false} PairsBound(pairs: set<(JobId, nat)>, xs: set<JobId>, m: nat)
    requires forall p <- pairs :: p.0 in xs && 1 <= p.1 <= m
    ensures |pairs| <= |xs| * m
    decreases |xs|
  {
    if xs == {} {
      assert pairs == {};
    } else {
      var x :| x in xs;
      var here := set p <- pairs | p.0 == x;
      var there := set p <- pairs | p.0 != x;
      assert pairs == here + there && here !! there;
      PairsBound(there, xs - {x}, m);
      ColumnBound(here, x, m);
      assert |xs - {x}| * m + m == |xs| * m;
    }
  }

  lemma {:induction false} ColumnBound(pairs: set<(JobId, nat)>, x: JobId, m: nat)
    requires forall p <- pairs :: p.0 == x && 1 <= p.1 <= m
    ensures |pairs| <= m
    decreases m
  {
    if m == 0 {
      assert pairs == {};
    } else {
      var rest := pairs - {(x, m)};
      ColumnBound(rest, x, m - 1);
      assert pairs <= rest + {(x, m)};
      SubsetSize(pairs, rest + {(x, m)});
    }
  }

  ghost function FamilyOf(jobs: map<JobId, Job>, root: JobId): set<JobId> {
    set id <- jobs | jobs[id].root == root
  }

  /** Descendants have distinct keys from `keys`, so there are at most |keys| of them. */
  lemma {:induction false} DescendantsBound(jobs: map<JobId, Job>, ids: set<JobId>, keys: set<string>)
    requires KeysInv(jobs)
    requires forall id <- ids :: id in jobs && jobs[id].key.Some? && jobs[id].key.value in keys
    ensures |ids| <= |keys|
    decreases |ids|
  {
    if ids != {} {
      var id :| id in ids;
      forall other <- ids - {id} ensures jobs[other].key != jobs[id].key {
        assert KeysDiffer(jobs, id, other);
      }
      DescendantsBound(jobs, ids - {id}, keys - {jobs[id].key.value});
    }
  }

  /** However often leases expire, handlers fail and packages are found again, a root
      whose handlers return keys from `keys` costs at most (1 + |keys|) * budget claims. */
  lemma BoundedWork(acts: seq<Action>, root: JobId, keys: set<string>, budget: nat)
    requires Run(EMPTY, acts) && AllWithin(acts, root, keys, budget)
    ensures ClaimsOn(acts, |acts|, root) <= (1 + |keys|) * budget
  {
    var n := |acts|;
    var t := At(EMPTY, acts, n).t;
    ReachableInv(acts, n);
    RunWithin(acts, n, root, keys, budget);
    ClaimsAreAttempts(acts, n, root);
    var family := FamilyOf(t.jobs, root);
    DescendantsBound(t.jobs, family - {root}, keys);
    SubsetSize(family, (family - {root}) + {root});
    forall k <- FamilyAttempts(t, root) ensures k.0 in family && 1 <= k.1 <= budget {
      assert AttemptOk(t.jobs, k, t.attempts[k]);
      assert RowOk(t.jobs[k.0]);
    }
    PairsBound(FamilyAttempts(t, root), family, budget);
    TimesMonotone(|family|, 1 + |keys|, budget);
  }

  lemma TimesMonotone(a: nat, b: nat, m: nat)
    requires a <= b
    ensures a * m <= b * m
  {
  }
}
