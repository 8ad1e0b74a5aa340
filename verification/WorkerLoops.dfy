/** The event loops of any number of workers side by side, with the store's answers and all
    other steps in between. */
module WorkerLoops {
  import opened Common
  import opened JobTables
  import opened JobSteps
  import opened JobRuns
  import opened JobLeases
  import opened Worker

  /** A loop waits in its select, or has decided on its final call, or that call has been
      committed. A final call that never reaches the store stays in Leaving. */
  datatype Phase = Selecting | Leaving(call: Call) | Over

  /** One call of process. `missed` says that its last heartbeat returned an error. */
  datatype Loop = Loop(
    h: Job, supported: bool, stopping: bool, phase: Phase, missed: bool, events: seq<Event>, calls: seq<Call>)

  datatype Crew = Crew(w: World, loops: map<nat, Loop>)

  /** What the final call passes to the store beside the snapshot. */
  datatype Details = Details(result: HandlerResult, ids: seq<JobId>, retryAt: Time, now: Time)

  /** Client is any step of the protocol that no loop makes; a heartbeat whose reply was
      lost may be committed as such a step, too. Start is a claim and the loop around the
      row it returned. */
  datatype Step =
    | Client(action: Action)
    | Start(id: nat, supported: bool, claim: Action)
    | Hear(id: nat, event: Event)
    | Beat(id: nat, lease: Time, now: Time)
    | Miss(id: nat)
    | Deliver(id: nat, details: Details)

  const NOBODY := Crew(EMPTY, map[])

  function FinalCall(h: Job, call: Call, d: Details): Action
    requires Final(call)
  {
    match call
    case CallComplete => AComplete(h, d.result, d.ids, d.now)
    case CallFail(kind) => AFail(h, kind, d.retryAt, d.now)
  }

  function Opened(h: Job, supported: bool): Loop {
    if supported then Loop(h, true, false, Selecting, false, [], [])
    else Loop(h, false, false, Leaving(CallFail(Permanent)), false, [], [CallFail(Permanent)])
  }

  function Decide(l: Loop, call: Call): Loop {
    l.(phase := Leaving(call), calls := l.calls + [call])
  }

  /** One round of the select. */
  function Heard(l: Loop, e: Event): Loop {
    var noted := l.(events := l.events + [e]);
    match e
    case RunCancelled => noted.(stopping := true)
    case ShutdownTimeout => if l.stopping then Decide(noted, CallFail(Transient)) else noted
    case Responded(error) => Decide(noted, if error.None? then CallComplete else CallFail(error.value))
    case Tick(owned) =>
      var beaten := noted.(calls := l.calls + [CallHeartbeat]);
      if owned then beaten else Decide(beaten, CallFail(CancelledKind))
  }

  predicate Selects(c: Crew, id: nat) {
    id in c.loops && c.loops[id].phase.Selecting?
  }

  predicate Leaves(c: Crew, id: nat) {
    id in c.loops && c.loops[id].phase.Leaving? && Final(c.loops[id].phase.call)
  }

  /** The ids drawn for the children are fresh. */
  predicate Drawn(jobs: map<JobId, Job>, call: Call, d: Details) {
    call.CallComplete? ==>
      |d.ids| == |d.result.children| && FreshIds(jobs, d.ids) && NonNegativeBudgets(d.result.children)
  }

  ghost predicate Can(c: Crew, s: Step) {
    match s
    case Client(a) => Enabled(c.w, a) && !Claims(a) && !a.AComplete? && !a.AFail?
    case Start(id, _, a) => id !in c.loops && Claims(a) && Enabled(c.w, a)
    case Hear(id, e) => Selects(c, id) && !e.Tick?
    case Beat(id, _, _) => Selects(c, id)
    case Miss(id) => Selects(c, id)
    case Deliver(id, d) => Leaves(c, id) && Drawn(c.w.t.jobs, c.loops[id].phase.call, d)
  }

  /** The transaction that the step commits, if any. */
  ghost function Commits(c: Crew, s: Step): Option<Action>
    requires Can(c, s)
  {
    match s
    case Client(a) => Some(a)
    case Start(_, _, a) => Some(a)
    case Hear(_, _) => None
    case Beat(id, lease, now) => Some(AHeartbeat(c.loops[id].h, lease, now))
    case Miss(_) => None
    case Deliver(id, d) => Some(FinalCall(c.loops[id].h, c.loops[id].phase.call, d))
  }

  /** The loop after its own step. A tick hears what the store answers. */
  ghost function Moved(c: Crew, s: Step): Loop
    requires Can(c, s) && !s.Client?
  {
    match s
    case Start(_, supported, a) => Opened(Next(c.w, a).t.jobs[a.pick.value], supported)
    case Hear(id, e) => Heard(c.loops[id], e)
    case Beat(id, _, _) => Heard(c.loops[id], Tick(Extends(c.w.t.jobs, c.loops[id].h)))
    case Miss(id) => Heard(c.loops[id], Tick(false)).(missed := true)
    case Deliver(id, _) => c.loops[id].(phase := Over)
  }

  ghost predicate Allowed(w: World, a: Option<Action>) {
    a.Some? ==> Enabled(w, a.value)
  }

  ghost function WorldAfter(w: World, a: Option<Action>): World {
    if a.Some? && Enabled(w, a.value) then Next(w, a.value) else w
  }

  ghost function Then(c: Crew, s: Step): Crew
    requires Can(c, s)
  {
    Crew(WorldAfter(c.w, Commits(c, s)), if s.Client? then c.loops else c.loops[s.id := Moved(c, s)])
  }

  ghost predicate StepAt(crews: seq<Crew>, steps: seq<Step>, i: nat)
    requires |crews| == |steps| + 1 && i < |steps|
  {
    Can(crews[i], steps[i]) && crews[i + 1] == Then(crews[i], steps[i])
  }

  /** Any interleaving, from empty tables and no loops. */
  ghost predicate Works(crews: seq<Crew>, steps: seq<Step>) {
    && |crews| == |steps| + 1 && crews[0] == NOBODY
    && forall i: nat {:trigger StepAt(crews, steps, i)} :: i < |steps| ==> StepAt(crews, steps, i)
  }

  // ----------------------------------------------------------------------- one loop

  function LastEvent(l: Loop): Option<Event> {
    if l.events == [] then None else Some(l.events[|l.events| - 1])
  }

  /** The loop has made the calls that process makes of its events, and is where they
      lead. */
  predicate Follows(l: Loop) {
    && l.stopping == (RunCancelled in l.events)
    && l.calls == Answers(l.supported, l.events)
    && (l.phase.Selecting? <==> l.supported && EndsWith(l.events, false).None?)
    && (l.phase.Leaving? ==> Final(l.phase.call))
    && (l.phase.Leaving? ==>
          if l.supported then LastEvent(l).Some? && EndsWith([LastEvent(l).value], l.stopping) == Some(l.phase.call)
          else l.phase.call == CallFail(Permanent))
  }

  lemma OpenedFollows(h: Job, supported: bool)
    ensures Follows(Opened(h, supported))
  {
  }

  lemma HeardFollows(l: Loop, e: Event)
    requires Follows(l) && l.phase.Selecting?
    ensures Follows(Heard(l, e))
  {
    OneMoreEvent(l.events, e, false);
    assert RunCancelled in l.events + [e] <==> RunCancelled in l.events || e == RunCancelled;
  }

  /** Told by the store, in answer to its last heartbeat, to stop. */
  predicate ToldToStop(l: Loop) {
    LastEvent(l) == Some(Tick(false)) && !l.missed
  }

  ghost predicate LoopOk(w: World, l: Loop) {
    && Follows(l) && l.h in w.held
    && (l.phase.Over? ==> !Owns(w.t.jobs, l.h))
    && (ToldToStop(l) ==> !Extends(w.t.jobs, l.h))
    && (l.missed ==> !l.phase.Selecting? && LastEvent(l) == Some(Tick(false)))
  }

  predicate OtherClaim(c: Crew, i: nat, j: nat) {
    i in c.loops && j in c.loops && (i != j ==> c.loops[i].h != c.loops[j].h)
  }

  ghost predicate ClaimsApart(c: Crew) {
    forall i, j {:trigger OtherClaim(c, i, j)} :: i in c.loops && j in c.loops ==> OtherClaim(c, i, j)
  }

  ghost predicate CrewInv(c: Crew) {
    && Reached(c.w)
    && (forall id <- c.loops :: LoopOk(c.w, c.loops[id]))
    && ClaimsApart(c)
  }

  // --------------------------------------------------------------------- one step

  /** No call of a loop is ever refused, however stale its snapshot. */
  lemma NeverRefused(c: Crew, s: Step)
    requires CrewInv(c) && Can(c, s)
    ensures Allowed(c.w, Commits(c, s))
  {
    if s.Beat? || s.Deliver? {
      assert LoopOk(c.w, c.loops[s.id]);
    }
  }

  /** A lease that no heartbeat prolongs will not be prolonged by a later one. */
  lemma StaysUnextended(w: World, a: Action, h: Job)
    requires WorldInv(w) && Enabled(w, a) && h in w.held && !Extends(w.t.jobs, h)
    ensures !Extends(Next(w, a).t.jobs, h)
  {
    if Owns(w.t.jobs, h) {
      LeaseEndsExactly(w, a, h.id);
    } else {
      LostForGood(w, a, h);
    }
  }

  lemma LoopKeeps(w: World, a: Option<Action>, l: Loop)
    requires WorldInv(w) && Allowed(w, a) && LoopOk(w, l)
    ensures LoopOk(WorldAfter(w, a), l)
  {
    if a.Some? {
      if !Owns(w.t.jobs, l.h) {
        LostForGood(w, a.value, l.h);
      }
      if !Extends(w.t.jobs, l.h) {
        StaysUnextended(w, a.value, l.h);
      }
    }
  }

  lemma DeliverLoses(w: World, h: Job, call: Call, d: Details)
    requires WorldInv(w) && h in w.held && Final(call) && Drawn(w.t.jobs, call, d)
    ensures !Owns(Next(w, FinalCall(h, call, d)).t.jobs, h)
  {
    var a := FinalCall(h, call, d);
    if Owns(w.t.jobs, h) {
      LeaseEndsExactly(w, a, h.id);
    } else {
      LostForGood(w, a, h);
    }
  }

  /** The loop whose step it is. */
  lemma MoverKeeps(c: Crew, s: Step)
    requires CrewInv(c) && Can(c, s) && !s.Client?
    ensures LoopOk(Then(c, s).w, Moved(c, s))
  {
    NeverRefused(c, s);
    ReachedIsInv(c.w);
    if !s.Start? {
      assert LoopOk(c.w, c.loops[s.id]);
    }
    match s
    case Start(_, supported, a) => OpenedFollows(Next(c.w, a).t.jobs[a.pick.value], supported);
    case Hear(id, e) => HearKeeps(c.w, c.loops[id], e);
    case Beat(id, lease, now) => BeatKeeps(c.w, c.loops[id], lease, now);
    case Miss(id) => MissKeeps(c.w, c.loops[id]);
    case Deliver(id, d) => DeliverKeeps(c.w, c.loops[id], d);
  }

  lemma MissKeeps(w: World, l: Loop)
    requires LoopOk(w, l) && l.phase.Selecting?
    ensures LoopOk(w, Heard(l, Tick(false)).(missed := true))
  {
    HeardFollows(l, Tick(false));
  }

  lemma DeliverKeeps(w: World, l: Loop, d: Details)
    requires WorldInv(w) && LoopOk(w, l) && l.phase.Leaving? && Drawn(w.t.jobs, l.phase.call, d)
    ensures LoopOk(Next(w, FinalCall(l.h, l.phase.call, d)), l.(phase := Over))
  {
    DeliverLoses(w, l.h, l.phase.call, d);
    LoopKeeps(w, Some(FinalCall(l.h, l.phase.call, d)), l);
  }

  lemma HearKeeps(w: World, l: Loop, e: Event)
    requires LoopOk(w, l) && l.phase.Selecting? && !e.Tick?
    ensures LoopOk(w, Heard(l, e))
  {
    HeardFollows(l, e);
  }

  lemma BeatKeeps(w: World, l: Loop, lease: Time, now: Time)
    requires WorldInv(w) && LoopOk(w, l) && l.phase.Selecting?
    ensures LoopOk(Next(w, AHeartbeat(l.h, lease, now)), Heard(l, Tick(Extends(w.t.jobs, l.h))))
  {
    HeardFollows(l, Tick(Extends(w.t.jobs, l.h)));
    if !Extends(w.t.jobs, l.h) {
      StaysUnextended(w, AHeartbeat(l.h, lease, now), l.h);
    }
  }

  /** A snapshot that has just been claimed is not the snapshot of any loop. */
  lemma ClaimIsNew(c: Crew, a: Action, id: nat)
    requires CrewInv(c) && Claims(a) && Enabled(c.w, a) && id in c.loops
    ensures c.loops[id].h != Next(c.w, a).t.jobs[a.pick.value]
  {
    ReachedIsInv(c.w);
    assert LoopOk(c.w, c.loops[id]);
    assert HeldOk(c.w.t, c.loops[id].h);
  }

  /** A step that leaves every loop its snapshot. */
  lemma SameSnapshots(c: Crew, c': Crew)
    requires ClaimsApart(c) && c'.loops.Keys == c.loops.Keys && forall id <- c.loops :: c'.loops[id].h == c.loops[id].h
    ensures ClaimsApart(c')
  {
    forall i, j | i in c'.loops && j in c'.loops ensures OtherClaim(c', i, j) {
      assert OtherClaim(c, i, j);
    }
  }

  lemma OneMoreClaim(c: Crew, c': Crew, id: nat, l: Loop)
    requires ClaimsApart(c) && id !in c.loops && c'.loops == c.loops[id := l]
    requires forall other <- c.loops :: c.loops[other].h != l.h
    ensures ClaimsApart(c')
  {
    forall i, j | i in c'.loops && j in c'.loops ensures OtherClaim(c', i, j) {
      if i != id && j != id {
        assert OtherClaim(c, i, j);
      }
    }
  }

  lemma StartedApart(c: Crew, s: Step)
    requires CrewInv(c) && Can(c, s) && s.Start?
    ensures ClaimsApart(Then(c, s))
  {
    forall other <- c.loops ensures c.loops[other].h != Moved(c, s).h {
      ClaimIsNew(c, s.claim, other);
    }
    OneMoreClaim(c, Then(c, s), s.id, Moved(c, s));
  }

  lemma ClaimsStayApart(c: Crew, s: Step)
    requires CrewInv(c) && Can(c, s)
    ensures ClaimsApart(Then(c, s))
  {
    if s.Start? {
      StartedApart(c, s);
    } else {
      SnapshotsStay(c, s);
      SameSnapshots(c, Then(c, s));
    }
  }

  lemma SnapshotsStay(c: Crew, s: Step)
    requires Can(c, s) && !s.Start?
    ensures Then(c, s).loops.Keys == c.loops.Keys && forall id <- c.loops :: Then(c, s).loops[id].h == c.loops[id].h
  {
  }

  lemma CrewStep(c: Crew, s: Step)
    requires CrewInv(c) && Can(c, s)
    ensures CrewInv(Then(c, s))
  {
    var c' := Then(c, s);
    NeverRefused(c, s);
    ReachedIsInv(c.w);
    if Commits(c, s).Some? {
      ReachedNext(c.w, Commits(c, s).value);
    }
    forall id <- c'.loops ensures LoopOk(c'.w, c'.loops[id]) {
      if !s.Client? && id == s.id {
        MoverKeeps(c, s);
      } else {
        assert LoopOk(c.w, c.loops[id]);
        LoopKeeps(c.w, Commits(c, s), c.loops[id]);
      }
    }
    ClaimsStayApart(c, s);
  }

  // -------------------------------------------------------------------- whole runs

  lemma {:induction false} CrewAt(crews: seq<Crew>, steps: seq<Step>, i: nat)
    requires Works(crews, steps) && i <= |steps|
    ensures CrewInv(crews[i])
    decreases i
  {
    if i == 0 {
      EmptyReached();
    } else {
      CrewAt(crews, steps, i - 1);
      assert StepAt(crews, steps, i - 1);
      CrewStep(crews[i - 1], steps[i - 1]);
    }
  }

  /** Loops in any interleaving are a run of the protocol, none of their calls is ever
      refused, and each has made, with the store's own answers to its heartbeats, exactly
      the calls that process makes. */
  lemma LoopsFollowProcess(crews: seq<Crew>, steps: seq<Step>, i: nat)
    requires Works(crews, steps) && i <= |steps|
    ensures Reached(crews[i].w)
    ensures i < |steps| ==> Can(crews[i], steps[i]) && Allowed(crews[i].w, Commits(crews[i], steps[i]))
    ensures forall id <- crews[i].loops :: var l := crews[i].loops[id];
              && l.h in crews[i].w.held && l.calls == Answers(l.supported, l.events)
              && (l.phase.Selecting? <==> l.supported && EndsWith(l.events, false).None?)
  {
    CrewAt(crews, steps, i);
    if i < |steps| {
      assert StepAt(crews, steps, i);
      NeverRefused(crews[i], steps[i]);
    }
    forall id <- crews[i].loops
      ensures var l := crews[i].loops[id];
              && l.h in crews[i].w.held && l.calls == Answers(l.supported, l.events)
              && (l.phase.Selecting? <==> l.supported && EndsWith(l.events, false).None?)
    {
      assert LoopOk(crews[i].w, crews[i].loops[id]);
    }
  }

  lemma OverStays(c: Crew, s: Step, id: nat)
    requires Can(c, s) && id in c.loops && c.loops[id].phase.Over?
    ensures id in Then(c, s).loops && Then(c, s).loops[id] == c.loops[id]
  {
  }

  /** After its final call has been committed, a loop makes no call and its snapshot never
      again owns a row: every fenced write with it changes nothing. */
  lemma {:induction false} OverIsOver(crews: seq<Crew>, steps: seq<Step>, i: nat, j: nat, id: nat)
    requires Works(crews, steps) && i <= j <= |steps| && id in crews[i].loops && crews[i].loops[id].phase.Over?
    ensures id in crews[j].loops && crews[j].loops[id] == crews[i].loops[id]
    ensures !Owns(crews[j].w.t.jobs, crews[i].loops[id].h)
    decreases j
  {
    CrewAt(crews, steps, j);
    if i < j {
      OverIsOver(crews, steps, i, j - 1, id);
      assert StepAt(crews, steps, j - 1);
      OverStays(crews[j - 1], steps[j - 1], id);
    }
    assert LoopOk(crews[j].w, crews[j].loops[id]);
  }

  /** The step recovers the row of the loop. */
  ghost predicate Recovers(s: Step, l: Loop) {
    s.Client? && s.action.AReclaim? && InBatch(s.action.batch, l.h.id)
  }

  /** An owning loop loses its row in exactly two ways: by its own final call, or because
      the row is recovered. No other loop and no client can take it away. */
  lemma LoopLosesExactly(crews: seq<Crew>, steps: seq<Step>, i: nat, id: nat)
    requires Works(crews, steps) && i < |steps| && id in crews[i].loops
    requires Owns(crews[i].w.t.jobs, crews[i].loops[id].h)
    ensures !Owns(crews[i + 1].w.t.jobs, crews[i].loops[id].h) <==>
            (steps[i].Deliver? && steps[i].id == id) || Recovers(steps[i], crews[i].loops[id])
  {
    CrewAt(crews, steps, i);
    assert StepAt(crews, steps, i);
    StepLosesExactly(crews[i], steps[i], id);
  }

  lemma StepLosesExactly(c: Crew, s: Step, id: nat)
    requires CrewInv(c) && Can(c, s) && id in c.loops && Owns(c.w.t.jobs, c.loops[id].h)
    ensures !Owns(Then(c, s).w.t.jobs, c.loops[id].h) <==> (s.Deliver? && s.id == id) || Recovers(s, c.loops[id])
  {
    NeverRefused(c, s);
    if Commits(c, s).Some? {
      OwnerLosesExactly(c.w, Commits(c, s).value, c.loops[id].h);
      EndedBy(c, s, id);
    }
  }

  lemma EndedBy(c: Crew, s: Step, id: nat)
    requires CrewInv(c) && Can(c, s) && id in c.loops && Owns(c.w.t.jobs, c.loops[id].h) && Commits(c, s).Some?
    requires Enabled(c.w, Commits(c, s).value)
    ensures EndsLease(c.w, Commits(c, s).value, c.loops[id].h.id) <==>
            (s.Deliver? && s.id == id) || Recovers(s, c.loops[id])
  {
    if s.Deliver? && s.id != id && c.loops[s.id].h.id == c.loops[id].h.id {
      NotByAnother(c, s.id, id);
    }
  }

  /** Of two loops around claims of one job at most one owns it. */
  lemma NotByAnother(c: Crew, other: nat, id: nat)
    requires CrewInv(c) && other in c.loops && id in c.loops && other != id
    requires Owns(c.w.t.jobs, c.loops[id].h) && c.loops[other].h.id == c.loops[id].h.id
    ensures !Owns(c.w.t.jobs, c.loops[other].h)
  {
    ReachedIsInv(c.w);
    assert LoopOk(c.w, c.loops[id]) && LoopOk(c.w, c.loops[other]);
    assert OtherClaim(c, other, id);
    assert SameClaim(c.w, c.loops[other].h, c.loops[id].h);
  }

  // ------------------------------------------------------- cancelled without a request

  /** The loop is to fail its job as cancelled although the store has not told it to: the
      heartbeat returned an error, or the handler says so itself. */
  predicate CancelsByItself(l: Loop) {
    l.phase == Leaving(CallFail(CancelledKind)) && (l.missed || LastEvent(l) == Some(Responded(Some(CancelledKind))))
  }

  lemma ByItselfOrTold(l: Loop)
    requires Follows(l) && l.phase.Leaving?
    ensures l.phase.call == CallFail(CancelledKind) <==>
            l.supported && (LastEvent(l) == Some(Tick(false)) || LastEvent(l) == Some(Responded(Some(CancelledKind))))
  {
    if l.supported {
      var e := LastEvent(l).value;
      assert EndsWith([e][1..], true).None? && EndsWith([e][1..], false).None?;
    }
  }

  /** The step is the final call of an owner that cancels by itself. */
  ghost predicate OwnerCancels(c: Crew, s: Step, job: JobId) {
    && s.Deliver? && s.id in c.loops && c.loops[s.id].h.id == job
    && Owns(c.w.t.jobs, c.loops[s.id].h) && CancelsByItself(c.loops[s.id])
  }

  /** A running job that nobody asked to cancel becomes cancelled exactly when its owner's
      heartbeat returned an error or its handler answered so. A heartbeat that the store
      answered never leads there. */
  lemma UnaskedExactly(crews: seq<Crew>, steps: seq<Step>, i: nat, job: JobId)
    requires Works(crews, steps) && i < |steps| && Runs(crews[i].w.t.jobs, job)
    requires crews[i].w.t.jobs[job].cancelRequestedAt.None?
    ensures job in crews[i + 1].w.t.jobs
    ensures crews[i + 1].w.t.jobs[job].status == Cancelled <==> OwnerCancels(crews[i], steps[i], job)
  {
    CrewAt(crews, steps, i);
    assert StepAt(crews, steps, i);
    UnaskedStep(crews[i], steps[i], job);
  }

  lemma UnaskedStep(c: Crew, s: Step, job: JobId)
    requires CrewInv(c) && Can(c, s) && Runs(c.w.t.jobs, job) && c.w.t.jobs[job].cancelRequestedAt.None?
    ensures job in Then(c, s).w.t.jobs
    ensures Then(c, s).w.t.jobs[job].status == Cancelled <==> OwnerCancels(c, s, job)
  {
    NeverRefused(c, s);
    if Commits(c, s).Some? {
      LeaseEndsExactly(c.w, Commits(c, s).value, job);
    }
    if s.Deliver? {
      assert LoopOk(c.w, c.loops[s.id]);
      UnaskedDelivery(c.w, c.loops[s.id], s.details, job);
    }
  }

  lemma UnaskedDelivery(w: World, l: Loop, d: Details, job: JobId)
    requires LoopOk(w, l) && l.phase.Leaving? && Runs(w.t.jobs, job) && w.t.jobs[job].cancelRequestedAt.None?
    ensures var a := FinalCall(l.h, l.phase.call, d);
            EndsLease(w, a, job) && EndStatus(w.t.jobs, a, job) == Cancelled <==>
            l.h.id == job && Owns(w.t.jobs, l.h) && CancelsByItself(l)
  {
    ByItselfOrTold(l);
    if l.h.id == job && Owns(w.t.jobs, l.h) {
      assert !ToldToStop(l);
    }
  }

  // --------------------------------------------- a missed heartbeat cancels its job

  const DEMO := Submission("demo", "{}", 3, "", "", None, None, false, None, None)
  const ROW := ClaimedRow(SubmittedRow(DEMO, 0, 0), "worker", 7, 1, 30)

  const SUBMITS := Client(ASubmit(DEMO, 0, 0))
  const CLAIMS := Start(0, true, AClaim("worker", 7, 30, {}, Some(0), 1))
  const DELIVERS := Deliver(0, Details(HandlerResult("", []), [], 0, 2))

  lemma JobSubmitted() returns (c: Crew)
    ensures Can(NOBODY, SUBMITS) && c == Then(NOBODY, SUBMITS)
    ensures c.loops == map[] && c.w.t.jobs == map[0 := SubmittedRow(DEMO, 0, 0)] && c.w.issued == {} && c.w.held == {}
  {
    c := Then(NOBODY, SUBMITS);
  }

  lemma JobClaimed(c: Crew) returns (next: Crew)
    requires c.loops == map[] && c.w.t.jobs == map[0 := SubmittedRow(DEMO, 0, 0)] && c.w.issued == {} && c.w.held == {}
    ensures Can(c, CLAIMS) && next == Then(c, CLAIMS)
    ensures next.loops == map[0 := Opened(ROW, true)] && next.w.t.jobs == map[0 := ROW] && next.w.held == {ROW}
  {
    assert Oldest(c.w.t.jobs, 1, {}, 0);
    next := Then(c, CLAIMS);
  }

  lemma BeatMissed(c: Crew) returns (next: Crew)
    requires c.loops == map[0 := Opened(ROW, true)] && c.w.t.jobs == map[0 := ROW] && c.w.held == {ROW}
    ensures Can(c, Miss(0)) && next == Then(c, Miss(0)) && next.w == c.w
    ensures next.loops.Keys == {0} && next.loops[0].h == ROW && next.loops[0].phase == Leaving(CallFail(CancelledKind))
  {
    next := Then(c, Miss(0));
  }

  lemma JobCancelled(c: Crew) returns (next: Crew)
    requires c.w.t.jobs == map[0 := ROW] && c.w.held == {ROW}
    requires c.loops.Keys == {0} && c.loops[0].h == ROW && c.loops[0].phase == Leaving(CallFail(CancelledKind))
    ensures Can(c, DELIVERS) && next == Then(c, DELIVERS)
    ensures 0 in next.w.t.jobs && next.w.t.jobs[0].status == Cancelled && next.w.t.jobs[0].cancelRequestedAt.None?
  {
    next := Then(c, DELIVERS);
    assert Owns(c.w.t.jobs, ROW);
  }

  /** A job is submitted and claimed, one heartbeat returns an error, and the job ends as
      cancelled with attempts left and no request. */
  lemma MissedBeatCancels() returns (crews: seq<Crew>, steps: seq<Step>)
    ensures Works(crews, steps) && forall s <- steps :: s.Client? ==> s.action.ASubmit?
    ensures var jobs := crews[|steps|].w.t.jobs;
            0 in jobs && jobs[0].status == Cancelled && jobs[0].cancelRequestedAt.None?
  {
    var c1 := JobSubmitted();
    var c2 := JobClaimed(c1);
    var c3 := BeatMissed(c2);
    var c4 := JobCancelled(c3);
    crews := [NOBODY, c1, c2, c3, c4];
    steps := [SUBMITS, CLAIMS, Miss(0), DELIVERS];
    forall i: nat | i < |steps| ensures StepAt(crews, steps, i) {
      assert i == 0 || i == 1 || i == 2 || i == 3;
    }
  }
}
