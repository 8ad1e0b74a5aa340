/** The worker side of the lease protocol: the retry delay and the event loop around one
    claimed job. */
module Worker {
  import opened Common
  import opened JobTables
  import opened JobInvariant
  import opened JobSteps
  import opened JobRuns

  // ----------------------------------------------------------------------- backoff

  const BASE_DELAY := 1_000_000_000
  const MAX_DELAY := 30_000_000_000

  function Pow2(n: nat): nat {
    if n == 0 then 1 else 2 * Pow2(n - 1)
  }

  /** baseDelay * 2^(attempt-1) in nanoseconds, truncated. Scaling by a power of two is
      exact in float64. */
  function Scaled(attempt: int): int {
    if attempt >= 1 then BASE_DELAY * Pow2(attempt - 1)
    else DivPow(BASE_DELAY, 1 - attempt)
  }

  function DivPow(n: nat, k: nat): nat {
    if k == 0 then n else DivPow(n, k - 1) / 2
  }

  function Window(attempt: int): int {
    if Scaled(attempt) > MAX_DELAY then MAX_DELAY else Scaled(attempt)
  }

  lemma {:induction false} Pow2Monotone(m: nat, n: nat)
    requires m <= n
    ensures Pow2(m) <= Pow2(n)
    decreases n - m
  {
    if m < n {
      Pow2Monotone(m, n - 1);
    }
  }

  lemma {:induction false} DivPowMonotone(k: nat, l: nat)
    requires k <= l
    ensures DivPow(BASE_DELAY, l) <= DivPow(BASE_DELAY, k)
    decreases l - k
  {
    if k < l {
      DivPowMonotone(k, l - 1);
    }
  }

  lemma Powers()
    ensures Pow2(4) == 16 && Pow2(5) == 32 && Pow2(19) == 524288
    ensures Pow2(33) == 8589934592 && Pow2(34) == 17179869184
    ensures DivPow(BASE_DELAY, 29) == 1 && DivPow(BASE_DELAY, 30) == 0
  {
    assert Pow2(8) == 256;
    assert Pow2(16) == 65536;
    assert Pow2(24) == 16777216;
    assert Pow2(32) == 4294967296;
    assert DivPow(BASE_DELAY, 8) == 3906250;
    assert DivPow(BASE_DELAY, 16) == 15258;
    assert DivPow(BASE_DELAY, 24) == 59;
  }

  /** The conversion to int64 stays in range and the draw has a positive bound exactly
      for attempts -28 to 34. */
  lemma BackoffDefined(attempt: int)
    ensures 0 < Scaled(attempt) < INT64_LIMIT <==> -28 <= attempt <= 34
  {
    Powers();
    if attempt >= 35 {
      Pow2Monotone(34, attempt - 1);
    } else if attempt >= 1 {
      Pow2Monotone(attempt - 1, 33);
      Pow2Monotone(0, attempt - 1);
    } else if attempt >= -28 {
      DivPowMonotone(1 - attempt, 29);
      DivPowMonotone(0, 1 - attempt);
    } else {
      DivPowMonotone(30, 1 - attempt);
    }
  }

  /** Just outside: an empty window, and one beyond 64 bits. */
  lemma BackoffFails()
    ensures Scaled(-29) == 0 && Scaled(35) >= INT64_LIMIT
  {
    Powers();
    BackoffDefined(35);
    Pow2Monotone(0, 34);
  }

  /** Within the attempts the service allows, the window starts at one second, doubles and
      stops at thirty. */
  lemma BackoffWindow(attempt: int)
    requires 1 <= attempt <= 20
    ensures BASE_DELAY <= Window(attempt) <= MAX_DELAY && 0 < Scaled(attempt) < INT64_LIMIT
    ensures attempt <= 5 ==> Window(attempt) == BASE_DELAY * Pow2(attempt - 1)
    ensures attempt >= 6 ==> Window(attempt) == MAX_DELAY
  {
    BackoffDefined(attempt);
    Powers();
    Pow2Monotone(0, attempt - 1);
    if attempt <= 5 {
      Pow2Monotone(attempt - 1, 4);
    } else {
      Pow2Monotone(5, attempt - 1);
    }
  }

  /** A delay drawn from [0, window). */
  method Backoff(attempt: int) returns (delay: int)
    requires -28 <= attempt <= 34
    ensures 0 <= delay < Window(attempt)
  {
    BackoffDefined(attempt);
    var window := Scaled(attempt);
    if window > MAX_DELAY {
      window := MAX_DELAY;
    }
    delay :| 0 <= delay < window;
  }

  /** The worker calls Backoff with the attempt number of a snapshot it holds: in any run
      whose jobs have a budget of at most twenty attempts that is between 1 and 20. */
  lemma BackoffArgument(acts: seq<Action>, i: nat, h: Job, keys: set<string>)
    requires Run(EMPTY, acts) && i <= |acts| && h in At(EMPTY, acts, i).held
    requires AllWithin(acts, h.root, keys, 20)
    ensures 1 <= h.attempts <= 20 && 0 < Window(h.attempts) <= MAX_DELAY
  {
    ReachableInv(acts, i);
    RunWithin(acts, i, h.root, keys, 20);
    var t := At(EMPTY, acts, i).t;
    assert HeldOk(t, h);
    assert AttemptOk(t.jobs, (h.id, h.attempts), t.attempts[(h.id, h.attempts)]);
    assert RowOk(t.jobs[h.id]);
    BackoffWindow(h.attempts);
  }

  // -------------------------------------------------------------------- event loop

  datatype Event =
    | RunCancelled
    | ShutdownTimeout
    | Responded(error: Option<ErrorKind>)
    | Tick(owned: bool)

  datatype Call = CallHeartbeat | CallComplete | CallFail(kind: ErrorKind)

  predicate Final(c: Call) {
    !c.CallHeartbeat?
  }

  /** The one call that ends the loop, if the events so far end it: the first event that
      is a response, a lost or cancelled lease, or the shutdown timeout after the run
      was cancelled. */
  function EndsWith(events: seq<Event>, stopping: bool): Option<Call> {
    if events == [] then None
    else
      match events[0]
      case RunCancelled => EndsWith(events[1..], true)
      case ShutdownTimeout => if stopping then Some(CallFail(Transient)) else EndsWith(events[1..], stopping)
      case Responded(None) => Some(CallComplete)
      case Responded(Some(kind)) => Some(CallFail(kind))
      case Tick(owned) => if owned then EndsWith(events[1..], stopping) else Some(CallFail(CancelledKind))
  }

  /** The ticks before the loop ends; each sends one heartbeat. */
  function Ticks(events: seq<Event>, stopping: bool): nat {
    if events == [] then 0
    else
      match events[0]
      case RunCancelled => Ticks(events[1..], true)
      case ShutdownTimeout => if stopping then 0 else Ticks(events[1..], stopping)
      case Responded(_) => 0
      case Tick(owned) => if owned then 1 + Ticks(events[1..], stopping) else 1
  }

  /** The calls the events draw from the loop, in order. */
  function CallsOf(events: seq<Event>, stopping: bool): seq<Call> {
    if events == [] then []
    else
      match events[0]
      case RunCancelled => CallsOf(events[1..], true)
      case ShutdownTimeout => if stopping then [CallFail(Transient)] else CallsOf(events[1..], stopping)
      case Responded(error) => [if error.None? then CallComplete else CallFail(error.value)]
      case Tick(owned) => [CallHeartbeat] + if owned then CallsOf(events[1..], stopping) else [CallFail(CancelledKind)]
  }

  /** All calls made for a claimed row whose kind is supported or not. */
  function Answers(supported: bool, events: seq<Event>): seq<Call> {
    if supported then CallsOf(events, false) else [CallFail(Permanent)]
  }

  /** While nothing has ended the loop, one more event adds the calls it draws by itself. */
  lemma {:induction false} OneMoreEvent(events: seq<Event>, e: Event, stopping: bool)
    requires EndsWith(events, stopping).None?
    ensures var now := stopping || RunCancelled in events;
            && CallsOf(events + [e], stopping) == CallsOf(events, stopping) + CallsOf([e], now)
            && EndsWith(events + [e], stopping) == EndsWith([e], now)
  {
    if events == [] {
      assert [] + [e] == [e];
    } else {
      assert (events + [e])[1..] == events[1..] + [e];
      assert events == [events[0]] + events[1..];
      OneMoreEvent(events[1..], e, stopping || events[0].RunCancelled?);
    }
  }

  /** The final call comes last and only there; everything before it is a heartbeat, one
      for each tick. */
  lemma {:induction false} CallsEnd(events: seq<Event>, stopping: bool)
    ensures var calls := CallsOf(events, stopping); var end := EndsWith(events, stopping);
            && |calls| == Ticks(events, stopping) + (if end.Some? then 1 else 0)
            && (forall i :: 0 <= i < Ticks(events, stopping) ==> calls[i].CallHeartbeat?)
            && (end.Some? ==> Final(end.value) && calls[|calls| - 1] == end.value)
  {
    if events != [] {
      CallsEnd(events[1..], stopping || events[0].RunCancelled?);
    }
  }

  /** The event ends the loop: an answer of the handler, a heartbeat that did not find the
      lease owned and wanted, or the timeout after the run was cancelled. */
  predicate EndsAt(events: seq<Event>, stopping: bool, i: nat)
    requires i < |events|
  {
    match events[i]
    case RunCancelled => false
    case ShutdownTimeout => stopping || RunCancelled in events[..i]
    case Responded(_) => true
    case Tick(owned) => !owned
  }

  ghost predicate FirstEnd(events: seq<Event>, stopping: bool, i: nat) {
    i < |events| && EndsAt(events, stopping, i) && forall k: nat :: k < i ==> !EndsAt(events, stopping, k)
  }

  function TicksIn(events: seq<Event>): nat {
    if events == [] then 0 else TicksIn(events[1..]) + if events[0].Tick? then 1 else 0
  }

  lemma EndsInRest(events: seq<Event>, stopping: bool, i: nat)
    requires i < |events| - 1
    ensures EndsAt(events, stopping, i + 1) == EndsAt(events[1..], stopping || events[0].RunCancelled?, i)
  {
    assert events[..i + 1] == [events[0]] + events[1..][..i];
  }

  /** The first event that ends the loop decides the final call, with the error kind that
      the handler reported, and the loop has sent one heartbeat for each tick up to it. If
      no event ends it there is no final call, and a heartbeat for each tick. */
  lemma {:induction false} FirstEndDecides(events: seq<Event>, stopping: bool)
    ensures EndsWith(events, stopping).None? <==> forall i: nat :: !FirstEnd(events, stopping, i)
    ensures EndsWith(events, stopping).None? ==> Ticks(events, stopping) == TicksIn(events)
    ensures forall i: nat | FirstEnd(events, stopping, i) ::
              && (events[i] == Responded(None) ==> EndsWith(events, stopping) == Some(CallComplete))
              && (events[i].Responded? && events[i].error.Some? ==>
                    EndsWith(events, stopping) == Some(CallFail(events[i].error.value)))
              && (events[i].Tick? ==> EndsWith(events, stopping) == Some(CallFail(CancelledKind)))
              && (events[i].ShutdownTimeout? ==> EndsWith(events, stopping) == Some(CallFail(Transient)))
              && Ticks(events, stopping) == TicksIn(events[..i + 1])
    decreases |events|
  {
    if events != [] {
      var rest, now := events[1..], stopping || events[0].RunCancelled?;
      FirstEndDecides(rest, now);
      if EndsAt(events, stopping, 0) {
        assert FirstEnd(events, stopping, 0);
        assert events[..1] == [events[0]] && [events[0]][1..] == [];
      } else {
        LaterEnd(events, stopping);
        assert forall k: nat :: FirstEnd(rest, now, k) ==> FirstEnd(events, stopping, k + 1);
      }
    }
  }

  /** When the first event does not end the loop, the rest decides. */
  lemma LaterEnd(events: seq<Event>, stopping: bool)
    requires events != [] && !EndsAt(events, stopping, 0)
    ensures forall i: nat :: FirstEnd(events, stopping, i) <==>
                             i > 0 && FirstEnd(events[1..], stopping || events[0].RunCancelled?, i - 1)
    ensures forall i: nat | 0 < i < |events| ::
              TicksIn(events[..i + 1]) == TicksIn(events[1..][..i]) + if events[0].Tick? then 1 else 0
  {
    var rest, now := events[1..], stopping || events[0].RunCancelled?;
    forall i: nat | i < |rest| ensures EndsAt(events, stopping, i + 1) == EndsAt(rest, now, i) {
      EndsInRest(events, stopping, i);
    }
    forall i: nat ensures FirstEnd(events, stopping, i) <==> i > 0 && FirstEnd(rest, now, i - 1) {
      if i > 0 && FirstEnd(events, stopping, i) {
        forall k: nat | k < i - 1 ensures !EndsAt(rest, now, k) {
          assert !EndsAt(events, stopping, k + 1);
        }
      }
      if i > 0 && FirstEnd(rest, now, i - 1) {
        forall k: nat | k < i ensures !EndsAt(events, stopping, k) {
          assert k > 0 ==> !EndsAt(rest, now, k - 1);
        }
      }
    }
    forall i: nat | 0 < i < |events|
      ensures TicksIn(events[..i + 1]) == TicksIn(rest[..i]) + if events[0].Tick? then 1 else 0
    {
      assert events[..i + 1][1..] == rest[..i];
    }
  }

  /** process: whatever the order of events, the worker writes an outcome at most once,
      and after it nothing more; before it there are only heartbeats. */
  method Process(supported: bool, events: seq<Event>) returns (calls: seq<Call>)
    ensures calls == Answers(supported, events)
    ensures forall i :: 0 <= i < |calls| && Final(calls[i]) ==> i == |calls| - 1
    ensures supported ==>
              if EndsWith(events, false).Some? then calls != [] && calls[|calls| - 1] == EndsWith(events, false).value
              else forall i :: 0 <= i < |calls| ==> calls[i].CallHeartbeat?
    ensures supported ==> |calls| == Ticks(events, false) + if EndsWith(events, false).Some? then 1 else 0
  {
    if !supported {
      return [CallFail(Permanent)];
    }
    CallsEnd(events, false);
    calls := [];
    var stopping := false;
    var i := 0;
    while i < |events|
      invariant 0 <= i <= |events|
      invariant calls + CallsOf(events[i..], stopping) == CallsOf(events, false)
    {
      assert events[i..][1..] == events[i + 1..];
      match events[i] {
        case RunCancelled =>
          if !stopping {
            stopping := true;
          }
        case ShutdownTimeout =>
          if stopping {
            return calls + [CallFail(Transient)];
          }
        case Responded(error) =>
          return calls + [if error.None? then CallComplete else CallFail(error.value)];
        case Tick(owned) =>
          calls := calls + [CallHeartbeat];
          if !owned {
            return calls + [CallFail(CancelledKind)];
          }
      }
      i := i + 1;
    }
  }
}
