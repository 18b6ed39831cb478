/** The persisted circuit breaker in front of the AI provider. */
module CircuitBreaker {
  import opened Common

  datatype Phase = Closed | Open | HalfOpen

  /** The single row of the breaker table. */
  datatype Breaker = Breaker(phase: Phase, failures: nat, openUntil: Option<Time>, inFlight: bool)

  const INITIAL: Breaker := Breaker(Closed, 0, None, false)

  const MAX_FAILURES: nat := 1_000_000

  predicate Permits(b: Breaker, now: Time) {
    || b.phase.Closed?
    || (!(b.phase.Open? && b.openUntil.Some? && b.openUntil.value > now) && !(b.phase.HalfOpen? && b.inFlight))
  }

  function Acquire(b: Breaker, now: Time): Breaker {
    if b.phase.Closed? || !Permits(b, now) then b else b.(phase := HalfOpen, inFlight := true)
  }

  function AfterFailure(b: Breaker, now: Time, threshold: int, openMs: int): Breaker {
    var failures := Min(MAX_FAILURES, b.failures + 1);
    if b.phase.HalfOpen? || failures >= threshold
    then Breaker(Open, failures, Some(now + openMs), false)
    else Breaker(Closed, failures, None, false)
  }

  /** The phase shown to readers: an open breaker whose time is up reads as half open. */
  function Reported(b: Breaker, now: Time): Phase {
    if b.phase.Open? && b.openUntil.Some? && b.openUntil.value <= now then HalfOpen else b.phase
  }

  class BreakerTable {
    var row: Breaker

    constructor ()
      ensures row == INITIAL
    {
      row := INITIAL;
    }

    method AcquireCircuitPermit(now: Time) returns (granted: bool)
      modifies this
      ensures granted == Permits(old(row), now)
      ensures row == Acquire(old(row), now)
    {
      if row.phase == Closed { return true; }
      if row.phase == Open && row.openUntil.Some? && row.openUntil.value > now { return false; }
      if row.phase == HalfOpen && row.inFlight { return false; }
      row := row.(phase := HalfOpen, inFlight := true);
      return true;
    }

    method RecordCircuitSuccess(now: Time) returns (phase: Phase)
      modifies this
      ensures row == INITIAL && phase == Reported(row, now)
    {
      row := Breaker(Closed, 0, None, false);
      phase := Reported(row, now);
    }

    method RecordCircuitFailure(now: Time, threshold: int, openMs: int) returns (phase: Phase)
      modifies this
      ensures row == AfterFailure(old(row), now, threshold, openMs) && phase == Reported(row, now)
    {
      var failures := Min(MAX_FAILURES, row.failures + 1);
      var shouldOpen := row.phase == HalfOpen || failures >= threshold;
      row := Breaker(if shouldOpen then Open else Closed, failures, if shouldOpen then Some(now + openMs) else None, false);
      phase := Reported(row, now);
    }
  }

  // ----- Histories -----

  datatype Event = Asked(now: Time) | Succeeded | Failed(now: Time)

  function Run(events: seq<Event>, threshold: int, openMs: int): Breaker {
    if events == [] then INITIAL
    else
      var b := Run(events[..|events| - 1], threshold, openMs);
      match events[|events| - 1]
      case Asked(now) => Acquire(b, now)
      case Succeeded => INITIAL
      case Failed(now) => AfterFailure(b, now, threshold, openMs)
  }

  /** Whether the k-th event of a history asks for a permit and gets it. */
  predicate Granted(events: seq<Event>, k: nat, threshold: int, openMs: int)
    requires k < |events|
  {
    events[k].Asked? && Permits(Run(events[..k], threshold, openMs), events[k].now)
  }

  /** The failures since the last success. */
  function Trailing(events: seq<Event>): nat {
    if events == [] then 0
    else
      var n := Trailing(events[..|events| - 1]);
      match events[|events| - 1]
      case Asked(_) => n
      case Succeeded => 0
      case Failed(_) => n + 1
  }

  function LastFailure(events: seq<Event>): Time {
    if events == [] then 0
    else if events[|events| - 1].Failed? then events[|events| - 1].now
    else LastFailure(events[..|events| - 1])
  }

  /** Whether a permit was granted since the last outcome while the breaker was not closed. */
  predicate ProbeOut(events: seq<Event>, threshold: int, openMs: int) {
    events != [] &&
    var front, last := events[..|events| - 1], events[|events| - 1];
    last.Asked? &&
    (ProbeOut(front, threshold, openMs)
     || (Trailing(front) >= threshold && last.now >= LastFailure(front) + openMs))
  }

  /** What the row says about a history. */
  function Summary(events: seq<Event>, threshold: int, openMs: int): Breaker {
    var failures := Min(MAX_FAILURES, Trailing(events));
    if Trailing(events) < threshold then Breaker(Closed, failures, None, false)
    else
      var probe := ProbeOut(events, threshold, openMs);
      Breaker(if probe then HalfOpen else Open, failures, Some(LastFailure(events) + openMs), probe)
  }

  lemma {:induction false} NoProbeWhileClosed(events: seq<Event>, threshold: int, openMs: int)
    requires Trailing(events) < threshold
    ensures !ProbeOut(events, threshold, openMs)
  {
    if events != [] && events[|events| - 1].Asked? {
      NoProbeWhileClosed(events[..|events| - 1], threshold, openMs);
    }
  }

  /** The stored row is a function of the history: the capped count of trailing failures,
    * closed exactly below the threshold, half open exactly while a probe is out. */
  lemma {:induction false} RowSummarisesHistory(events: seq<Event>, threshold: int, openMs: int)
    requires 1 <= threshold <= MAX_FAILURES
    ensures Run(events, threshold, openMs) == Summary(events, threshold, openMs)
  {
    if events != [] {
      var front := events[..|events| - 1];
      RowSummarisesHistory(front, threshold, openMs);
      if Trailing(front) < threshold { NoProbeWhileClosed(front, threshold, openMs); }
    }
  }

  /** A permit is granted exactly when the trailing failures are below the threshold, or the
    * open time since the last failure is over and no probe is out. */
  lemma PermitRule(events: seq<Event>, now: Time, threshold: int, openMs: int)
    requires 1 <= threshold <= MAX_FAILURES
    ensures Permits(Run(events, threshold, openMs), now)
       <==> Trailing(events) < threshold
            || (now >= LastFailure(events) + openMs && !ProbeOut(events, threshold, openMs))
  {
    RowSummarisesHistory(events, threshold, openMs);
  }

  /** The number of permits granted from the k-th event on. */
  function Grants(events: seq<Event>, k: nat, threshold: int, openMs: int): nat
    requires k <= |events|
  {
    if |events| == k then 0
    else
      Grants(events[..|events| - 1], k, threshold, openMs)
      + if Granted(events, |events| - 1, threshold, openMs) then 1 else 0
  }

  /** Once the breaker is not closed, at most one permit is granted until an outcome is
    * recorded, and none when a probe is already out. In particular a probe whose outcome is
    * never recorded keeps every later request out for ever. */
  lemma {:induction false} OneProbePerOutcome(events: seq<Event>, k: nat, threshold: int, openMs: int)
    requires 1 <= threshold <= MAX_FAILURES && k <= |events|
    requires Trailing(events[..k]) >= threshold
    requires forall i :: k <= i < |events| ==> events[i].Asked?
    ensures Trailing(events) >= threshold
    ensures Grants(events, k, threshold, openMs)
         == if ProbeOut(events, threshold, openMs) && !ProbeOut(events[..k], threshold, openMs) then 1 else 0
    ensures ProbeOut(events[..k], threshold, openMs) ==> ProbeOut(events, threshold, openMs)
  {
    if |events| > k {
      var front := events[..|events| - 1];
      assert front[..k] == events[..k];
      OneProbePerOutcome(front, k, threshold, openMs);
      PermitRule(front, events[|events| - 1].now, threshold, openMs);
    } else {
      assert events[..k] == events;
    }
  }

  /** A failed probe opens the breaker again for the open time from now, whatever the threshold
    * has become since; a failure below the threshold leaves a closed breaker closed. */
  lemma FailureOpensExactly(b: Breaker, now: Time, threshold: int, openMs: int)
    ensures var after := AfterFailure(b, now, threshold, openMs);
      && (after.phase.Open? <==> b.phase.HalfOpen? || Min(1_000_000, b.failures + 1) >= threshold)
      && (after.phase.Open? ==> forall later :: Permits(after, later) <==> later >= now + openMs)
      && (!after.phase.Open? ==> forall later :: Permits(after, later))
  {
  }

  /** Such a history: the breaker opens at its first failure, the next request after the open
    * time gets the probe, and with no outcome recorded no later request ever gets a permit. */
  lemma LostProbeShutsOut(later: Time)
    requires later >= 10
    ensures var events := [Failed(0), Asked(10)];
      Granted(events, 1, 1, 10) && !Permits(Run(events, 1, 10), later)
  {
    var failed, probed := [Failed(0)], [Failed(0), Asked(10)];
    assert failed[..0] == [] && probed[..1] == failed;
    assert Run(failed, 1, 10) == Breaker(Open, 1, Some(10), false);
    assert Run(probed, 1, 10) == Breaker(HalfOpen, 1, Some(10), true);
  }

  /** What readers are shown agrees with what the next request for a permit will get. */
  lemma ReportedPhaseIsHonest(events: seq<Event>, now: Time, threshold: int, openMs: int)
    requires 1 <= threshold <= MAX_FAILURES
    ensures var b := Run(events, threshold, openMs);
            Permits(b, now) <==> Reported(b, now).Closed? || (Reported(b, now).HalfOpen? && !b.inFlight)
  {
    RowSummarisesHistory(events, threshold, openMs);
  }
}
