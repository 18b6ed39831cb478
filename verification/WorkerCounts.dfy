/** What the counters and the status of a worker cycle count: the turns of its consumers that
  * took effect, whatever the interleaving.
  */
module WorkerCounts {
  import opened WorkerCycle

  /** The k-th turn is one of a live consumer, and it runs. */
  predicate TookEffect(n: nat, turns: seq<Turn>, k: nat, maxAnalyses: nat)
    requires k < |turns|
  {
    turns[k].Consume? &&
    var c := PlayAll(Start(n), turns[..k], maxAnalyses);
    && turns[k].i < |c.consumers| && Possible(c.consumers[turns[k].i], turns[k].e)
    && (c.consumers[turns[k].i].AtTop? ==> c.reservations < maxAnalyses)
  }

  datatype Kind = Reservation | ClaimMade | Call | Completion | Retry | Suspension | Deferral

  /** Which events are of a kind. */
  predicate IsOf(e: Event, kind: Kind) {
    match kind
    case Reservation => e.BudgetIsSpent? || e.NothingToClaim? || e.ClaimedWithoutSlot? || e.ClaimedWithSlot? || e.StoreThrows?
    case ClaimMade => e.ClaimedWithoutSlot? || e.ClaimedWithSlot? || e == StoreThrows(true)
    case Call => e.CallStarts?
    case Completion => e.UsageHandled? || e == ResultStored(false)
    case Retry => e == Fails(WillRetry)
    case Suspension => e.Fails? && (e.failure.StoreRefuses? || e.failure.JobSuspended?)
    case Deferral => e.CircuitRefuses? || e.ClaimedWithoutSlot?
  }

  /** How many turns of a kind took effect. */
  function Turns(n: nat, turns: seq<Turn>, maxAnalyses: nat, kind: Kind): nat {
    if turns == [] then 0
    else
      var last := |turns| - 1;
      Turns(n, turns[..last], maxAnalyses, kind)
      + if TookEffect(n, turns, last, maxAnalyses) && IsOf(turns[last].e, kind) then 1 else 0
  }

  function Counter(c: Cycle, kind: Kind): nat {
    match kind
    case Reservation => c.reservations
    case ClaimMade => c.claimed
    case Call => c.providerCalls
    case Completion => c.completed
    case Retry => c.retried
    case Suspension => c.suspended
    case Deferral => c.deferred
  }

  lemma StepCounts(c: Cycle, i: nat, e: Event, kind: Kind)
    requires i < |c.consumers| && Possible(c.consumers[i], e)
    ensures Counter(Step(c, i, e), kind) == Counter(c, kind) + if IsOf(e, kind) then 1 else 0
  {
  }

  /** Each counter of a cycle is the number of turns of its kind that took effect: a retry counts
    * as a retry and a suspension as a suspension, in every interleaving and at every moment. */
  lemma {:induction false} CountersCountTurns(n: nat, turns: seq<Turn>, maxAnalyses: nat, kind: Kind)
    ensures Counter(PlayAll(Start(n), turns, maxAnalyses), kind) == Turns(n, turns, maxAnalyses, kind)
  {
    if turns != [] {
      var last := |turns| - 1;
      CountersCountTurns(n, turns[..last], maxAnalyses, kind);
      var c := PlayAll(Start(n), turns[..last], maxAnalyses);
      if TookEffect(n, turns, last, maxAnalyses) { StepCounts(c, turns[last].i, turns[last].e, kind); }
    }
  }

  // ----- Status and suspension -----

  /** The status that an event sets, given the status and the claims made before it. */
  function StatusAfter(e: Event, before: Status, claims: nat): Status {
    match e
    case CircuitRefuses => CircuitOpen
    case ClaimedWithoutSlot => BudgetBlocked
    case BudgetIsSpent => if claims == 0 then BudgetBlocked else Completed
    case _ => before
  }

  /** The status that the last turn to set one has left. */
  function LastStatus(n: nat, turns: seq<Turn>, maxAnalyses: nat): Status {
    if turns == [] then Idle
    else
      var last := |turns| - 1;
      var before := LastStatus(n, turns[..last], maxAnalyses);
      if TookEffect(n, turns, last, maxAnalyses)
      then StatusAfter(turns[last].e, before, Turns(n, turns[..last], maxAnalyses, ClaimMade))
      else before
  }

  lemma StepSetsStatus(c: Cycle, i: nat, e: Event)
    requires i < |c.consumers| && Possible(c.consumers[i], e)
    ensures Step(c, i, e).status == StatusAfter(e, c.status, c.claimed)
  {
  }

  lemma {:induction false} StatusTellsTheLastStop(n: nat, turns: seq<Turn>, maxAnalyses: nat)
    ensures PlayAll(Start(n), turns, maxAnalyses).status == LastStatus(n, turns, maxAnalyses)
  {
    if turns != [] {
      var last := |turns| - 1;
      StatusTellsTheLastStop(n, turns[..last], maxAnalyses);
      CountersCountTurns(n, turns[..last], maxAnalyses, ClaimMade);
      if TookEffect(n, turns, last, maxAnalyses) {
        StepSetsStatus(PlayAll(Start(n), turns[..last], maxAnalyses), turns[last].i, turns[last].e);
      }
    }
  }

  /** What a cycle reports: suspended when the worker is; completed when any claim was completed,
    * retried or suspended; otherwise what its last stop says, or idle. */
  lemma ReportsExactly(n: nat, turns: seq<Turn>, maxAnalyses: nat)
    ensures var c := PlayAll(Start(n), turns, maxAnalyses);
      var done := Turns(n, turns, maxAnalyses, Completion) + Turns(n, turns, maxAnalyses, Retry) + Turns(n, turns, maxAnalyses, Suspension);
      && (c.workerSuspended ==> FinalStatus(c).Suspended?)
      && (!c.workerSuspended && done > 0 ==> FinalStatus(c).Completed?)
      && (!c.workerSuspended && done == 0 ==> FinalStatus(c) == LastStatus(n, turns, maxAnalyses))
  {
    CountersCountTurns(n, turns, maxAnalyses, Completion);
    CountersCountTurns(n, turns, maxAnalyses, Retry);
    CountersCountTurns(n, turns, maxAnalyses, Suspension);
    StatusTellsTheLastStop(n, turns, maxAnalyses);
  }

  /** An event asks for the worker to be suspended, and that was stored. */
  predicate Suspends(e: Event) {
    e.Fails? && (e.failure == StoreRefuses(true) || e.failure == JobSuspended(false, true))
  }

  /** Whether the worker is suspended: what another process said last, or a failure since. */
  function LastFlag(n: nat, turns: seq<Turn>, maxAnalyses: nat): bool {
    if turns == [] then false
    else
      var last := |turns| - 1;
      if turns[last].Outside? then turns[last].suspended
      else (TookEffect(n, turns, last, maxAnalyses) && Suspends(turns[last].e)) || LastFlag(n, turns[..last], maxAnalyses)
  }

  lemma {:induction false} FlagTellsWhoSuspended(n: nat, turns: seq<Turn>, maxAnalyses: nat)
    ensures PlayAll(Start(n), turns, maxAnalyses).workerSuspended == LastFlag(n, turns, maxAnalyses)
  {
    if turns != [] { FlagTellsWhoSuspended(n, turns[..|turns| - 1], maxAnalyses); }
  }

  /** A consumer stops for good when the budget is spent, nothing is to be claimed, its claim has
    * no slot, the circuit is open, or the worker is suspended once its claim is processed; a
    * store that throws outside a claim's own handling rejects it; else it goes on. */
  lemma ConsumerStopsExactly(c: Cycle, i: nat, e: Event)
    requires i < |c.consumers| && Possible(c.consumers[i], e)
    ensures var to := Step(c, i, e).consumers[i];
      && (to.Done? <==> e.BudgetIsSpent? || e.NothingToClaim? || e.ClaimedWithoutSlot? || e.CircuitRefuses? || (e.StateIsRead? && c.workerSuspended))
      && (to.Rejected? <==> e.StoreThrows? || e.StateUnreadable?)
      && (to.Rejected? ==> (to.holding <==> e == StoreThrows(true)))
      && (to.AtTop? <==> e.StateIsRead? && !c.workerSuspended)
      && (to.AwaitsContext? <==> e.ClaimedWithSlot?) && (to.AwaitsProvider? <==> e.CallStarts?)
      && (to.AwaitsUsage? <==> e == ResultStored(true)) && (to.Processed? <==> e.Fails? || IsOf(e, Completion))
    ensures forall k :: 0 <= k < |c.consumers| && k != i ==> Step(c, i, e).consumers[k] == c.consumers[k]
  {
  }
}
