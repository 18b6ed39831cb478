/** One cycle of the analysis worker: concurrent consumers that share a reservation counter
  * and the counters of the cycle's result, interleaved at their awaits.
  */
module WorkerCycle {

  /** Where a consumer is suspended: at the top of its loop, awaiting the context, the provider
    * or the usage recorder for a job it has claimed, or with the job processed and the state of
    * the worker still to be read. */
  datatype Consumer = AtTop | AwaitsContext | AwaitsProvider | AwaitsUsage | Processed | Done | Rejected(holding: bool)

  datatype Status = Completed | Idle | Suspended | ProviderDisabled | BudgetBlocked | CircuitOpen

  /** How the store answers the end of a failed attempt. A failure that is not transient also
    * asks for the worker to be suspended; `flagged` says whether that was stored. */
  datatype Failure =
    | StoreRefuses(flagged: bool)
    | WillRetry
    | JobSuspended(transient: bool, flagged: bool)

  /** What happens in the code between two awaits. */
  datatype Event =
    | BudgetIsSpent
    | NothingToClaim
    | ClaimedWithoutSlot
    | ClaimedWithSlot
    | CircuitRefuses
    | CallStarts
    | ResultStored(circuitRecorded: bool)
    | UsageHandled
    | Fails(failure: Failure)
    | StoreThrows(claimedFirst: bool)
    | StateIsRead
    | StateUnreadable

  datatype Cycle = Cycle(
    reservations: nat, claimed: nat, completed: nat, retried: nat, suspended: nat, providerCalls: nat, deferred: nat,
    status: Status, workerSuspended: bool, consumers: seq<Consumer>)

  predicate Possible(consumer: Consumer, e: Event) {
    match consumer
    case AtTop => e.BudgetIsSpent? || e.NothingToClaim? || e.ClaimedWithoutSlot? || e.ClaimedWithSlot? || e.StoreThrows?
    case AwaitsContext => e.CircuitRefuses? || e.CallStarts? || e.Fails?
    case AwaitsProvider => e.ResultStored? || e.Fails?
    case AwaitsUsage => e.UsageHandled?
    case Processed => e.StateIsRead? || e.StateUnreadable?
    case Done => false
    case Rejected(_) => false
  }

  predicate Live(consumer: Consumer) {
    !consumer.Done? && !consumer.Rejected?
  }

  /** Groups of consumers: those with a claim that no counter of the result accounts for yet,
    * those that prepare a provider call, and those that have started one. */
  datatype Group = Holding | Preparing | Calling

  predicate In(consumer: Consumer, group: Group) {
    match group
    case Holding => consumer.AwaitsContext? || consumer.AwaitsProvider? || consumer.AwaitsUsage? || (consumer.Rejected? && consumer.holding)
    case Preparing => consumer.AwaitsContext?
    case Calling => consumer.AwaitsProvider? || consumer.AwaitsUsage?
  }

  function Moved(c: Cycle, i: nat, to: Consumer): Cycle
    requires i < |c.consumers|
  {
    c.(consumers := c.consumers[i := to])
  }

  function AfterFailure(c: Cycle, i: nat, f: Failure): Cycle
    requires i < |c.consumers|
  {
    match f
    case StoreRefuses(flagged) =>
      Moved(c.(suspended := c.suspended + 1, workerSuspended := c.workerSuspended || flagged), i, Processed)
    case WillRetry =>
      Moved(c.(retried := c.retried + 1), i, Processed)
    case JobSuspended(transient, flagged) =>
      Moved(c.(suspended := c.suspended + 1, workerSuspended := c.workerSuspended || (!transient && flagged)), i, Processed)
  }

  /** The cycle after consumer i has run up to its next await. */
  function Step(c: Cycle, i: nat, e: Event): Cycle
    requires i < |c.consumers| && Possible(c.consumers[i], e)
  {
    match e
    case CircuitRefuses => Moved(c.(deferred := c.deferred + 1, status := CircuitOpen), i, Done)
    case CallStarts => Moved(c.(providerCalls := c.providerCalls + 1), i, AwaitsProvider)
    case ResultStored(circuitRecorded) =>
      if circuitRecorded then Moved(c, i, AwaitsUsage)
      else Moved(c.(completed := c.completed + 1), i, Processed)
    case UsageHandled => Moved(c.(completed := c.completed + 1), i, Processed)
    case StateIsRead => Moved(c, i, if c.workerSuspended then Done else AtTop)
    case StateUnreadable => Moved(c, i, Rejected(false))
    case Fails(f) => AfterFailure(c, i, f)
    case _ => StepAtTop(c, i, e)
  }

  function StepAtTop(c: Cycle, i: nat, e: Event): Cycle
    requires i < |c.consumers|
  {
    var r := c.(reservations := c.reservations + 1);
    match e
    case BudgetIsSpent => Moved(r.(status := if c.claimed == 0 then BudgetBlocked else Completed), i, Done)
    case NothingToClaim => Moved(r, i, Done)
    case ClaimedWithoutSlot => Moved(r.(claimed := c.claimed + 1, deferred := c.deferred + 1, status := BudgetBlocked), i, Done)
    case ClaimedWithSlot => Moved(r.(claimed := c.claimed + 1), i, AwaitsContext)
    case StoreThrows(claimedFirst) =>
      Moved(if claimedFirst then r.(claimed := c.claimed + 1) else r, i, Rejected(claimedFirst))
    case _ => c
  }

  // ----- Counting consumers -----

  function One(b: bool): nat { if b then 1 else 0 }

  function Count(consumers: seq<Consumer>, group: Group): nat {
    if consumers == [] then 0 else One(In(consumers[0], group)) + Count(consumers[1..], group)
  }

  lemma {:induction false} CountMoved(consumers: seq<Consumer>, i: nat, to: Consumer, group: Group)
    requires i < |consumers|
    ensures Count(consumers[i := to], group) + One(In(consumers[i], group)) == Count(consumers, group) + One(In(to, group))
  {
    var moved := consumers[i := to];
    if i == 0 {
      assert moved[1..] == consumers[1..];
    } else {
      CountMoved(consumers[1..], i - 1, to, group);
      assert moved[1..] == consumers[1..][i - 1 := to];
    }
  }

  lemma {:induction false} CountNone(consumers: seq<Consumer>, group: Group)
    requires forall i :: 0 <= i < |consumers| ==> !In(consumers[i], group)
    ensures Count(consumers, group) == 0
  {
    if consumers != [] { CountNone(consumers[1..], group); }
  }

  // ----- Conservation -----

  /** Every claim is accounted for once: completed, retried, suspended, deferred or in flight.
    * A deferred claim never reached the provider, and a completed one did. */
  ghost predicate Conserved(c: Cycle, maxAnalyses: nat) {
    && c.claimed == c.completed + c.retried + c.suspended + c.deferred + Count(c.consumers, Holding)
    && c.claimed <= c.reservations <= maxAnalyses
    && c.completed + Count(c.consumers, Calling) <= c.providerCalls
    && c.providerCalls + c.deferred + Count(c.consumers, Preparing) <= c.claimed
    && (c.status.Idle? ==> c.deferred == 0)
  }

  /** A step is conservative when the counters change as the consumer's groups do. */
  lemma MoveConserves(c: Cycle, d: Cycle, i: nat, to: Consumer, maxAnalyses: nat)
    requires i < |c.consumers| && Conserved(c, maxAnalyses) && d.consumers == c.consumers[i := to]
    requires var from := c.consumers[i];
      && d.claimed - d.completed - d.retried - d.suspended - d.deferred + One(In(from, Holding))
         == c.claimed - c.completed - c.retried - c.suspended - c.deferred + One(In(to, Holding))
      && d.completed - d.providerCalls + One(In(to, Calling)) <= c.completed - c.providerCalls + One(In(from, Calling))
      && d.providerCalls + d.deferred - d.claimed + One(In(to, Preparing))
         <= c.providerCalls + c.deferred - c.claimed + One(In(from, Preparing))
      && d.claimed - d.reservations <= c.claimed - c.reservations && d.reservations <= maxAnalyses
      && (d.status.Idle? ==> c.status.Idle? && d.deferred == c.deferred)
    ensures Conserved(d, maxAnalyses)
  {
    CountMoved(c.consumers, i, to, Holding);
    CountMoved(c.consumers, i, to, Calling);
    CountMoved(c.consumers, i, to, Preparing);
  }

  lemma TopStepConserves(c: Cycle, i: nat, e: Event, maxAnalyses: nat)
    requires i < |c.consumers| && Possible(c.consumers[i], e) && Conserved(c, maxAnalyses)
    requires c.consumers[i].AtTop? && c.reservations < maxAnalyses
    ensures Conserved(Step(c, i, e), maxAnalyses)
  {
    var d := Step(c, i, e);
    MoveConserves(c, d, i, d.consumers[i], maxAnalyses);
  }

  lemma ClaimStepConserves(c: Cycle, i: nat, e: Event, maxAnalyses: nat)
    requires i < |c.consumers| && Possible(c.consumers[i], e) && Conserved(c, maxAnalyses) && !c.consumers[i].AtTop?
    ensures Conserved(Step(c, i, e), maxAnalyses)
  {
    var d := Step(c, i, e);
    MoveConserves(c, d, i, d.consumers[i], maxAnalyses);
  }

  lemma StepConserves(c: Cycle, i: nat, e: Event, maxAnalyses: nat)
    requires i < |c.consumers| && Possible(c.consumers[i], e) && Conserved(c, maxAnalyses)
    requires c.consumers[i].AtTop? ==> c.reservations < maxAnalyses
    ensures Conserved(Step(c, i, e), maxAnalyses)
  {
    if c.consumers[i].AtTop? { TopStepConserves(c, i, e, maxAnalyses); } else { ClaimStepConserves(c, i, e, maxAnalyses); }
  }

  // ----- Whole cycles -----

  /** One turn of the event loop: a consumer runs to its next await, or another process
    * suspends or resumes the worker. */
  datatype Turn = Consume(i: nat, e: Event) | Outside(suspended: bool)

  /** A consumer at the top of its loop stops once all reservations are used. */
  function Play(c: Cycle, turn: Turn, maxAnalyses: nat): Cycle {
    match turn
    case Outside(suspended) => c.(workerSuspended := suspended)
    case Consume(i, e) =>
      if i >= |c.consumers| || !Live(c.consumers[i]) then c
      else if c.consumers[i].AtTop? && c.reservations >= maxAnalyses then Moved(c, i, Done)
      else if Possible(c.consumers[i], e) then Step(c, i, e)
      else c
  }

  function PlayAll(c: Cycle, turns: seq<Turn>, maxAnalyses: nat): Cycle {
    if turns == [] then c else Play(PlayAll(c, turns[..|turns| - 1], maxAnalyses), turns[|turns| - 1], maxAnalyses)
  }

  function Start(maxConcurrency: nat): Cycle {
    Cycle(0, 0, 0, 0, 0, 0, 0, Idle, false, seq(maxConcurrency, _ => AtTop))
  }

  /** The cycle returns its result when every consumer has finished and none was rejected. */
  predicate Returns(c: Cycle) {
    forall i :: 0 <= i < |c.consumers| ==> c.consumers[i].Done?
  }

  function FinalStatus(c: Cycle): Status {
    if c.workerSuspended then Suspended
    else if c.completed > 0 || c.retried > 0 || c.suspended > 0 then Completed
    else c.status
  }

  lemma {:induction false} EveryTurnConserves(maxConcurrency: nat, turns: seq<Turn>, maxAnalyses: nat)
    ensures Conserved(PlayAll(Start(maxConcurrency), turns, maxAnalyses), maxAnalyses)
  {
    if turns == [] {
      CountNone(Start(maxConcurrency).consumers, Holding);
      CountNone(Start(maxConcurrency).consumers, Calling);
      CountNone(Start(maxConcurrency).consumers, Preparing);
    } else {
      EveryTurnConserves(maxConcurrency, turns[..|turns| - 1], maxAnalyses);
      var c := PlayAll(Start(maxConcurrency), turns[..|turns| - 1], maxAnalyses);
      match turns[|turns| - 1]
      case Outside(_) =>
      case Consume(i, e) =>
        if i < |c.consumers| && Live(c.consumers[i]) {
          if c.consumers[i].AtTop? && c.reservations >= maxAnalyses {
            MoveConserves(c, Moved(c, i, Done), i, Done, maxAnalyses);
          } else if Possible(c.consumers[i], e) {
            StepConserves(c, i, e, maxAnalyses);
          }
        }
    }
  }

  /** Whatever the interleaving, a cycle that returns has accounted for every claim exactly
    * once, stayed within its limit, called the provider at most once for each claim it did not
    * defer, and reports itself idle only when it claimed nothing. */
  lemma EveryInterleavingConserves(maxConcurrency: nat, turns: seq<Turn>, maxAnalyses: nat)
    requires Returns(PlayAll(Start(maxConcurrency), turns, maxAnalyses))
    ensures var c := PlayAll(Start(maxConcurrency), turns, maxAnalyses);
      && c.claimed == c.completed + c.retried + c.suspended + c.deferred
      && c.completed <= c.providerCalls <= c.claimed - c.deferred
      && c.claimed <= maxAnalyses
      && (FinalStatus(c).Idle? ==> c.claimed == 0)
  {
    EveryTurnConserves(maxConcurrency, turns, maxAnalyses);
    CountNone(PlayAll(Start(maxConcurrency), turns, maxAnalyses).consumers, Holding);
  }

  // ----- Termination -----

  function Rank(consumer: Consumer): nat {
    match consumer
    case AtTop => 1
    case Processed => 2
    case AwaitsUsage => 3
    case AwaitsProvider => 4
    case AwaitsContext => 5
    case _ => 0
  }

  function Work(consumers: seq<Consumer>): nat {
    if consumers == [] then 0 else Rank(consumers[0]) + Work(consumers[1..])
  }

  lemma {:induction false} WorkMoved(consumers: seq<Consumer>, i: nat, to: Consumer)
    requires i < |consumers|
    ensures Work(consumers[i := to]) + Rank(consumers[i]) == Work(consumers) + Rank(to)
  {
    if i == 0 {
      assert consumers[i := to][1..] == consumers[1..];
    } else {
      WorkMoved(consumers[1..], i - 1, to);
      assert consumers[i := to][1..] == consumers[1..][i - 1 := to];
    }
  }

  /** A turn moves its consumer down, unless it takes one more reservation. */
  lemma TurnMovesDown(c: Cycle, i: nat, e: Event, maxAnalyses: nat)
    requires i < |c.consumers| && Possible(c.consumers[i], e) && c.reservations <= maxAnalyses
    ensures var d := Play(c, Consume(i, e), maxAnalyses);
      && |d.consumers| == |c.consumers| && d.consumers == c.consumers[i := d.consumers[i]]
      && c.reservations <= d.reservations <= maxAnalyses
      && Rank(d.consumers[i]) < Rank(c.consumers[i]) + 5 * (d.reservations - c.reservations)
  {
  }

  /** Every turn of a live consumer brings the cycle nearer to its end: at most five turns for
    * each reservation and one for each consumer. */
  lemma TurnsMakeProgress(c: Cycle, i: nat, e: Event, maxAnalyses: nat)
    requires i < |c.consumers| && Possible(c.consumers[i], e) && c.reservations <= maxAnalyses
    ensures var d := Play(c, Consume(i, e), maxAnalyses);
      d.reservations <= maxAnalyses
      && 5 * (maxAnalyses - d.reservations) + Work(d.consumers) < 5 * (maxAnalyses - c.reservations) + Work(c.consumers)
  {
    TurnMovesDown(c, i, e, maxAnalyses);
    WorkMoved(c.consumers, i, Play(c, Consume(i, e), maxAnalyses).consumers[i]);
  }

  // ----- The worker -----

  class AnalysisCycle {
    var reservations: nat
    var claimed: nat
    var completed: nat
    var retried: nat
    var suspended: nat
    var providerCalls: nat
    ghost var deferred: nat
    var status: Status
    var workerSuspended: bool
    var consumers: seq<Consumer>

    ghost function State(): Cycle
      reads this
    {
      Cycle(reservations, claimed, completed, retried, suspended, providerCalls, deferred, status, workerSuspended, consumers)
    }

    constructor (maxConcurrency: nat)
      ensures State() == Start(maxConcurrency)
    {
      reservations, claimed, completed, retried, suspended, providerCalls, deferred := 0, 0, 0, 0, 0, 0, 0;
      status, workerSuspended := Idle, false;
      consumers := seq(maxConcurrency, _ => AtTop);
    }

    /** The consumer reserves an analysis and claims a job, or stops. */
    method Reserve(i: nat, e: Event, maxAnalyses: nat)
      requires i < |consumers| && consumers[i].AtTop? && Possible(consumers[i], e)
      modifies this
      ensures State() == Play(old(State()), Consume(i, e), maxAnalyses)
    {
      if reservations >= maxAnalyses {
        consumers := consumers[i := Done];
        return;
      }
      reservations := reservations + 1;
      match e {
        case BudgetIsSpent =>
          status := if claimed == 0 then BudgetBlocked else Completed;
          consumers := consumers[i := Done];
        case NothingToClaim =>
          consumers := consumers[i := Done];
        case StoreThrows(claimedFirst) =>
          if claimedFirst { claimed := claimed + 1; }
          consumers := consumers[i := Rejected(claimedFirst)];
        case ClaimedWithoutSlot =>
          claimed := claimed + 1;
          deferred := deferred + 1;
          status := BudgetBlocked;
          consumers := consumers[i := Done];
        case ClaimedWithSlot =>
          claimed := claimed + 1;
          consumers := consumers[i := AwaitsContext];
      }
    }

    /** The claimed job advances by one await, or its attempt fails. */
    method ProcessClaim(i: nat, e: Event, maxAnalyses: nat)
      requires i < |consumers| && !consumers[i].AtTop? && Possible(consumers[i], e)
      modifies this
      ensures State() == Play(old(State()), Consume(i, e), maxAnalyses)
    {
      match e {
        case CircuitRefuses =>
          deferred := deferred + 1;
          status := CircuitOpen;
          consumers := consumers[i := Done];
          return;
        case StateIsRead =>
          consumers := consumers[i := if workerSuspended then Done else AtTop];
          return;
        case StateUnreadable =>
          consumers := consumers[i := Rejected(false)];
          return;
        case CallStarts =>
          providerCalls := providerCalls + 1;
          consumers := consumers[i := AwaitsProvider];
          return;
        case ResultStored(circuitRecorded) =>
          if circuitRecorded {
            consumers := consumers[i := AwaitsUsage];
            return;
          }
          completed := completed + 1;
        case UsageHandled =>
          completed := completed + 1;
        case Fails(failure) =>
          match failure {
            case StoreRefuses(flagged) =>
              if flagged { workerSuspended := true; }
              suspended := suspended + 1;
            case WillRetry =>
              retried := retried + 1;
            case JobSuspended(transient, flagged) =>
              suspended := suspended + 1;
              if !transient && flagged { workerSuspended := true; }
          }
      }
      consumers := consumers[i := Processed];
    }

    /** One turn of the event loop. */
    method TakeTurn(turn: Turn, maxAnalyses: nat)
      modifies this
      ensures State() == Play(old(State()), turn, maxAnalyses)
      ensures |consumers| == old(|consumers|)
    {
      match turn {
        case Outside(flag) =>
          workerSuspended := flag;
        case Consume(i, e) =>
          if i < |consumers| {
            if consumers[i] == AtTop && reservations >= maxAnalyses {
              consumers := consumers[i := Done];
            } else if Possible(consumers[i], e) {
              if consumers[i] == AtTop { Reserve(i, e, maxAnalyses); } else { ProcessClaim(i, e, maxAnalyses); }
            }
          }
      }
    }

    /** Runs the consumers in the order the event loop resumes them. */
    method RunCycle(maxAnalyses: nat, turns: seq<Turn>) returns (reported: Status)
      requires State() == Start(|consumers|)
      modifies this
      ensures |consumers| == old(|consumers|)
      ensures State() == PlayAll(Start(|consumers|), turns, maxAnalyses).(status := reported)
      ensures Returns(State()) ==>
        && claimed == completed + retried + suspended + deferred
        && completed <= providerCalls <= claimed - deferred
        && claimed <= maxAnalyses
        && (reported.Idle? ==> claimed == 0)
        && (reported.Suspended? <==> workerSuspended)
    {
      ghost var n := |consumers|;
      for k := 0 to |turns|
        invariant |consumers| == n
        invariant State() == PlayAll(Start(n), turns[..k], maxAnalyses)
      {
        assert turns[..k + 1][..k] == turns[..k];
        TakeTurn(turns[k], maxAnalyses);
      }
      assert turns[..|turns|] == turns;
      ghost var c := State();
      NeverSuspendedBeforeTheEnd(n, turns, maxAnalyses);
      if workerSuspended {
        status := Suspended;
      } else if completed > 0 || retried > 0 || suspended > 0 {
        status := Completed;
      }
      reported := status;
      if Returns(c) { EveryInterleavingConserves(n, turns, maxAnalyses); }
    }
  }

  lemma {:induction false} NeverSuspendedBeforeTheEnd(maxConcurrency: nat, turns: seq<Turn>, maxAnalyses: nat)
    ensures !PlayAll(Start(maxConcurrency), turns, maxAnalyses).status.Suspended?
  {
    if turns != [] { NeverSuspendedBeforeTheEnd(maxConcurrency, turns[..|turns| - 1], maxAnalyses); }
  }
}
