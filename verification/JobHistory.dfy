/** What a row of the queue tells about its past, and when it may be claimed next. */
module JobHistory {
  import opened Common
  import opened JobTable
  import opened JobTheorems

  // ----- Leases -----

  /** The end of the lease on a job, as the actions gave it: set by a claim and by a renewal,
    * over when the job is queued again, deferred, completed or failed. */
  function LeaseEnd(actions: seq<Action>, key: Key): Option<Time> {
    if actions == [] then None
    else
      var front, a := actions[..|actions| - 1], actions[|actions| - 1];
      if !EffectiveOn(actions, |actions| - 1, key) then LeaseEnd(front, key)
      else
        match a
        case Claim(_, now, _, leaseMs) => Some(now + leaseMs)
        case Renew(_, now, _, leaseMs) => Some(now + leaseMs)
        case Record(_, _, _, _) => LeaseEnd(front, key)
        case AfterCompletion(_, _) => LeaseEnd(front, key)
        case _ => None
  }

  lemma {:induction false} LeaseIsAsGiven(actions: seq<Action>, key: Key)
    requires Ordered(actions)
    ensures var t := TableAfter(actions); if key in t then t[key].leaseUntil == LeaseEnd(actions, key) else LeaseEnd(actions, key).None?
  {
    if actions != [] {
      var front, a := actions[..|actions| - 1], actions[|actions| - 1];
      LeaseIsAsGiven(front, key);
      Reachable(front, a.now);
      var t := TableAfter(front);
      if key in t { assert RowInvariant(key, t[key], a.now); }
    }
  }

  /** A job in progress is there for another worker exactly from the end of its lease on. */
  lemma LeasedUntilItsEnd(actions: seq<Action>, key: Key, later: Time)
    requires Ordered(actions) && key in TableAfter(actions) && TableAfter(actions)[key].status.Processing?
    ensures LeaseEnd(actions, key).Some?
    ensures Eligible(TableAfter(actions)[key], later) <==> later >= LeaseEnd(actions, key).value
  {
    LeaseIsAsGiven(actions, key);
    Reachable(actions, actions[|actions| - 1].now);
    assert RowInvariant(key, TableAfter(actions)[key], actions[|actions| - 1].now);
  }

  /** The action gives or ends a lease on the key. */
  predicate Releases(actions: seq<Action>, k: nat, key: Key)
    requires k < |actions|
  {
    EffectiveOn(actions, k, key) && !actions[k].Record? && !actions[k].AfterCompletion?
  }

  lemma {:induction false} LeaseStands(actions: seq<Action>, n: nat, key: Key)
    requires n < |actions| && EffectiveOn(actions, n, key) && (actions[n].Claim? || actions[n].Renew?)
    requires forall k :: n < k < |actions| ==> !Releases(actions, k, key)
    ensures LeaseEnd(actions, key) == Some(actions[n].now + actions[n].leaseMs)
  {
    if n < |actions| - 1 {
      var front := actions[..|actions| - 1];
      forall k | 0 <= k < |front| ensures EffectiveOn(front, k, key) == EffectiveOn(actions, k, key) {
        assert front[..k] == actions[..k];
      }
      forall k | n < k < |front| ensures !Releases(front, k, key) {
        assert front[k] == actions[k] && !Releases(actions, k, key);
      }
      LeaseStands(front, n, key);
      assert !Releases(actions, |actions| - 1, key);
    }
  }

  /** Between a claim or a renewal and the end of the lease it gave, no other claim of the job
    * takes effect, unless the owner has deferred, failed or completed it, a forced enqueue has
    * queued it again, or another renewal has set another end. */
  lemma NobodyTakesALease(actions: seq<Action>, n: nat, key: Key, a: Action)
    requires Ordered(actions) && n < |actions| && EffectiveOn(actions, n, key) && (actions[n].Claim? || actions[n].Renew?)
    requires forall k :: n < k < |actions| ==> !Releases(actions, k, key)
    requires a.Claim? && a.key == key && TakesEffect(TableAfter(actions), a)
    ensures a.now >= actions[n].now + actions[n].leaseMs
  {
    LeaseStands(actions, n, key);
    LeaseIsAsGiven(actions, key);
    Reachable(actions, actions[|actions| - 1].now);
    assert RowInvariant(key, TableAfter(actions)[key], actions[|actions| - 1].now);
    LeasedUntilItsEnd(actions, key, a.now);
  }

  // ----- When a job may be claimed next -----

  /** What an action that took effect makes of the moment from which its job may be claimed. */
  lemma NextClaimable(t: Table, a: Action, clock: Time, later: Time)
    requires Invariant(t, clock) && clock <= a.now && TakesEffect(t, a)
    ensures var next := Apply(t, a)[a.key];
      match a
      case Enqueue(_, _, _, _, _) => Eligible(next, later)
      case Claim(_, now, _, leaseMs) => Eligible(next, later) <==> later >= now + leaseMs
      case Renew(_, now, _, leaseMs) => Eligible(next, later) <==> later >= now + leaseMs
      case Record(_, _, _, _) => Eligible(next, later) <==> Eligible(t[a.key], later)
      case Defer(_, _, _, retryAt) => Eligible(next, later) <==> later >= retryAt
      case Complete(_, _, _, _) => !Eligible(next, later)
      case Fail(_, now, _, transient, maxAttempts, baseMs, jitterRatio, unit) =>
        Eligible(next, later) <==> transient && t[a.key].attempts < maxAttempts
                                   && later >= now + RetryDelay(t[a.key].attempts, baseMs, jitterRatio, unit)
      case AfterCompletion(_, _) => !Eligible(next, later)
  {
    if a.key in t { assert RowInvariant(a.key, t[a.key], clock); }
  }

  /** The status that an action leaves, and that a row says when it was last written. Renewals,
    * records and what follows a completion leave the status as it is. */
  lemma StatusMoves(t: Table, a: Action)
    requires TakesEffect(t, a)
    ensures var next := Apply(t, a)[a.key];
      && next.updatedAt == (if a.Record? && next == t[a.key] then t[a.key].updatedAt else a.now)
      && (a.Enqueue? || a.Defer? ==> next.status.Queued?) && (a.Claim? ==> next.status.Processing?) && (a.Complete? ==> next.status.Ready?)
      && (a.Fail? ==> next.status.Failed? || next.status.Suspended?)
      && (a.Renew? || a.Record? || a.AfterCompletion? ==> next.status == t[a.key].status)
  {
  }

  /** A renewal moves the end of the lease and no more, a record the provider's attempts and no
    * more, and what follows a completion nothing at all; all but the time of the last write. */
  lemma SmallSteps(t: Table, a: Action)
    requires TakesEffect(t, a)
    ensures var next := Apply(t, a)[a.key];
      && (a.Renew? ==> next.(leaseUntil := t[a.key].leaseUntil, updatedAt := t[a.key].updatedAt) == t[a.key])
      && (a.Record? ==>
            next.(provider := t[a.key].provider, providerAttempts := t[a.key].providerAttempts, updatedAt := t[a.key].updatedAt) == t[a.key])
      && (a.AfterCompletion? ==> next.(updatedAt := t[a.key].updatedAt) == t[a.key])
  {
  }

  /** An action changes no row but its own, except that a completion turns the token's other
    * ready rows stale. */
  lemma OtherRowsStay(t: Table, a: Action, k: Key)
    requires k in t && k != a.key
    ensures k in Apply(t, a)
    ensures var next := Apply(t, a)[k];
      if a.Complete? && TakesEffect(t, a) && k.token == a.key.token && t[k].status.Ready?
      then next == t[k].(status := Stale, updatedAt := a.now) else next == t[k]
  {
  }

  /** A job that failed for good is suspended and its output judged invalid; one that may be
    * tried again is not judged. */
  lemma FailureIsJudged(t: Table, a: Action)
    requires a.Fail? && TakesEffect(t, a)
    ensures var next := Apply(t, a)[a.key];
      && (next.status.Suspended? <==> !a.transient || t[a.key].attempts >= a.maxAttempts)
      && (next.status.Failed? <==> a.transient && t[a.key].attempts < a.maxAttempts)
      && (next.validation.Invalid? <==> !a.transient) && (next.validation.Pending? <==> a.transient)
  {
  }

  /** Among jobs that were never deferred or retried the one queued first is claimed, among the
    * others the one whose retry time came first, and at equal times the one created first. */
  lemma ClaimTakesTheOldest(t: Table, key: Key, k: Key, now: Time)
    requires IsNext(t, key, now) && k in t && Eligible(t[k], now)
    ensures var c, r := t[key], t[k];
      && (c.nextRetryAt.None? && r.nextRetryAt.None? && c.queuedAt.Some? && r.queuedAt.Some? ==>
            c.queuedAt.value < r.queuedAt.value || (c.queuedAt == r.queuedAt && c.createdAt <= r.createdAt))
      && (c.nextRetryAt.Some? && r.nextRetryAt.Some? ==>
            c.nextRetryAt.value < r.nextRetryAt.value || (c.nextRetryAt == r.nextRetryAt && c.createdAt <= r.createdAt))
      && (c.nextRetryAt.Some? && r.nextRetryAt.None? && r.queuedAt.Some? ==> c.nextRetryAt.value <= r.queuedAt.value)
      && (c.nextRetryAt.None? && r.nextRetryAt.Some? && c.queuedAt.Some? ==> c.queuedAt.value <= r.nextRetryAt.value)
  {
  }

  // ----- Results -----

  /** The brief that the last completion of the job stored. */
  function LastStored(actions: seq<Action>, key: Key): Option<Brief> {
    if actions == [] then None
    else if EffectiveOn(actions, |actions| - 1, key) && actions[|actions| - 1].Complete?
    then Some(actions[|actions| - 1].brief)
    else LastStored(actions[..|actions| - 1], key)
  }

  /** The result of a row is that of its last completion, whatever came after: not even a forced
    * enqueue takes it away, so a lookup of the very job still finds it. */
  lemma {:induction false} ResultIsTheLastStored(actions: seq<Action>, key: Key)
    ensures var t := TableAfter(actions);
      if key in t then t[key].result == LastStored(actions, key) else LastStored(actions, key).None?
  {
    if actions != [] { ResultIsTheLastStored(actions[..|actions| - 1], key); }
  }

  /** The row holds the valid result found for a token, completed no earlier than a moment. */
  predicate IsGoodSince(t: Table, key: Key, k: Key, found: Option<Brief>, since: Time) {
    && k in t && k.token == key.token && k.versions == key.versions
    && t[k].result == found && t[k].validation.Valid? && (t[k].completedAt.Some? ==> t[k].completedAt.value >= since)
  }

  /** Of the valid results for a token the one of the latest completion is the last known good. */
  lemma KnownGoodIsTheLatest(t: Table, key: Key, found: Option<Brief>, other: Key)
    requires KnownGood(t, key, found) && !(key in t && t[key].result.Some?)
    requires other in t && other.token == key.token && other.versions == key.versions
    requires t[other].result.Some? && t[other].validation.Valid? && t[other].completedAt.Some? && t[other].completedAt.value >= 0
    ensures exists k :: IsGoodSince(t, key, k, found, t[other].completedAt.value)
  {
    assert HoldsGood(t, key.token, key.versions, other);
    var k :| HoldsGood(t, key.token, key.versions, k) && t[k].result == found
             && forall j :: HoldsGood(t, key.token, key.versions, j) ==> Latest(t[k]) >= Latest(t[j]);
    assert IsGoodSince(t, key, k, found, t[other].completedAt.value);
  }

  // ----- The times of a row -----

  datatype Mark = QueuedMark | StartedMark | CompletedMark | FailedMark

  /** Whether an action sets or clears a time of its row. */
  function MarkOf(a: Action, mark: Mark): Option<Option<Time>> {
    match mark
    case QueuedMark => if a.Enqueue? then Some(Some(a.now)) else None
    case StartedMark => if a.Claim? then Some(Some(a.now)) else if a.Enqueue? then Some(None) else None
    case CompletedMark => if a.Complete? then Some(Some(a.now)) else if a.Enqueue? then Some(None) else None
    case FailedMark => if a.Fail? then Some(Some(a.now)) else if a.Enqueue? || a.Complete? then Some(None) else None
  }

  /** The time that the last action on the key to set or clear it has left. */
  function Marked(actions: seq<Action>, key: Key, mark: Mark): Option<Time> {
    if actions == [] then None
    else
      var front, a := actions[..|actions| - 1], actions[|actions| - 1];
      if EffectiveOn(actions, |actions| - 1, key) && MarkOf(a, mark).Some? then MarkOf(a, mark).value else Marked(front, key, mark)
  }

  /** When the job was queued for the first time. */
  function FirstQueued(actions: seq<Action>, key: Key): Option<Time> {
    if actions == [] then None
    else
      var first := FirstQueued(actions[..|actions| - 1], key);
      if first.Some? then first
      else if EffectiveOn(actions, |actions| - 1, key) && actions[|actions| - 1].Enqueue? then Some(actions[|actions| - 1].now)
      else None
  }

  /** The times of a row are those of what happened to its job. */
  lemma {:induction false} TimesTellHistory(actions: seq<Action>, key: Key)
    ensures var t := TableAfter(actions);
      if key !in t then FirstQueued(actions, key).None?
      else
        && FirstQueued(actions, key) == Some(t[key].createdAt)
        && Marked(actions, key, QueuedMark) == t[key].queuedAt == Some(t[key].requestedAt)
        && Marked(actions, key, StartedMark) == t[key].startedAt
        && Marked(actions, key, CompletedMark) == t[key].completedAt
        && Marked(actions, key, FailedMark) == t[key].failedAt
  {
    if actions != [] {
      var front, a := actions[..|actions| - 1], actions[|actions| - 1];
      TimesTellHistory(front, key);
      if key in TableAfter(actions) { TimesOfStep(TableAfter(front), a, key); }
    }
  }

  lemma TimesOfStep(t: Table, a: Action, key: Key)
    requires key in Apply(t, a)
    ensures var effective, next := a.key == key && TakesEffect(t, a), Apply(t, a)[key];
      && (key !in t ==> effective && a.Enqueue? && next.createdAt == a.now)
      && (key in t ==> next.createdAt == t[key].createdAt)
      && (effective && a.Enqueue? ==> next.requestedAt == a.now && next.queuedAt == Some(a.now))
      && (!(effective && a.Enqueue?) ==> next.requestedAt == t[key].requestedAt && next.queuedAt == t[key].queuedAt)
      && next.startedAt == (if effective && MarkOf(a, StartedMark).Some? then MarkOf(a, StartedMark).value else t[key].startedAt)
      && next.completedAt == (if effective && MarkOf(a, CompletedMark).Some? then MarkOf(a, CompletedMark).value else t[key].completedAt)
      && next.failedAt == (if effective && MarkOf(a, FailedMark).Some? then MarkOf(a, FailedMark).value else t[key].failedAt)
  {
  }

  // ----- Provider attempts -----

  function Starts(actions: seq<Action>, key: Key): nat {
    if actions == [] then 0
    else
      var a := actions[|actions| - 1];
      Starts(actions[..|actions| - 1], key)
      + if EffectiveOn(actions, |actions| - 1, key) && a.Record? && a.note.AttemptStarts? then 1 else 0
  }

  /** The provider attempts of a row count the starts; nothing resets them. */
  lemma {:induction false} ProviderAttemptsAreStarts(actions: seq<Action>, key: Key)
    ensures var t := TableAfter(actions); Starts(actions, key) == if key in t then t[key].providerAttempts else 0
  {
    if actions != [] { ProviderAttemptsAreStarts(actions[..|actions| - 1], key); }
  }

  /** An attempt is started whatever came before; it answers or fails only when it has started. */
  lemma ProviderMoves(t: Table, a: Action)
    requires a.Record? && TakesEffect(t, a)
    ensures var before, after := t[a.key].provider, Apply(t, a)[a.key].provider;
      && (a.note.AttemptStarts? ==> after.Started?)
      && (a.note.ResponseArrives? ==> after == if before.Started? then ResponseReceived else before)
      && (a.note.AttemptFails? ==> after == if before.Started? then AttemptFailed else before)
      && (a.note.Diagnostics? ==> after == before)
  {
  }

  // ----- Answers to an enqueue -----

  /** Why an unforced enqueue does not queue: the job has a valid result, is under way, or is
    * suspended; a failed one is in its cooldown, which ends at the first moment at which the
    * same enqueue would queue it. */
  lemma EnqueueAnswers(t: Table, key: Key, now: Time, cooldownMs: int, clock: Time, later: Time)
    requires Invariant(t, clock) && now >= 0 && later >= 0
    ensures var answer := Precheck(t, key, now, cooldownMs, false);
      && (answer.AlreadyReady? <==> key in t && t[key].validation.Valid?)
      && (answer.AlreadyExists? <==> key in t && (t[key].status.Queued? || t[key].status.Processing?))
      && (answer.IsSuspended? <==> key in t && t[key].status.Suspended?)
      && (answer.Cooldown? ==> key in t && t[key].status.Failed? && answer.until > now)
      && (answer.Cooldown? ==> (Precheck(t, key, later, cooldownMs, false).MayQueue? <==> later >= answer.until))
    ensures Precheck(t, key, now, cooldownMs, true).MayQueue?
  {
    assert key in t ==> RowInvariant(key, t[key], clock);
  }

  // ----- Retry delays -----

  /** Without jitter the first retry waits for the base time and each later one twice as long. */
  lemma RetryDelayDoubles(attempt: nat, baseMs: nat, unit: real)
    ensures RetryDelay(0, baseMs, 0.0, unit) == RetryDelay(1, baseMs, 0.0, unit) == baseMs
    ensures attempt >= 1 ==> RetryDelay(attempt + 1, baseMs, 0.0, unit) == 2 * RetryDelay(attempt, baseMs, 0.0, unit)
  {
    assert Pow2(0) == 1;
    if attempt >= 1 { assert Pow2(attempt) == 2 * Pow2(attempt - 1); }
  }

  /** Jitter spreads a delay by at most its ratio, capped at a half, to either side: from the
    * least when the unit is 0, over the plain delay at a half, to the most when it is 1. */
  lemma JitterSpreads(attempt: nat, baseMs: nat, ratio: real, unit: real)
    requires 0.0 < ratio && 0.0 <= unit <= 1.0 && baseMs >= 1
    ensures var plain, r, d := RetryDelay(attempt, baseMs, 0.0, unit), if ratio > 0.5 then 0.5 else ratio, RetryDelay(attempt, baseMs, ratio, unit);
      && d >= 1 && Scaled(plain, 1.0 - r) - 0.5 <= d as real <= Scaled(plain, 1.0 + r) + 0.5
      && (unit == 0.5 ==> d == plain)
      && (unit == 0.0 ==> d as real <= Scaled(plain, 1.0 - r) + 0.5)
      && (unit == 1.0 ==> d as real >= Scaled(plain, 1.0 + r) - 0.5)
  {
    var plain, r := RetryDelay(attempt, baseMs, 0.0, unit), if ratio > 0.5 then 0.5 else ratio;
    RetryDelayIsPositive(attempt, baseMs, 0.0, unit);
    FactorInRange(r, unit);
    RoundedProduct(plain, JitterFactor(r, unit), 1.0 - r, 1.0 + r);
  }

  lemma FactorInRange(r: real, unit: real)
    requires 0.0 < r <= 0.5 && 0.0 <= unit <= 1.0
    ensures 0.0 < 1.0 - r <= JitterFactor(r, unit) <= 1.0 + r
    ensures unit == 0.5 ==> JitterFactor(r, unit) == 1.0
    ensures unit == 0.0 ==> JitterFactor(r, unit) == 1.0 - r
    ensures unit == 1.0 ==> JitterFactor(r, unit) == 1.0 + r
  {
    assert 0.0 <= unit * r <= r by { ProductInRange(r, unit, 0.0, 1.0); }
  }

  lemma ProductInRange(x: real, factor: real, low: real, high: real)
    requires x >= 0.0 && low <= factor <= high
    ensures x * low <= x * factor <= x * high
  {
    assert x * (factor - low) >= 0.0 && x * (high - factor) >= 0.0;
  }

  lemma RoundedProduct(plain: int, factor: real, low: real, high: real)
    requires plain >= 1 && 0.5 <= low <= factor <= high
    ensures var d := Max(1, (Scaled(plain, factor) + 0.5).Floor);
      && d as real <= Scaled(plain, factor) + 0.5 && d as real >= Scaled(plain, factor) - 0.5
      && Scaled(plain, low) <= Scaled(plain, factor) <= Scaled(plain, high)
      && (factor == 1.0 ==> d == plain)
  {
    ProductInRange(plain as real, factor, low, high);
    ProductInRange(low, plain as real, 1.0, plain as real);
  }
}
