/** The analysis queue store: each method is one database transaction. */
module QueueStore {
  import opened Common
  import opened JobTable
  import opened RateLimits
  import JobTheorems

  datatype StoreError = StoreUnavailable | StoreSchemaInvalid

  datatype EnqueueAnswer =
    | Existing(outcome: Outcome, retryAfterSeconds: Option<int>)
    | RateLimited(retryAfter: int)
    | NowQueued

  class AnalysisQueueStore {
    var rows: Table
    const requests: RequestLog

    constructor ()
      ensures rows == map[] && requests.log == [] && fresh(requests)
    {
      rows := map[];
      requests := new RequestLog();
    }

    /** Answers from the existing row when there is one to answer from; otherwise the request
      * must pass the rate limits, is logged, and queues a new or an old row. */
    method Enqueue(key: Key, session: nat, now: Time, limits: Limits, cooldownMs: int, force: bool) returns (answer: EnqueueAnswer)
      modifies `rows, requests
      ensures var before := Precheck(old(rows), key, now, cooldownMs, force);
              var decision := Decide(old(requests.log), limits, Request(session, key.token, now));
              && rows == Apply(old(rows), JobTable.Enqueue(key, now, cooldownMs, force, decision.Accepted?))
              && requests.log == (if before.MayQueue? then Next(old(requests.log), limits, Request(session, key.token, now))
                                  else old(requests.log))
              && (!before.MayQueue? ==> answer.Existing? && answer.outcome == before)
              && (before.Cooldown? ==> answer.retryAfterSeconds == Some(Max(1, CeilSeconds(before.until - now))))
              && (before.MayQueue? ==> answer == if decision.Limited? then RateLimited(decision.retryAfterSeconds) else NowQueued)
    {
      if key in rows && !force {
        var row := rows[key];
        if row.status == Ready || (row.status == Stale && row.result.Some?) {
          return Existing(AlreadyReady, None);
        }
        if row.status == Queued || row.status == Processing {
          return Existing(AlreadyExists, None);
        }
        if row.status == Suspended {
          return Existing(IsSuspended, None);
        }
        var cooldownUntil := Max(row.updatedAt + cooldownMs, if row.nextRetryAt.Some? then row.nextRetryAt.value else 0);
        if cooldownUntil > now {
          return Existing(Cooldown(cooldownUntil), Some(Max(1, CeilSeconds(cooldownUntil - now))));
        }
      }
      var decision := requests.Admit(limits, Request(session, key.token, now));
      if decision.Limited? {
        return RateLimited(decision.retryAfterSeconds);
      }
      if key in rows {
        rows := rows[key := rows[key].(
          status := Queued, requestedAt := now, queuedAt := Some(now), startedAt := None, completedAt := None,
          failedAt := None, nextRetryAt := None, validation := Pending, owner := None, leaseUntil := None, updatedAt := now)];
      } else {
        rows := rows[key := Row(Queued, now, Some(now), None, None, None, None, 0, None, Pending, NotAttempted, 0, None, None, now, now)];
      }
      return NowQueued;
    }

    /** Claims an eligible job that is due no later than any other; claims nothing only when
      * no job is eligible. */
    method ClaimNext(worker: Worker, now: Time, leaseMs: int) returns (claimed: Option<Key>)
      modifies `rows
      ensures claimed.None? ==> rows == old(rows) && forall k | k in rows :: !Eligible(rows[k], now)
      ensures claimed.Some? ==>
        && TakesEffect(old(rows), Claim(claimed.value, now, worker, leaseMs))
        && rows == Apply(old(rows), Claim(claimed.value, now, worker, leaseMs))
    {
      claimed := None;
      var todo := rows.Keys;
      while todo != {}
        invariant todo <= rows.Keys
        invariant claimed.None? ==> forall k | k in rows && k !in todo :: !Eligible(rows[k], now)
        invariant claimed.Some? ==>
          && claimed.value in rows && Eligible(rows[claimed.value], now)
          && forall k | k in rows && k !in todo :: Eligible(rows[k], now) ==> NoLater(rows[claimed.value], rows[k])
      {
        var k :| k in todo;
        todo := todo - {k};
        if Eligible(rows[k], now) && (claimed.None? || !NoLater(rows[claimed.value], rows[k])) {
          claimed := Some(k);
        }
      }
      if claimed.Some? {
        var row := rows[claimed.value];
        rows := rows[claimed.value := row.(
          status := Processing, startedAt := Some(now), attempts := row.attempts + 1,
          owner := Some(worker), leaseUntil := Some(now + leaseMs), updatedAt := now)];
      }
    }

    method RenewLease(key: Key, worker: Worker, now: Time, leaseMs: int) returns (renewed: bool)
      modifies `rows
      ensures rows == Apply(old(rows), Renew(key, now, worker, leaseMs))
      ensures renewed == Owned(old(rows), key, worker)
    {
      renewed := key in rows && rows[key].status == Processing && rows[key].owner == Some(worker);
      if renewed {
        rows := rows[key := rows[key].(leaseUntil := Some(now + leaseMs), updatedAt := now)];
      }
    }

    /** The provider bookkeeping of a claim; it needs the lease, and an outcome needs a start. */
    method RecordProvider(key: Key, worker: Worker, now: Time, note: Note) returns (r: Result<Row, StoreError>)
      modifies `rows
      ensures rows == Apply(old(rows), Record(key, now, worker, note))
      ensures r.Ok? <==> Owned(old(rows), key, worker)
                         && (note.ResponseArrives? || note.AttemptFails? ==> old(rows)[key].provider.Started?)
      ensures r.Ok? ==> key in rows && r.value == rows[key]
    {
      if key !in rows || rows[key].status != Processing || rows[key].owner != Some(worker) {
        return Err(StoreUnavailable);
      }
      var row := rows[key];
      match note {
        case AttemptStarts =>
          row := row.(provider := Started, providerAttempts := row.providerAttempts + 1);
        case ResponseArrives =>
          if row.provider != Started { return Err(StoreUnavailable); }
          row := row.(provider := ResponseReceived);
        case AttemptFails =>
          if row.provider != Started { return Err(StoreUnavailable); }
          row := row.(provider := AttemptFailed);
        case Diagnostics =>
      }
      rows := rows[key := row.(updatedAt := now)];
      return Ok(rows[key]);
    }

    method DeferClaim(key: Key, worker: Worker, now: Time, retryAt: Time) returns (deferred: bool)
      modifies `rows
      ensures rows == Apply(old(rows), Defer(key, now, worker, retryAt))
      ensures deferred == Owned(old(rows), key, worker)
    {
      deferred := key in rows && rows[key].status == Processing && rows[key].owner == Some(worker);
      if deferred {
        var row := rows[key];
        rows := rows[key := row.(
          status := Queued, nextRetryAt := Some(retryAt), attempts := if row.attempts == 0 then 0 else row.attempts - 1,
          owner := None, leaseUntil := None, updatedAt := now)];
      }
    }

    /** Stores a result: the token's other ready rows become stale and this row becomes ready. */
    method Complete(key: Key, worker: Worker, now: Time, brief: Brief) returns (r: Result<Row, StoreError>)
      modifies `rows
      ensures rows == Apply(old(rows), JobTable.Complete(key, now, worker, brief))
      ensures r.Ok? <==> Owned(old(rows), key, worker) && brief.key == key
      ensures r.Ok? ==> key in rows && r.value == rows[key]
    {
      if key !in rows || rows[key].status != Processing || rows[key].owner != Some(worker) || key != brief.key {
        return Err(StoreSchemaInvalid);
      }
      var superseded := map k | k in rows ::
        if k.token == key.token && rows[k].status == Ready && k != key then rows[k].(status := Stale, updatedAt := now) else rows[k];
      rows := superseded[key := superseded[key].(
        status := Ready, completedAt := Some(now), failedAt := None, nextRetryAt := None, result := Some(brief),
        validation := Valid, owner := None, leaseUntil := None, updatedAt := now)];
      return Ok(rows[key]);
    }

    /** Ends a failed attempt: a transient failure below the limit waits for a retry, any other
      * suspends the job. */
    method Fail(key: Key, worker: Worker, now: Time, transient: bool, maxAttempts: int, baseMs: nat, jitterRatio: real, unit: real)
      returns (r: Result<Row, StoreError>)
      modifies `rows
      ensures rows == Apply(old(rows), JobTable.Fail(key, now, worker, transient, maxAttempts, baseMs, jitterRatio, unit))
      ensures r.Ok? <==> Owned(old(rows), key, worker)
      ensures r.Ok? ==> key in rows && r.value == rows[key]
    {
      if key !in rows || rows[key].status != Processing || rows[key].owner != Some(worker) {
        return Err(StoreUnavailable);
      }
      var row := rows[key];
      var retryable := transient && row.attempts < maxAttempts;
      var nextRetry := None;
      if retryable {
        nextRetry := Some(now + RetryDelay(row.attempts, baseMs, jitterRatio, unit));
      }
      rows := rows[key := row.(
        status := if retryable then Failed else Suspended, failedAt := Some(now), nextRetryAt := nextRetry,
        validation := if transient then Pending else Invalid, owner := None, leaseUntil := None, updatedAt := now)];
      return Ok(rows[key]);
    }

    /** The row of a key and the last known good result for it. */
    method Lookup(key: Key) returns (record: Option<Row>, found: Option<Brief>)
      ensures record == if key in rows then Some(rows[key]) else None
      ensures JobTheorems.KnownGood(rows, key, found)
    {
      record := if key in rows then Some(rows[key]) else None;
      if record.Some? && record.value.result.Some? {
        return record, record.value.result;
      }
      found := None;
      ghost var holder := key;
      var latest: Time := 0;
      var todo := rows.Keys;
      while todo != {}
        invariant todo <= rows.Keys
        invariant found.None? ==> forall k | k !in todo :: !JobTheorems.HoldsGood(rows, key.token, key.versions, k)
        invariant found.Some? ==>
          && JobTheorems.HoldsGood(rows, key.token, key.versions, holder)
          && rows[holder].result == found && latest == JobTheorems.Latest(rows[holder])
          && forall k | k !in todo :: JobTheorems.HoldsGood(rows, key.token, key.versions, k) ==> latest >= JobTheorems.Latest(rows[k])
      {
        var k :| k in todo;
        todo := todo - {k};
        var row := rows[k];
        if k.token == key.token && k.versions == key.versions && row.result.Some? && row.validation == Valid
           && (found.None? || JobTheorems.Latest(row) > latest) {
          found, latest, holder := row.result, JobTheorems.Latest(row), k;
        }
      }
    }
  }
}
