/** The rows of the analysis queue and what each store transaction does to them.
  *
  * A cache key stands for the SHA-256 digest of its parts, which the model takes to be
  * injective. An analysis id is given to a row when it is inserted and never changes, so
  * the cache key also stands for the id in every statement that selects a row by id.
  */
module JobTable {
  import opened Common

  type Worker = nat

  /** The prompt, model and schema versions of an analysis. */
  datatype Versions = Versions(prompt: nat, model: nat, schema: nat)

  /** The token is the normalised chain and contract address. */
  datatype Key = Key(token: nat, fingerprint: nat, versions: Versions)

  datatype Brief = Brief(key: Key, content: nat)

  datatype Status = Queued | Processing | Ready | Stale | Failed | Suspended

  datatype Validation = Pending | Valid | Invalid

  datatype ProviderStatus = NotAttempted | Started | ResponseReceived | AttemptFailed

  datatype Row = Row(
    status: Status, requestedAt: Time, queuedAt: Option<Time>, startedAt: Option<Time>,
    completedAt: Option<Time>, failedAt: Option<Time>, nextRetryAt: Option<Time>, attempts: nat,
    result: Option<Brief>, validation: Validation, provider: ProviderStatus, providerAttempts: nat,
    owner: Option<Worker>, leaseUntil: Option<Time>, createdAt: Time, updatedAt: Time)

  type Table = map<Key, Row>

  // ----- Enqueue -----

  datatype Outcome =
    | AlreadyReady
    | AlreadyExists
    | IsSuspended
    | Cooldown(until: Time)
    | MayQueue

  /** How an enqueue is answered before the rate limits are consulted. */
  function Precheck(t: Table, key: Key, now: Time, cooldownMs: int, force: bool): Outcome {
    if key !in t || force then MayQueue
    else
      var row := t[key];
      if row.status.Ready? || (row.status.Stale? && row.result.Some?) then AlreadyReady
      else if row.status.Queued? || row.status.Processing? then AlreadyExists
      else if row.status.Suspended? then IsSuspended
      else
        var until := Max(row.updatedAt + cooldownMs, if row.nextRetryAt.Some? then row.nextRetryAt.value else 0);
        if until > now then Cooldown(until) else MayQueue
  }

  function NewRow(now: Time): Row {
    Row(Queued, now, Some(now), None, None, None, None, 0, None, Pending, NotAttempted, 0, None, None, now, now)
  }

  /** An existing row queued again keeps its attempts, its result and its creation time. */
  function QueuedAgain(row: Row, now: Time): Row {
    row.(status := Queued, requestedAt := now, queuedAt := Some(now), startedAt := None, completedAt := None,
         failedAt := None, nextRetryAt := None, validation := Pending, owner := None, leaseUntil := None, updatedAt := now)
  }

  // ----- Claims -----

  predicate Expired(row: Row, now: Time) {
    row.status.Processing? && row.leaseUntil.Some? && row.leaseUntil.value <= now
  }

  predicate Waiting(row: Row) {
    row.status.Queued? || row.status.Failed?
  }

  predicate Eligible(row: Row, now: Time) {
    (Waiting(row) && (row.nextRetryAt.None? || row.nextRetryAt.value <= now)) || Expired(row, now)
  }

  /** The moment a row asks to be served. */
  function Due(row: Row): Time {
    if row.nextRetryAt.Some? then row.nextRetryAt.value
    else if row.queuedAt.Some? then row.queuedAt.value
    else row.requestedAt
  }

  predicate NoLater(a: Row, b: Row) {
    Due(a) < Due(b) || (Due(a) == Due(b) && a.createdAt <= b.createdAt)
  }

  /** Whether claiming may pick this row: an eligible one that no eligible row precedes. */
  predicate IsNext(t: Table, key: Key, now: Time) {
    key in t && Eligible(t[key], now) && forall k | k in t :: Eligible(t[k], now) ==> NoLater(t[key], t[k])
  }

  predicate Owned(t: Table, key: Key, worker: Worker) {
    key in t && t[key].status.Processing? && t[key].owner == Some(worker)
  }

  // ----- Retries -----

  function Pow2(n: nat): (p: nat)
    ensures p >= 1
  {
    if n == 0 then 1 else 2 * Pow2(n - 1)
  }

  function Scaled(ms: int, factor: real): real {
    ms as real * factor
  }

  function JitterFactor(ratio: real, unit: real): real {
    1.0 - ratio + unit * ratio * 2.0
  }

  /** Exponential backoff with a jitter that the analysis and the attempt determine:
    * `unit` is the first word of their digest, scaled to the interval from 0 to 1. */
  function RetryDelay(attempt: nat, baseMs: nat, jitterRatio: real, unit: real): int {
    var exponential := baseMs * Pow2(if attempt == 0 then 0 else attempt - 1);
    var ratio := if jitterRatio < 0.0 then 0.0 else if jitterRatio > 0.5 then 0.5 else jitterRatio;
    if ratio == 0.0 then exponential
    else Max(1, (Scaled(exponential, JitterFactor(ratio, unit)) + 0.5).Floor)
  }

  // ----- The transactions -----

  datatype Note = AttemptStarts | ResponseArrives | AttemptFails | Diagnostics

  datatype Action =
    | Enqueue(key: Key, now: Time, cooldownMs: int, force: bool, admitted: bool)
    | Claim(key: Key, now: Time, worker: Worker, leaseMs: int)
    | Renew(key: Key, now: Time, worker: Worker, leaseMs: int)
    | Record(key: Key, now: Time, worker: Worker, note: Note)
    | Defer(key: Key, now: Time, worker: Worker, retryAt: Time)
    | Complete(key: Key, now: Time, worker: Worker, brief: Brief)
    | Fail(key: Key, now: Time, worker: Worker, transient: bool, maxAttempts: int, baseMs: nat, jitterRatio: real, unit: real)
    | AfterCompletion(key: Key, now: Time)

  function Claimed(row: Row, a: Action): Row
    requires a.Claim?
  {
    row.(status := Processing, startedAt := Some(a.now), attempts := row.attempts + 1,
         owner := Some(a.worker), leaseUntil := Some(a.now + a.leaseMs), updatedAt := a.now)
  }

  function Noted(row: Row, a: Action): Row
    requires a.Record?
  {
    match a.note
    case AttemptStarts => row.(provider := Started, providerAttempts := row.providerAttempts + 1, updatedAt := a.now)
    case ResponseArrives => if row.provider.Started? then row.(provider := ResponseReceived, updatedAt := a.now) else row
    case AttemptFails => if row.provider.Started? then row.(provider := AttemptFailed, updatedAt := a.now) else row
    case Diagnostics => row.(updatedAt := a.now)
  }

  function Deferred(row: Row, a: Action): Row
    requires a.Defer?
  {
    row.(status := Queued, nextRetryAt := Some(a.retryAt), attempts := if row.attempts == 0 then 0 else row.attempts - 1,
         owner := None, leaseUntil := None, updatedAt := a.now)
  }

  function Completed(row: Row, a: Action): Row
    requires a.Complete?
  {
    row.(status := Ready, completedAt := Some(a.now), failedAt := None, nextRetryAt := None, result := Some(a.brief),
         validation := Valid, owner := None, leaseUntil := None, updatedAt := a.now)
  }

  function Superseded(row: Row, now: Time): Row {
    if row.status.Ready? then row.(status := Stale, updatedAt := now) else row
  }

  function AfterFail(row: Row, a: Action): Row
    requires a.Fail?
  {
    var retryable := a.transient && row.attempts < a.maxAttempts;
    row.(status := if retryable then Failed else Suspended, failedAt := Some(a.now),
         nextRetryAt := if retryable then Some(a.now + RetryDelay(row.attempts, a.baseMs, a.jitterRatio, a.unit)) else None,
         validation := if a.transient then Pending else Invalid, owner := None, leaseUntil := None, updatedAt := a.now)
  }

  /** Whether a transaction finds the row it is allowed to change. */
  predicate TakesEffect(t: Table, a: Action) {
    match a
    case Enqueue(key, now, cooldownMs, force, admitted) => admitted && Precheck(t, key, now, cooldownMs, force).MayQueue?
    case Claim(key, now, _, _) => IsNext(t, key, now)
    case Renew(key, _, worker, _) => Owned(t, key, worker)
    case Record(key, _, worker, _) => Owned(t, key, worker)
    case Defer(key, _, worker, _) => Owned(t, key, worker)
    case Complete(key, _, worker, brief) => Owned(t, key, worker) && brief.key == key
    case Fail(key, _, worker, _, _, _, _, _) => Owned(t, key, worker)
    case AfterCompletion(key, _) => key in t && (t[key].status.Ready? || t[key].status.Stale?)
  }

  /** The row of the action's key after the action has taken effect. */
  function Written(t: Table, a: Action): Row
    requires TakesEffect(t, a)
  {
    match a
    case Enqueue(key, now, _, _, _) => if key in t then QueuedAgain(t[key], now) else NewRow(now)
    case Claim(key, _, _, _) => Claimed(t[key], a)
    case Renew(key, now, _, leaseMs) => t[key].(leaseUntil := Some(now + leaseMs), updatedAt := now)
    case Record(key, _, _, _) => Noted(t[key], a)
    case Defer(key, _, _, _) => Deferred(t[key], a)
    case Complete(key, _, _, _) => Completed(t[key], a)
    case Fail(key, _, _, _, _, _, _, _) => AfterFail(t[key], a)
    case AfterCompletion(key, now) => t[key].(updatedAt := now)
  }

  /** The table after a transaction. Completing a row supersedes the token's other ready rows. */
  function Apply(t: Table, a: Action): Table {
    if !TakesEffect(t, a) then t
    else if a.Complete? then
      map k | k in t :: if k == a.key then Completed(t[k], a) else if k.token == a.key.token then Superseded(t[k], a.now) else t[k]
    else t[a.key := Written(t, a)]
  }

  // ----- Runs -----

  function TableAfter(actions: seq<Action>): Table {
    if actions == [] then map[] else Apply(TableAfter(actions[..|actions| - 1]), actions[|actions| - 1])
  }

  /** A run of transactions under a clock that never goes back. */
  predicate Ordered(actions: seq<Action>) {
    forall i, j :: 0 <= i < j < |actions| ==> actions[i].now <= actions[j].now
  }

  /** What every reachable row satisfies, at any time from its last change on. */
  predicate RowInvariant(key: Key, row: Row, clock: Time) {
    && (row.status.Processing? <==> row.owner.Some?)
    && (row.status.Processing? <==> row.leaseUntil.Some?)
    && (row.status.Processing? ==> row.attempts >= 1)
    && (row.validation.Valid? <==> row.status.Ready? || row.status.Stale?)
    && (row.validation.Valid? ==> row.completedAt.Some?)
    && (row.validation.Valid? ==> row.result.Some?)
    && (row.result.Some? ==> row.result.value.key == key)
    && row.requestedAt <= clock && row.createdAt <= clock && row.updatedAt <= clock
    && (row.queuedAt.Some? ==> row.queuedAt.value <= clock)
    && (row.startedAt.Some? ==> row.startedAt.value <= clock)
    && (row.completedAt.Some? ==> row.completedAt.value <= clock)
    && (!Waiting(row) && row.nextRetryAt.Some? ==> row.nextRetryAt.value <= clock)
  }

  ghost predicate Invariant(t: Table, clock: Time) {
    forall k :: k in t ==> RowInvariant(k, t[k], clock)
  }

  lemma QueuedRowIsInvariant(key: Key, row: Row, clock: Time, now: Time)
    requires RowInvariant(key, row, clock) && clock <= now
    ensures RowInvariant(key, QueuedAgain(row, now), now)
    ensures RowInvariant(key, NewRow(now), now)
  {
  }

  lemma FailedRowIsInvariant(key: Key, row: Row, a: Action, clock: Time)
    requires RowInvariant(key, row, clock) && clock <= a.now && a.Fail?
    ensures RowInvariant(key, AfterFail(row, a), a.now)
  {
  }

  lemma HeldRowIsInvariant(key: Key, row: Row, a: Action, clock: Time)
    requires RowInvariant(key, row, clock) && clock <= a.now
    ensures a.Claim? && Eligible(row, a.now) ==> RowInvariant(key, Claimed(row, a), a.now)
    ensures a.Record? && row.status.Processing? ==> RowInvariant(key, Noted(row, a), a.now)
  {
  }

  lemma GivenUpRowIsInvariant(key: Key, row: Row, a: Action, clock: Time)
    requires RowInvariant(key, row, clock) && clock <= a.now
    ensures a.Defer? && row.status.Processing? ==> RowInvariant(key, Deferred(row, a), a.now)
    ensures a.Complete? && a.brief.key == key ==> RowInvariant(key, Completed(row, a), a.now)
  {
  }

  lemma WrittenRowIsInvariant(t: Table, a: Action, clock: Time)
    requires Invariant(t, clock) && clock <= a.now && TakesEffect(t, a)
    ensures RowInvariant(a.key, Written(t, a), a.now)
  {
    if a.key in t {
      assert RowInvariant(a.key, t[a.key], clock);
      QueuedRowIsInvariant(a.key, t[a.key], clock, a.now);
      HeldRowIsInvariant(a.key, t[a.key], a, clock);
      GivenUpRowIsInvariant(a.key, t[a.key], a, clock);
      if a.Fail? { FailedRowIsInvariant(a.key, t[a.key], a, clock); }
    }
  }

  lemma OtherRowIsInvariant(t: Table, a: Action, k: Key, clock: Time)
    requires k in t && k != a.key && RowInvariant(k, t[k], clock) && clock <= a.now
    ensures k in Apply(t, a) && RowInvariant(k, Apply(t, a)[k], a.now)
  {
  }

  lemma InvariantStep(t: Table, a: Action, clock: Time)
    requires Invariant(t, clock) && clock <= a.now
    ensures Invariant(Apply(t, a), a.now)
  {
    forall k | k in Apply(t, a) ensures RowInvariant(k, Apply(t, a)[k], a.now) {
      if k != a.key {
        OtherRowIsInvariant(t, a, k, clock);
      } else if TakesEffect(t, a) {
        WrittenRowIsInvariant(t, a, clock);
      } else {
        assert RowInvariant(k, t[k], clock);
      }
    }
  }

  lemma {:induction false} Reachable(actions: seq<Action>, clock: Time)
    requires Ordered(actions) && (actions != [] ==> actions[|actions| - 1].now <= clock)
    ensures Invariant(TableAfter(actions), clock)
  {
    if actions != [] {
      var front, a := actions[..|actions| - 1], actions[|actions| - 1];
      Reachable(front, a.now);
      InvariantStep(TableAfter(front), a, a.now);
      forall k | k in TableAfter(actions) ensures RowInvariant(k, TableAfter(actions)[k], clock) {
        assert RowInvariant(k, TableAfter(actions)[k], a.now);
      }
    }
  }
}
