/** What holds over every run of the analysis queue: lease fencing, attempt accounting,
  * the last known good result, and bounded bypass. */
module JobTheorems {
  import opened Common
  import opened JobTable

  // ----- Lease fencing -----

  predicate EffectiveOn(actions: seq<Action>, i: nat, key: Key)
    requires i < |actions|
  {
    actions[i].key == key && TakesEffect(TableAfter(actions[..i]), actions[i])
  }

  /** The worker whose claim of the key was the last to succeed. */
  function LastClaimant(actions: seq<Action>, key: Key): Option<Worker> {
    if actions == [] then None
    else
      var a := actions[|actions| - 1];
      if a.Claim? && EffectiveOn(actions, |actions| - 1, key) then Some(a.worker)
      else LastClaimant(actions[..|actions| - 1], key)
  }

  predicate ByOwner(a: Action) {
    a.Renew? || a.Record? || a.Defer? || a.Complete? || a.Fail?
  }

  lemma {:induction false} OwnerIsLastClaimant(actions: seq<Action>, key: Key)
    ensures var t := TableAfter(actions);
            key in t ==> t[key].owner.None? || t[key].owner == LastClaimant(actions, key)
  {
    if actions != [] {
      OwnerIsLastClaimant(actions[..|actions| - 1], key);
    }
  }

  /** A worker that is not the last to have claimed a job changes nothing: whatever it tries
    * with the job, the table stays as it is. */
  lemma StaleOwnerChangesNothing(actions: seq<Action>, a: Action)
    requires ByOwner(a) && LastClaimant(actions, a.key) != Some(a.worker)
    ensures Apply(TableAfter(actions), a) == TableAfter(actions)
  {
    OwnerIsLastClaimant(actions, a.key);
  }

  /** Once another worker has claimed a job, the old owner is locked out of it until it
    * claims the job itself. */
  lemma {:induction false} OldOwnerStaysLockedOut(before: seq<Action>, actions: seq<Action>, key: Key, former: Worker)
    requires before <= actions && LastClaimant(before, key).Some? && LastClaimant(before, key) != Some(former)
    requires forall i :: |before| <= i < |actions| ==>
      !(actions[i].Claim? && actions[i].worker == former && EffectiveOn(actions, i, key))
    ensures LastClaimant(actions, key).Some? && LastClaimant(actions, key) != Some(former)
    ensures forall i :: |before| <= i < |actions| && ByOwner(actions[i]) && actions[i].key == key && actions[i].worker == former
                        ==> TableAfter(actions[..i + 1]) == TableAfter(actions[..i])
  {
    if |actions| > |before| {
      var front, last := actions[..|actions| - 1], |actions| - 1;
      forall i | |before| <= i < |front| ensures EffectiveOn(front, i, key) == EffectiveOn(actions, i, key) {
        assert front[..i] == actions[..i];
      }
      OldOwnerStaysLockedOut(before, front, key, former);
      forall i | |before| <= i < |actions| && ByOwner(actions[i]) && actions[i].key == key && actions[i].worker == former
        ensures TableAfter(actions[..i + 1]) == TableAfter(actions[..i])
      {
        if i < last {
          assert actions[..i + 1] == front[..i + 1] && actions[..i] == front[..i];
        } else {
          assert actions[..i + 1] == actions;
          StaleOwnerChangesNothing(front, actions[i]);
        }
      }
    } else {
      assert actions == before;
    }
  }

  /** A completion that the run records at position n: its worker had claimed the job last. */
  predicate CompletesAt(actions: seq<Action>, n: nat, key: Key, result: Option<Brief>) {
    && n < |actions|
    && actions[n].Complete? && actions[n].key == key && Some(actions[n].brief) == result
    && TakesEffect(TableAfter(actions[..n]), actions[n])
    && LastClaimant(actions[..n], key) == Some(actions[n].worker)
  }

  lemma ResultStays(t: Table, a: Action, key: Key)
    requires Invariant(t, a.now) && key in Apply(t, a) && Apply(t, a)[key].validation.Valid?
    requires !(a.Complete? && a.key == key && TakesEffect(t, a))
    ensures key in t && t[key].validation.Valid? && t[key].result == Apply(t, a)[key].result
    ensures !(a.Claim? && a.key == key && TakesEffect(t, a))
  {
    assert key in t ==> RowInvariant(key, t[key], a.now);
  }

  /** Every valid result was stored by the last worker to claim its job. */
  lemma {:induction false} ResultsComeFromLastClaimant(actions: seq<Action>, key: Key)
    requires Ordered(actions)
    requires key in TableAfter(actions) && TableAfter(actions)[key].validation.Valid?
    ensures exists n: nat :: CompletesAt(actions, n, key, TableAfter(actions)[key].result)
                             && LastClaimant(actions, key) == Some(actions[n].worker)
  {
    var front, last := actions[..|actions| - 1], |actions| - 1;
    var a, t, t' := actions[last], TableAfter(front), TableAfter(actions);
    if a.Complete? && EffectiveOn(actions, last, key) {
      OwnerIsLastClaimant(front, key);
      assert CompletesAt(actions, last, key, t'[key].result);
    } else {
      Reachable(front, a.now);
      ResultStays(t, a, key);
      ResultsComeFromLastClaimant(front, key);
      var n: nat :| CompletesAt(front, n, key, t[key].result) && LastClaimant(front, key) == Some(front[n].worker);
      assert front[..n] == actions[..n];
      assert CompletesAt(actions, n, key, t'[key].result);
    }
  }

  // ----- Attempts -----

  function Claims(actions: seq<Action>, key: Key): nat {
    if actions == [] then 0
    else
      Claims(actions[..|actions| - 1], key)
      + if actions[|actions| - 1].Claim? && EffectiveOn(actions, |actions| - 1, key) then 1 else 0
  }

  function Deferrals(actions: seq<Action>, key: Key): nat {
    if actions == [] then 0
    else
      Deferrals(actions[..|actions| - 1], key)
      + if actions[|actions| - 1].Defer? && EffectiveOn(actions, |actions| - 1, key) then 1 else 0
  }

  /** The claims of a key that took over an expired lease. */
  function Reclaims(actions: seq<Action>, key: Key): nat {
    if actions == [] then 0
    else
      var front, a := actions[..|actions| - 1], actions[|actions| - 1];
      Reclaims(front, key)
      + if a.Claim? && EffectiveOn(actions, |actions| - 1, key) && Expired(TableAfter(front)[key], a.now) then 1 else 0
  }

  lemma AttemptsStep(t: Table, a: Action, key: Key)
    requires Invariant(t, a.now)
    ensures var t', effective := Apply(t, a), a.key == key && TakesEffect(t, a);
      && (key in t ==> key in t')
      && (key in t' ==>
            t'[key].attempts == (if key in t then t[key].attempts else 0)
            + (if a.Claim? && effective then 1 else 0) - (if a.Defer? && effective then 1 else 0))
      && (key !in t ==> !(a.Claim? && effective) && !(a.Defer? && effective))
  {
    assert key in t ==> RowInvariant(key, t[key], a.now);
  }

  /** The attempts of a job are its claims less its deferrals: a deferral undoes its claim
    * exactly, and no other transaction, not even queueing the job again, resets the count. */
  lemma {:induction false} AttemptsAreClaimsLessDeferrals(actions: seq<Action>, key: Key)
    requires Ordered(actions)
    ensures key in TableAfter(actions) ==> TableAfter(actions)[key].attempts == Claims(actions, key) - Deferrals(actions, key)
    ensures key !in TableAfter(actions) ==> Claims(actions, key) == Deferrals(actions, key) == 0
  {
    if actions != [] {
      var front, a := actions[..|actions| - 1], actions[|actions| - 1];
      AttemptsAreClaimsLessDeferrals(front, key);
      Reachable(front, a.now);
      AttemptsStep(TableAfter(front), a, key);
    }
  }

  /** Runs without forced enqueues in which every failure is judged by the same limit. */
  predicate Disciplined(actions: seq<Action>, maxAttempts: int) {
    forall i :: 0 <= i < |actions| ==>
      && (actions[i].Enqueue? ==> !actions[i].force)
      && (actions[i].Fail? ==> actions[i].maxAttempts == maxAttempts)
  }

  /** A job in progress has used at most the allowed attempts plus one for each expired lease
    * that was taken over, and a job that waits has used fewer. */
  lemma {:induction false} AttemptsAreBounded(actions: seq<Action>, key: Key, maxAttempts: int)
    requires Ordered(actions) && maxAttempts >= 1 && Disciplined(actions, maxAttempts)
    requires key in TableAfter(actions)
    ensures var row, e := TableAfter(actions)[key], Reclaims(actions, key);
            && (row.status.Processing? || row.status.Suspended? ==> row.attempts <= maxAttempts + e)
            && (Waiting(row) ==> row.attempts < maxAttempts + e)
  {
    var front, a := actions[..|actions| - 1], actions[|actions| - 1];
    if key in TableAfter(front) { AttemptsAreBounded(front, key, maxAttempts); }
    Reachable(front, a.now);
    BoundStays(TableAfter(front), a, key, maxAttempts, Reclaims(front, key));
  }

  predicate AttemptsWithin(row: Row, maxAttempts: int, reclaims: nat) {
    && (row.status.Processing? || row.status.Suspended? ==> row.attempts <= maxAttempts + reclaims)
    && (Waiting(row) ==> row.attempts < maxAttempts + reclaims)
  }

  /** One transaction keeps the attempts within the limit, or takes over an expired lease. */
  lemma BoundStays(t: Table, a: Action, key: Key, maxAttempts: int, reclaims: nat)
    requires Invariant(t, a.now) && maxAttempts >= 1 && (a.Fail? ==> a.maxAttempts == maxAttempts) && (a.Enqueue? ==> !a.force)
    requires key in Apply(t, a) && (key in t ==> AttemptsWithin(t[key], maxAttempts, reclaims))
    ensures AttemptsWithin(Apply(t, a)[key], maxAttempts,
                           reclaims + if a.Claim? && a.key == key && TakesEffect(t, a) && Expired(t[key], a.now) then 1 else 0)
  {
    assert key in t ==> RowInvariant(key, t[key], a.now);
  }

  // ----- The last known good result -----

  /** The valid results that a lookup may fall back to for a token under given versions. */
  ghost predicate HoldsGood(t: Table, token: nat, versions: Versions, k: Key) {
    k in t && k.token == token && k.versions == versions && t[k].result.Some? && t[k].validation.Valid?
  }

  /** What a lookup returns: the row's own result, or else the most recently completed valid
    * result of the token under the same versions, or nothing when there is none. */
  ghost predicate KnownGood(t: Table, key: Key, found: Option<Brief>) {
    if key in t && t[key].result.Some? then found == t[key].result
    else
      match found
      case None => forall k :: !HoldsGood(t, key.token, key.versions, k)
      case Some(brief) =>
        exists k :: && HoldsGood(t, key.token, key.versions, k) && t[k].result == found
                    && forall j :: HoldsGood(t, key.token, key.versions, j) ==> Latest(t[k]) >= Latest(t[j])
  }

  function Latest(row: Row): Time {
    if row.completedAt.Some? then row.completedAt.value else 0
  }

  ghost predicate NeverForced(actions: seq<Action>) {
    forall i :: 0 <= i < |actions| ==> actions[i].Enqueue? ==> !actions[i].force
  }

  /** An enqueue that nobody forces queues only keys that are new, or whose last attempt failed
    * and whose cooldown and retry time are over. A queued, claimed, suspended or completed job
    * stays as it is. */
  lemma UnforcedEnqueueQueuesExactly(t: Table, key: Key, now: Time, cooldownMs: int, clock: Time)
    requires Invariant(t, clock) && now >= 0
    ensures Precheck(t, key, now, cooldownMs, false).MayQueue?
       <==> (key in t ==>
              && t[key].status.Failed? && t[key].updatedAt + cooldownMs <= now
              && (t[key].nextRetryAt.Some? ==> t[key].nextRetryAt.value <= now))
  {
    assert key in t ==> RowInvariant(key, t[key], clock);
  }

  lemma {:induction false} OneReadyPerToken(actions: seq<Action>, j: Key, k: Key)
    requires Ordered(actions) && j in TableAfter(actions) && k in TableAfter(actions)
    requires j.token == k.token && TableAfter(actions)[j].status.Ready? && TableAfter(actions)[k].status.Ready?
    ensures j == k
  {
    var front, a := actions[..|actions| - 1], actions[|actions| - 1];
    var t := TableAfter(front);
    Reachable(front, a.now);
    if j != k && !(a.Complete? && TakesEffect(t, a) && a.key.token == k.token) {
      OneReadyPerToken(front, j, k);
    }
  }

  /** Without forced enqueues a completed analysis is kept: its row stays ready or becomes
    * stale, and its result stays as it was stored. */
  lemma {:induction false} ResultsAreKept(before: seq<Action>, actions: seq<Action>, key: Key)
    requires before <= actions && Ordered(actions) && NeverForced(actions)
    requires key in TableAfter(before) && TableAfter(before)[key].validation.Valid?
    ensures key in TableAfter(actions)
    ensures var row, row' := TableAfter(before)[key], TableAfter(actions)[key];
            && row'.validation.Valid? && row'.result == row.result && row'.completedAt == row.completedAt
            && (row'.status == row.status || (row.status.Ready? && row'.status.Stale?))
  {
    if before != actions {
      var front, a := actions[..|actions| - 1], actions[|actions| - 1];
      ResultsAreKept(before, front, key);
      Reachable(front, a.now);
      assert RowInvariant(key, TableAfter(front)[key], a.now);
    }
    assert actions[..|actions|] == actions && before[..|before|] == before;
  }

  /** Once an analysis has completed for a token under some versions, every later lookup for
    * that token under those versions finds a result, and one for the token itself. */
  lemma KnownGoodIsNeverLost(before: seq<Action>, actions: seq<Action>, done: Key, key: Key, found: Option<Brief>)
    requires before <= actions && Ordered(actions) && NeverForced(actions)
    requires done in TableAfter(before) && TableAfter(before)[done].validation.Valid?
    requires key.token == done.token && key.versions == done.versions
    requires KnownGood(TableAfter(actions), key, found)
    ensures found.Some? && found.value.key.token == key.token && found.value.key.versions == key.versions
  {
    var t := TableAfter(actions);
    ResultsAreKept(before, actions, done);
    Reachable(actions, actions[|actions| - 1].now);
    assert RowInvariant(done, t[done], actions[|actions| - 1].now);
    assert HoldsGood(t, key.token, key.versions, done);
    if !(key in t && t[key].result.Some?) {
      assert found.Some?;
    }
  }

  /** A step takes the last known good result of a token away exactly when it is an admitted
    * forced enqueue of the only row that holds one. */
  lemma OnlyForceLosesKnownGood(actions: seq<Action>, a: Action, token: nat, versions: Versions)
    requires Ordered(actions + [a])
    requires exists k :: HoldsGood(TableAfter(actions), token, versions, k)
    ensures (forall k :: !HoldsGood(Apply(TableAfter(actions), a), token, versions, k))
       <==> (a.Enqueue? && a.force && a.admitted
             && forall k :: HoldsGood(TableAfter(actions), token, versions, k) <==> k == a.key)
  {
    var t := TableAfter(actions);
    var t' := Apply(t, a);
    assert actions == (actions + [a])[..|actions|];
    assert (actions + [a])[|actions|] == a;
    Reachable(actions, a.now);
    var k :| HoldsGood(t, token, versions, k);
    assert forall j :: HoldsGood(t, token, versions, j) ==> RowInvariant(j, t[j], a.now);
    if a.Enqueue? && a.force && a.admitted {
      assert forall j :: j != a.key ==> (HoldsGood(t, token, versions, j) <==> HoldsGood(t', token, versions, j));
      assert !HoldsGood(t', token, versions, a.key);
    } else {
      assert HoldsGood(t', token, versions, k);
    }
  }

  /** Such a step in a run: a job is queued, claimed and completed, and a forced enqueue takes
    * its result out of the last known good ones. */
  lemma ForcedEnqueueLoses(key: Key, content: nat)
    ensures var brief := Brief(key, content);
      var done := [Enqueue(key, 0, 0, false, true), Claim(key, 1, 7, 100), Complete(key, 2, 7, brief)];
      && Ordered(done)
      && HoldsGood(TableAfter(done), key.token, key.versions, key)
      && forall k :: !HoldsGood(Apply(TableAfter(done), Enqueue(key, 3, 0, true, true)), key.token, key.versions, k)
  {
    var brief := Brief(key, content);
    var a, b, c := Enqueue(key, 0, 0, false, true), Claim(key, 1, 7, 100), Complete(key, 2, 7, brief);
    assert [a, b, c][..2] == [a, b] && [a, b][..1] == [a] && [a][..0] == [];
    var queued, claimed := TableAfter([a]), TableAfter([a, b]);
    assert TableAfter([]) == map[] && TakesEffect(map[], a);
    assert queued == map[key := NewRow(0)];
    assert claimed == map[key := Claimed(NewRow(0), b)];
    assert TableAfter([a, b, c]) == map[key := Completed(Claimed(NewRow(0), b), c)];
  }

  // ----- Bounded bypass -----

  /** The other waiting jobs that claiming prefers to a job, or may. */
  function Ahead(t: Table, key: Key): set<Key>
    requires key in t
  {
    set k | k in t && k != key && Waiting(t[k]) && NoLater(t[k], t[key])
  }

  /** Deferrals and retries point to the future, as the worker's limits make them. */
  predicate Punctual(a: Action) {
    (a.Defer? ==> a.retryAt > a.now) && (a.Fail? ==> a.baseMs >= 1)
  }

  lemma RetryDelayIsPositive(attempt: nat, baseMs: nat, jitterRatio: real, unit: real)
    requires baseMs >= 1
    ensures RetryDelay(attempt, baseMs, jitterRatio, unit) >= 1
  {
    var p := Pow2(if attempt == 0 then 0 else attempt - 1);
    assert baseMs * p >= p >= 1 by { ProductGrows(baseMs, p); }
  }

  lemma ProductGrows(a: nat, b: nat)
    requires a >= 1
    ensures a * b >= b
  {
  }

  /** From the moment a waiting job is eligible, no other job comes to stand ahead of it. */
  lemma NobodyCutsIn(t: Table, a: Action, key: Key, since: Time)
    requires Invariant(t, a.now) && key in t && Eligible(t[key], since) && Due(t[key]) <= since <= a.now
    requires Punctual(a) && (a.Enqueue? ==> since < a.now)
    requires key in Apply(t, a) && Apply(t, a)[key] == t[key]
    ensures Ahead(Apply(t, a), key) <= Ahead(t, key)
  {
    var t' := Apply(t, a);
    forall k | k in Ahead(t', key) ensures k in Ahead(t, key) {
      if k == a.key && TakesEffect(t, a) {
        if a.Fail? { RetryDelayIsPositive(t[k].attempts, a.baseMs, a.jitterRatio, a.unit); }
      }
    }
  }

  lemma SubsetSize<T>(a: set<T>, b: set<T>)
    requires a <= b
    ensures |a| <= |b|
  {
    if a != b {
      assert b == a + (b - a);
    }
  }

  /** The claims at or after position n, on any key; those that take over an expired lease. */
  function ClaimsFrom(actions: seq<Action>, n: nat, expired: bool): nat
    requires n <= |actions|
  {
    if |actions| == n then 0
    else
      var front, a := actions[..|actions| - 1], actions[|actions| - 1];
      ClaimsFrom(front, n, expired)
      + if a.Claim? && TakesEffect(TableAfter(front), a) && (expired ==> Expired(TableAfter(front)[a.key], a.now)) then 1 else 0
  }

  /** The row of a key at every point from position n on is the one it has there. */
  ghost predicate UntouchedFrom(actions: seq<Action>, n: nat, key: Key)
    requires n <= |actions|
  {
    && key in TableAfter(actions[..n])
    && forall i :: n <= i <= |actions| ==>
         key in TableAfter(actions[..i]) && TableAfter(actions[..i])[key] == TableAfter(actions[..n])[key]
  }

  lemma UntouchedFront(actions: seq<Action>, n: nat, key: Key)
    requires n < |actions| && UntouchedFrom(actions, n, key)
    ensures var front := actions[..|actions| - 1];
      && UntouchedFrom(front, n, key) && front[..n] == actions[..n]
      && key in TableAfter(front) && TableAfter(front)[key] == TableAfter(actions[..n])[key]
      && key in TableAfter(actions) && TableAfter(actions)[key] == TableAfter(actions[..n])[key]
  {
    var front := actions[..|actions| - 1];
    assert actions[..|actions|] == actions && actions[..|front|] == front;
    forall i | 0 <= i <= |front| ensures front[..i] == actions[..i] {}
  }

  /** An eligible job that nothing touches is passed over at most once by each job that stood
    * ahead of it, and once by each expired lease that is taken over: the other claims since
    * then are at most |ahead| plus the reclaims. It is still eligible, so a claim is never
    * refused meanwhile. */
  lemma {:induction false} BypassIsBounded(actions: seq<Action>, n: nat, key: Key, since: Time)
    requires n <= |actions| && Ordered(actions) && UntouchedFrom(actions, n, key)
    requires forall i :: 0 <= i < n ==> actions[i].now <= since
    requires forall i :: n <= i < |actions| ==>
      since <= actions[i].now && Punctual(actions[i]) && (actions[i].Enqueue? ==> since < actions[i].now)
    requires Eligible(TableAfter(actions[..n])[key], since)
    ensures key in TableAfter(actions) && Eligible(TableAfter(actions)[key], since)
    ensures Ahead(TableAfter(actions), key) <= Ahead(TableAfter(actions[..n]), key)
    ensures ClaimsFrom(actions, n, false) + |Ahead(TableAfter(actions), key)|
         <= |Ahead(TableAfter(actions[..n]), key)| + ClaimsFrom(actions, n, true)
  {
    assert actions[..|actions|] == actions;
    if |actions| > n {
      var front, a := actions[..|actions| - 1], actions[|actions| - 1];
      UntouchedFront(actions, n, key);
      BypassIsBounded(front, n, key, since);
      Reachable(front, a.now);
      Reachable(actions[..n], since);
      assert RowInvariant(key, TableAfter(front)[key], since);
      OneBypass(TableAfter(front), a, key, since);
    }
  }

  /** A step shortens the queue ahead of a job, or is no claim, or takes over an expired lease. */
  lemma OneBypass(t: Table, a: Action, key: Key, since: Time)
    requires Invariant(t, a.now) && key in t && Eligible(t[key], since) && Due(t[key]) <= since <= a.now
    requires Punctual(a) && (a.Enqueue? ==> since < a.now)
    requires key in Apply(t, a) && Apply(t, a)[key] == t[key]
    ensures Ahead(Apply(t, a), key) <= Ahead(t, key) && |Ahead(Apply(t, a), key)| <= |Ahead(t, key)|
    ensures a.Claim? && TakesEffect(t, a) && !Expired(t[a.key], a.now) ==> |Ahead(Apply(t, a), key)| < |Ahead(t, key)|
  {
    var t' := Apply(t, a);
    NobodyCutsIn(t, a, key, since);
    SubsetSize(Ahead(t', key), Ahead(t, key));
    if a.Claim? && TakesEffect(t, a) && !Expired(t[a.key], a.now) {
      assert a.key in Ahead(t, key) && a.key !in Ahead(t', key);
      SubsetSize(Ahead(t', key), Ahead(t, key) - {a.key});
    }
  }
}
