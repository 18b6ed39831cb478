/** The budget of analyses per hour and per day: what counts against it, and which of the
  * claimed jobs hold a slot in it.
  */
module AnalysisBudget {
  import opened Common
  import opened JobTable
  import opened JobHistory

  /** Analyses count from their completion, claimed jobs from their start. */
  predicate Counts(row: Row, since: Time) {
    || ((row.status.Ready? || row.status.Stale?) && row.completedAt.Some? && row.completedAt.value >= since)
    || (row.status.Processing? && row.startedAt.Some? && row.startedAt.value >= since)
  }

  function Used(t: Table, since: Time): set<Key> {
    set k | k in t && Counts(t[k], since)
  }

  function When(row: Row): Time {
    var at := if row.status.Processing? then row.startedAt else row.completedAt;
    if at.Some? then at.value else 0
  }

  /** The order in which the slots are given: by time, then by analysis id. */
  predicate Before(t: Table, ids: map<Key, nat>, a: Key, b: Key) {
    && a in t && b in t && a in ids && b in ids
    && (When(t[a]) < When(t[b]) || (When(t[a]) == When(t[b]) && ids[a] < ids[b]))
  }

  predicate DistinctIds(t: Table, ids: map<Key, nat>) {
    t.Keys <= ids.Keys && forall a, b :: a in t && b in t && ids[a] == ids[b] ==> a == b
  }

  function Earlier(t: Table, ids: map<Key, nat>, among: set<Key>, key: Key): set<Key> {
    set k | k in among && Before(t, ids, k, key)
  }

  /** The key is one of the first `maximum` that count. */
  predicate HasSlot(t: Table, ids: map<Key, nat>, since: Time, maximum: int, key: Key) {
    key in Used(t, since) && |Earlier(t, ids, Used(t, since), key)| < maximum
  }

  function Holders(t: Table, ids: map<Key, nat>, among: set<Key>, maximum: int): set<Key> {
    set k | k in among && |Earlier(t, ids, among, k)| < maximum
  }

  lemma SubsetSize(a: set<Key>, b: set<Key>)
    requires a <= b
    ensures |a| <= |b|
  {
    assert b == a + (b - a);
  }

  /** Some key comes after all others. */
  lemma {:induction false} LastOf(t: Table, ids: map<Key, nat>, among: set<Key>) returns (last: Key)
    requires among != {} && among <= t.Keys && DistinctIds(t, ids)
    ensures last in among && forall k :: k in among && k != last ==> Before(t, ids, k, last)
  {
    var one :| one in among;
    last := one;
    if among - {one} != {} {
      var other := LastOf(t, ids, among - {one});
      if !Before(t, ids, other, one) { last := other; }
      forall k | k in among && k != last ensures Before(t, ids, k, last) {
        if k != one && k != other { assert Before(t, ids, k, other); }
      }
    } else {
      assert forall k :: k in among ==> k == one || k in among - {one};
    }
  }

  lemma {:induction false} HoldersAreFew(t: Table, ids: map<Key, nat>, among: set<Key>, maximum: nat)
    requires among <= t.Keys && DistinctIds(t, ids)
    ensures |Holders(t, ids, among, maximum)| <= maximum
    decreases |among|
  {
    SubsetSize(Holders(t, ids, among, maximum), among);
    if |among| > maximum {
      var last := LastOf(t, ids, among);
      var rest := among - {last};
      assert Earlier(t, ids, among, last) == rest;
      forall k | k in rest ensures Earlier(t, ids, among, k) == Earlier(t, ids, rest, k) {}
      assert Holders(t, ids, among, maximum) == Holders(t, ids, rest, maximum);
      HoldersAreFew(t, ids, rest, maximum);
    }
  }

  /** In any table no more than the maximum of keys hold a slot at once. */
  lemma SlotsAreBounded(t: Table, ids: map<Key, nat>, since: Time, maximum: nat)
    requires DistinctIds(t, ids)
    ensures |set k | k in t && HasSlot(t, ids, since, maximum, k)| <= maximum
  {
    HoldersAreFew(t, ids, Used(t, since), maximum);
    assert (set k | k in t && HasSlot(t, ids, since, maximum, k)) == Holders(t, ids, Used(t, since), maximum);
  }

  /** A job that has just been claimed, under a clock that has moved on, holds a slot exactly
    * when all that counts, itself included, is within the maximum. */
  lemma FreshClaimHasSlotExactly(t: Table, a: Action, ids: map<Key, nat>, clock: Time, since: Time, maximum: int)
    requires Invariant(t, clock) && clock < a.now && a.Claim? && TakesEffect(t, a) && since <= a.now
    requires DistinctIds(Apply(t, a), ids)
    ensures var t' := Apply(t, a);
      HasSlot(t', ids, since, maximum, a.key) <==> |Used(t', since)| <= maximum
  {
    var t' := Apply(t, a);
    var used := Used(t', since);
    assert t' == t[a.key := Claimed(t[a.key], a)];
    forall k | k in used && k != a.key ensures Before(t', ids, k, a.key) {
      assert RowInvariant(k, t[k], clock);
    }
    assert Earlier(t', ids, used, a.key) == used - {a.key};
  }

  // ----- What counts, and who holds a slot, told from the actions -----

  /** The last effective claim of a job in work, the last completion of one with an analysis. */
  function CountsFrom(actions: seq<Action>, key: Key): (from: Option<Time>) {
    if key !in TableAfter(actions) then None
    else
      match TableAfter(actions)[key].status
      case Processing => Marked(actions, key, StartedMark)
      case Ready => Marked(actions, key, CompletedMark)
      case Stale => Marked(actions, key, CompletedMark)
      case _ => None
  }

  predicate CountsSince(actions: seq<Action>, key: Key, since: Time) {
    CountsFrom(actions, key).Some? && CountsFrom(actions, key).value >= since
  }

  /** The usage is the jobs claimed or completed since the start of the window. */
  lemma UsageTellsHistory(actions: seq<Action>, since: Time, key: Key)
    ensures key in Used(TableAfter(actions), since) <==> CountsSince(actions, key, since)
  {
    TimesTellHistory(actions, key);
  }

  predicate FirstServed(actions: seq<Action>, ids: map<Key, nat>, a: Key, b: Key)
    requires a in ids && b in ids && CountsFrom(actions, a).Some? && CountsFrom(actions, b).Some?
  {
    var from, other := CountsFrom(actions, a).value, CountsFrom(actions, b).value;
    from < other || (from == other && ids[a] < ids[b])
  }

  /** The slots go to those that have counted for longest; of two that count from the same
    * moment, to the smaller analysis id. */
  lemma SlotsGoInOrder(actions: seq<Action>, ids: map<Key, nat>, since: Time, maximum: int, key: Key)
    requires DistinctIds(TableAfter(actions), ids)
    ensures var ahead := set k | k in TableAfter(actions) && CountsSince(actions, k, since)
                             && CountsFrom(actions, key).Some? && key in ids && FirstServed(actions, ids, k, key);
      HasSlot(TableAfter(actions), ids, since, maximum, key) <==> CountsSince(actions, key, since) && |ahead| < maximum
  {
    var t := TableAfter(actions);
    forall k ensures k in Used(t, since) <==> CountsSince(actions, k, since) {
      UsageTellsHistory(actions, since, k);
    }
    if CountsSince(actions, key, since) {
      forall k | k in t && CountsSince(actions, k, since)
        ensures k in Earlier(t, ids, Used(t, since), key) <==> FirstServed(actions, ids, k, key)
      {
        TimesTellHistory(actions, k);
        TimesTellHistory(actions, key);
      }
      assert Earlier(t, ids, Used(t, since), key)
        == set k | k in t && CountsSince(actions, k, since) && CountsFrom(actions, key).Some? && key in ids && FirstServed(actions, ids, k, key);
    }
  }

  // ----- What makes the usage grow, and past the maximum -----

  /** A claim or a completion, inside the window, of a job that does not count yet. */
  predicate Adds(t: Table, a: Action, since: Time) {
    TakesEffect(t, a) && (a.Claim? || a.Complete?) && since <= a.now && a.key !in Used(t, since)
  }

  lemma OtherKeysCountAlike(t: Table, a: Action, since: Time, k: Key)
    requires k != a.key
    ensures k in Used(Apply(t, a), since) <==> k in Used(t, since)
  {
  }

  lemma OwnKeyCounts(t: Table, a: Action, clock: Time, since: Time)
    requires Invariant(t, clock) && clock <= a.now
    ensures Adds(t, a, since) <==> a.key in Used(Apply(t, a), since) && a.key !in Used(t, since)
  {
    assert a.key in t ==> RowInvariant(a.key, t[a.key], clock);
  }

  /** The usage grows exactly by the claims and completions of jobs that do not count yet, and
    * each time by one. */
  lemma UsageGrowsExactly(t: Table, a: Action, clock: Time, since: Time)
    requires Invariant(t, clock) && clock <= a.now
    ensures |Used(Apply(t, a), since)| > |Used(t, since)| <==> Adds(t, a, since)
    ensures |Used(Apply(t, a), since)| <= |Used(t, since)| + 1
  {
    var used, used' := Used(t, since), Used(Apply(t, a), since);
    OwnKeyCounts(t, a, clock, since);
    forall k | k != a.key ensures k in used' <==> k in used {
      OtherKeysCountAlike(t, a, since, k);
    }
    if Adds(t, a, since) {
      assert used' == used + {a.key};
    } else {
      assert used' <= used;
      SubsetSize(used', used);
    }
  }

  /** One step takes the usage past the maximum exactly when it adds to a full budget. */
  lemma StepExceedsExactly(t: Table, a: Action, clock: Time, since: Time, maximum: nat)
    requires Invariant(t, clock) && clock <= a.now && |Used(t, since)| <= maximum
    ensures |Used(Apply(t, a), since)| > maximum <==> |Used(t, since)| == maximum && Adds(t, a, since)
  {
    UsageGrowsExactly(t, a, clock, since);
  }

  lemma LaterWindowHoldsLess(t: Table, since: Time, later: Time)
    requires since <= later
    ensures |Used(t, later)| <= |Used(t, since)|
  {
    SubsetSize(Used(t, later), Used(t, since));
  }

  /** A run with the start of the window at each of its steps; windows do not go back. */
  predicate Windowed(actions: seq<Action>, windows: seq<Time>) {
    && Ordered(actions) && |windows| == |actions|
    && forall i, j :: 0 <= i < j < |windows| ==> windows[i] <= windows[j]
  }

  predicate Within(actions: seq<Action>, windows: seq<Time>, maximum: nat, i: nat)
    requires i < |actions| == |windows|
  {
    |Used(TableAfter(actions[..i + 1]), windows[i])| <= maximum
  }

  /** The i-th step adds to a budget that is full. */
  predicate Overdraws(actions: seq<Action>, windows: seq<Time>, maximum: nat, i: nat)
    requires i < |actions| == |windows|
  {
    |Used(TableAfter(actions[..i]), windows[i])| == maximum && Adds(TableAfter(actions[..i]), actions[i], windows[i])
  }

  lemma TableAfterStep(actions: seq<Action>, i: nat)
    requires i < |actions|
    ensures TableAfter(actions[..i + 1]) == Apply(TableAfter(actions[..i]), actions[i])
  {
    assert actions[..i + 1][..i] == actions[..i];
  }

  /** After a step that starts within the maximum, the usage is within it exactly when the step
    * does not overdraw. */
  lemma StepIsWithinExactly(actions: seq<Action>, windows: seq<Time>, maximum: nat, i: nat)
    requires Windowed(actions, windows) && i < |actions|
    requires |Used(TableAfter(actions[..i]), windows[i])| <= maximum
    ensures Within(actions, windows, maximum, i) <==> !Overdraws(actions, windows, maximum, i)
  {
    TableAfterStep(actions, i);
    Reachable(actions[..i], actions[i].now);
    StepExceedsExactly(TableAfter(actions[..i]), actions[i], actions[i].now, windows[i], maximum);
  }

  lemma {:induction false} WithinWhileNotOverdrawn(actions: seq<Action>, windows: seq<Time>, maximum: nat, i: nat)
    requires Windowed(actions, windows) && i < |actions|
    requires forall k :: 0 <= k <= i ==> !Overdraws(actions, windows, maximum, k)
    ensures Within(actions, windows, maximum, i)
  {
    if i == 0 {
      assert actions[..0] == [] && Used(map[], windows[0]) == {};
    } else {
      WithinWhileNotOverdrawn(actions, windows, maximum, i - 1);
      LaterWindowHoldsLess(TableAfter(actions[..i]), windows[i - 1], windows[i]);
    }
    StepIsWithinExactly(actions, windows, maximum, i);
  }

  /** Over a whole run, with a sliding window or a fixed one, the usage stays within the maximum
    * exactly when no step claims or completes, inside its window, a job that does not count yet
    * while the budget is full. */
  lemma UsageStaysWithinExactly(actions: seq<Action>, windows: seq<Time>, maximum: nat)
    requires Windowed(actions, windows)
    ensures (forall i :: 0 <= i < |actions| ==> Within(actions, windows, maximum, i))
       <==> (forall i :: 0 <= i < |actions| ==> !Overdraws(actions, windows, maximum, i))
  {
    if forall i :: 0 <= i < |actions| ==> Within(actions, windows, maximum, i) {
      forall i | 0 <= i < |actions| ensures !Overdraws(actions, windows, maximum, i) {
        if Overdraws(actions, windows, maximum, i) {
          StepIsWithinExactly(actions, windows, maximum, i);
        }
      }
    }
    if forall i :: 0 <= i < |actions| ==> !Overdraws(actions, windows, maximum, i) {
      forall i | 0 <= i < |actions| ensures Within(actions, windows, maximum, i) {
        WithinWhileNotOverdrawn(actions, windows, maximum, i);
      }
    }
  }

  /** What the check of a slot right after a claim guards against: under a clock that has moved
    * on it fails exactly for the claims that overdraw or find the budget overdrawn. */
  lemma ClaimWithoutSlotOverdraws(t: Table, a: Action, ids: map<Key, nat>, clock: Time, since: Time, maximum: nat)
    requires Invariant(t, clock) && clock < a.now && a.Claim? && TakesEffect(t, a) && since <= a.now
    requires DistinctIds(Apply(t, a), ids)
    ensures !HasSlot(Apply(t, a), ids, since, maximum, a.key)
       <==> |Used(t, since)| > maximum || (|Used(t, since)| == maximum && Adds(t, a, since))
  {
    FreshClaimHasSlotExactly(t, a, ids, clock, since, maximum);
    OwnKeyCounts(t, a, clock, since);
    UsageGrowsExactly(t, a, clock, since);
    ClaimedKeyCounts(t, a, clock, since);
  }

  /** A claim takes nothing out of the usage. */
  lemma ClaimedKeyCounts(t: Table, a: Action, clock: Time, since: Time)
    requires Invariant(t, clock) && clock <= a.now && a.Claim? && TakesEffect(t, a) && since <= a.now
    ensures |Used(Apply(t, a), since)| >= |Used(t, since)|
  {
    forall k | k in Used(t, since) ensures k in Used(Apply(t, a), since) {
      if k != a.key { OtherKeysCountAlike(t, a, since, k); }
    }
    SubsetSize(Used(t, since), Used(Apply(t, a), since));
  }

  /** A check that comes later, after other transactions, sees only what is before the job: the
    * job holds a slot exactly when the usage is within the maximum and as many more as come
    * after it, so the check and the budget agree exactly when the usage is within the maximum
    * or beyond that. */
  lemma SlotCountsOnlyEarlier(t: Table, ids: map<Key, nat>, since: Time, maximum: int, key: Key)
    requires DistinctIds(t, ids) && key in Used(t, since)
    ensures var used := Used(t, since);
      var after := used - Earlier(t, ids, used, key) - {key};
      && (HasSlot(t, ids, since, maximum, key) <==> |used| <= maximum + |after|)
      && (forall k :: k in after ==> Before(t, ids, key, k))
  {
    var used := Used(t, since);
    var before := Earlier(t, ids, used, key);
    var after := used - before - {key};
    assert used == before + {key} + after;
  }

  // ----- Two runs that overdraw -----

  lemma OneMore(actions: seq<Action>, a: Action)
    ensures TableAfter(actions + [a]) == Apply(TableAfter(actions), a)
  {
    assert (actions + [a])[..|actions|] == actions;
  }

  /** Two jobs are queued, and the first is claimed, shortly before a moment. */
  function FirstClaimed(a: Key, b: Key, moment: Time): seq<Action> {
    [Enqueue(a, moment - 1003, 0, false, true)] + [Claim(a, moment - 1002, 1, 60_000)] + [Enqueue(b, moment - 1001, 0, false, true)]
  }

  function FirstRow(a: Key, moment: Time): Row {
    Claimed(NewRow(moment - 1003), Claim(a, moment - 1002, 1, 60_000))
  }

  lemma TableOfFirstClaimed(a: Key, b: Key, moment: Time)
    requires a != b
    ensures TableAfter([Enqueue(a, moment - 1003, 0, false, true)] + [Claim(a, moment - 1002, 1, 60_000)]) == map[a := FirstRow(a, moment)]
    ensures TableAfter(FirstClaimed(a, b, moment)) == map[a := FirstRow(a, moment), b := NewRow(moment - 1001)]
  {
    var queue, claim := Enqueue(a, moment - 1003, 0, false, true), Claim(a, moment - 1002, 1, 60_000);
    assert [] + [queue] == [queue];
    OneMore([], queue);
    OneMore([queue], claim);
    assert TableAfter([queue]) == map[a := NewRow(moment - 1003)];
    OneMore([queue] + [claim], Enqueue(b, moment - 1001, 0, false, true));
  }

  /** The run of a late completion: the second job is claimed at the start of a day, and the
    * first one, from the day before, completes after it. */
  function LateCompletion(a: Key, b: Key, dayStart: Time): seq<Action> {
    FirstClaimed(a, b, dayStart) + [Claim(b, dayStart, 2, 60_000)] + [Complete(a, dayStart + 1, 1, Brief(a, 0))]
  }

  lemma SecondClaimed(a: Key, b: Key, moment: Time)
    requires a != b
    ensures TableAfter(FirstClaimed(a, b, moment) + [Claim(b, moment, 2, 60_000)])
      == map[a := FirstRow(a, moment), b := Claimed(NewRow(moment - 1001), Claim(b, moment, 2, 60_000))]
  {
    TableOfFirstClaimed(a, b, moment);
    OneMore(FirstClaimed(a, b, moment), Claim(b, moment, 2, 60_000));
  }

  lemma FirstCompleted(a: Key, b: Key, moment: Time)
    requires a != b
    ensures TableAfter(LateCompletion(a, b, moment))
      == map[a := Completed(FirstRow(a, moment), Complete(a, moment + 1, 1, Brief(a, 0))),
             b := Claimed(NewRow(moment - 1001), Claim(b, moment, 2, 60_000))]
  {
    SecondClaimed(a, b, moment);
    OneMore(FirstClaimed(a, b, moment) + [Claim(b, moment, 2, 60_000)], Complete(a, moment + 1, 1, Brief(a, 0)));
  }

  /** With a maximum of one a day, each claim holds its slot in the window of its own check, and
    * still two analyses count: nothing of the day is used before the second claim, which fills
    * the budget, and the completion overdraws it. */
  lemma LateCompletionExceeds(a: Key, b: Key, ids: map<Key, nat>, dayStart: Time)
    requires a != b && ids.Keys == {a, b} && ids[a] != ids[b]
    ensures Ordered(LateCompletion(a, b, dayStart))
    ensures HasSlot(TableAfter([Enqueue(a, dayStart - 1003, 0, false, true)] + [Claim(a, dayStart - 1002, 1, 60_000)]), ids, dayStart - DAY, 1, a)
    ensures Used(TableAfter(FirstClaimed(a, b, dayStart)), dayStart) == {}
    ensures var claimed := TableAfter(FirstClaimed(a, b, dayStart) + [Claim(b, dayStart, 2, 60_000)]);
      HasSlot(claimed, ids, dayStart, 1, b) && Used(claimed, dayStart) == {b}
    ensures Used(TableAfter(LateCompletion(a, b, dayStart)), dayStart) == {a, b}
  {
    TableOfFirstClaimed(a, b, dayStart);
    SecondClaimed(a, b, dayStart);
    FirstCompleted(a, b, dayStart);
    var first := map[a := FirstRow(a, dayStart)];
    assert Used(first, dayStart - DAY) == {a} && Earlier(first, ids, {a}, a) == {};
    var claimed := TableAfter(FirstClaimed(a, b, dayStart) + [Claim(b, dayStart, 2, 60_000)]);
    assert Used(claimed, dayStart) == {b} && Earlier(claimed, ids, {b}, b) == {};
  }

  /** The same run without a change of day, where the completion falls between the second claim
    * and its check: the claim has no slot when it is made, and has one when it is checked, for
    * the completed job has moved behind it. */
  lemma CompletionBetweenClaimAndCheck(a: Key, b: Key, ids: map<Key, nat>, now: Time, since: Time)
    requires a != b && ids.Keys == {a, b} && ids[a] != ids[b] && since <= now - 1002
    ensures var claimed := TableAfter(FirstClaimed(a, b, now) + [Claim(b, now, 2, 60_000)]);
      !HasSlot(claimed, ids, since, 1, b) && Used(claimed, since) == {a, b}
    ensures var checked := TableAfter(LateCompletion(a, b, now));
      HasSlot(checked, ids, since, 1, b) && Used(checked, since) == {a, b}
  {
    SecondClaimed(a, b, now);
    FirstCompleted(a, b, now);
    var claimed := TableAfter(FirstClaimed(a, b, now) + [Claim(b, now, 2, 60_000)]);
    assert Used(claimed, since) == {a, b} && Earlier(claimed, ids, {a, b}, b) == {a};
    var checked := TableAfter(LateCompletion(a, b, now));
    assert Used(checked, since) == {a, b} && Earlier(checked, ids, {a, b}, b) == {};
  }
}
