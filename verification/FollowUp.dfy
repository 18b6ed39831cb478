/** The follow-up basket: entries that are rechecked 1, 3, 7, 14 and 30 days after they were
  * first seen, and the operations that move them through their lifecycle.
  *
  * An identity is a normalised chain and address; it stands for the entry id, which is a
  * digest of it. The stored list is sorted by identity, so the model keeps a map.
  */
module FollowUp {
  import opened Common

  datatype Lifecycle = New | Maturing | Candidate | Established | Archived

  datatype SecurityLevel = ManualVerificationRequired | Checked | PartiallyChecked | Unavailable | CriticalRisk

  /** A security status with the number of items of data it lacks. */
  datatype Security = Security(level: SecurityLevel, missing: nat)

  datatype Verdict = Verified | NeedsMoreData | Critical | Reject

  datatype Verification = Verification(verdict: Verdict, missing: nat)

  /** What a scan says about a token; `market` stands for its pair and market figures. */
  datatype Observation = Observation(
    name: Option<string>, symbol: Option<string>, market: nat, passed: bool, newEmerging: bool, observationOnly: bool)

  datatype Entry = Entry(
    name: Option<string>, symbol: Option<string>, market: nat,
    firstSeen: Time, lastSeen: Time, lastChecked: Option<Time>, nextCheck: Option<Time>,
    completed: seq<int>, status: Lifecycle, candidateSince: Option<Time>, archivedAt: Option<Time>,
    passed: bool, security: Security, run: nat)

  /** The entries and, for each identity, the manual verification that the audit log still has. */
  datatype Store = Store(entries: map<Identity, Entry>, manual: map<Identity, Verification>)

  const CHECKPOINTS: seq<int> := [1, 3, 7, 14, 30]

  // ----- Checkpoints -----

  function CheckpointAt(firstSeen: Time, day: int): Time {
    firstSeen + day * DAY
  }

  function ElapsedAmong(days: seq<int>, elapsed: int): seq<int> {
    if days == [] then []
    else if elapsed >= days[0] * DAY then [days[0]] + ElapsedAmong(days[1..], elapsed)
    else ElapsedAmong(days[1..], elapsed)
  }

  function ElapsedDays(firstSeen: Time, at: Time): seq<int> {
    if at - firstSeen < 0 then [] else ElapsedAmong(CHECKPOINTS, at - firstSeen)
  }

  /** The first of the days that is neither completed nor, if `after` is given, past. */
  function FirstOpen(days: seq<int>, firstSeen: Time, completed: seq<int>, after: Option<Time>): Option<Time> {
    if days == [] then None
    else if days[0] !in completed && (after.None? || CheckpointAt(firstSeen, days[0]) > after.value)
    then Some(CheckpointAt(firstSeen, days[0]))
    else FirstOpen(days[1..], firstSeen, completed, after)
  }

  function NextFuture(firstSeen: Time, at: Time, completed: seq<int>): Option<Time> {
    FirstOpen(CHECKPOINTS, firstSeen, completed, Some(at))
  }

  function FirstUncompleted(firstSeen: Time, completed: seq<int>): Option<Time> {
    FirstOpen(CHECKPOINTS, firstSeen, completed, None)
  }

  function InsertDay(day: int, days: seq<int>): (r: seq<int>)
    ensures forall d :: d in r <==> d == day || d in days
  {
    if days == [] || day < days[0] then [day] + days
    else if day == days[0] then days
    else
      assert days == [days[0]] + days[1..];
      [days[0]] + InsertDay(day, days[1..])
  }

  /** The distinct days in increasing order. */
  function SortedDays(days: seq<int>): (r: seq<int>)
    ensures forall d :: d in r <==> d in days
  {
    if days == [] then []
    else
      assert days == [days[0]] + days[1..];
      InsertDay(days[0], SortedDays(days[1..]))
  }

  // ----- Operations on one entry -----

  function Or<T>(a: Option<T>, b: Option<T>): Option<T> {
    if a.Some? then a else b
  }

  function StatusAfterObservation(e: Entry, o: Observation, at: Time, established: bool): Lifecycle {
    if established then Established
    else if at - e.firstSeen < DAY then New
    else if o.passed then Candidate
    else if 30 in e.completed then Archived
    else Maturing
  }

  function Observed(e: Entry, o: Observation, at: Time, run: nat, established: bool): Entry {
    var status := StatusAfterObservation(e, o, at, established);
    e.(name := Or(o.name, e.name), symbol := Or(o.symbol, e.symbol), market := o.market, lastSeen := at,
       nextCheck := if status.New? || status.Maturing? then FirstUncompleted(e.firstSeen, e.completed) else None,
       status := status,
       candidateSince := if status.Candidate? then Or(e.candidateSince, Some(at)) else None,
       archivedAt := if status.Archived? then Or(e.archivedAt, Some(at)) else None,
       passed := o.passed, run := run)
  }

  function ManualSecurity(manual: Option<Verification>): Security {
    match manual
    case None => Security(ManualVerificationRequired, 1)
    case Some(Verification(Verified, _)) => Security(Checked, 0)
    case Some(Verification(NeedsMoreData, missing)) => Security(PartiallyChecked, missing)
    case Some(Verification(_, missing)) => Security(CriticalRisk, missing)
  }

  function FirstObserved(o: Observation, at: Time, run: nat, established: bool, manual: Option<Verification>): Entry {
    Entry(o.name, o.symbol, o.market, at, at, None, if established then None else Some(CheckpointAt(at, 1)),
          [], if established then Established else New, None, None, o.passed, ManualSecurity(manual), run)
  }

  datatype Recheck = Recheck(o: Observation, at: Time, run: nat, security: Option<Security>)

  function Rechecked(e: Entry, r: Recheck, established: bool): Entry {
    var completed := SortedDays(e.completed + ElapsedDays(e.firstSeen, r.at));
    var status :=
      if established then Established
      else if r.o.passed then Candidate
      else if 30 in completed then Archived
      else Maturing;
    e.(name := Or(r.o.name, e.name), symbol := Or(r.o.symbol, e.symbol), market := r.o.market,
       lastChecked := Some(r.at),
       nextCheck := if status.Maturing? then NextFuture(e.firstSeen, r.at, completed) else None,
       completed := completed, status := status,
       candidateSince := if status.Candidate? then Or(e.candidateSince, Some(r.at)) else e.candidateSince,
       archivedAt := if status.Archived? then Or(e.archivedAt, Some(r.at)) else None,
       passed := r.o.passed, security := if r.security.Some? then r.security.value else ManualSecurity(None), run := r.run)
  }

  function StatusOutsideUniverse(e: Entry, at: Time): Lifecycle {
    if e.passed && e.candidateSince.Some? then Candidate
    else if 30 in e.completed then Archived
    else if at - e.firstSeen < DAY then New
    else Maturing
  }

  /** Membership synchronisation rewrites only entries whose status changes. */
  function Synced(e: Entry, established: bool, at: Time): Entry {
    var status := if established then Established else StatusOutsideUniverse(e, at);
    if status == e.status then e
    else
      e.(status := status,
         nextCheck := if status.Maturing? || status.New? then NextFuture(e.firstSeen, at, e.completed) else None,
         archivedAt := if status.Archived? then Or(e.archivedAt, Some(at)) else None)
  }

  predicate IsDue(e: Entry, now: Time) {
    (e.status.New? || e.status.Maturing?) && e.nextCheck.Some? && e.nextCheck.value <= now
  }

  // ----- Operations on the store -----

  predicate Tracked(o: Observation) {
    o.newEmerging || o.observationOnly
  }

  /** The entry of an identity after a scan in which `o` was chosen for it. */
  function Ingested(s: Store, id: Identity, o: Observation, at: Time, run: nat, enabled: set<Identity>): Entry {
    if id !in s.entries
    then FirstObserved(o, at, run, id in enabled, if id in s.manual then Some(s.manual[id]) else None)
    else if at <= s.entries[id].lastSeen then s.entries[id]
    else Observed(s.entries[id], o, at, run, id in enabled)
  }

  /** A scan: one observation for each identity it saw. */
  function Ingest(s: Store, scan: map<Identity, Observation>, at: Time, run: nat, enabled: set<Identity>): Store {
    var seen := set id | id in scan && Tracked(scan[id]);
    s.(entries := map id | id in s.entries.Keys + seen ::
         if id in seen then Ingested(s, id, scan[id], at, run, enabled) else s.entries[id])
  }

  function RecheckEntry(s: Store, id: Identity, r: Recheck, enabled: set<Identity>): Store {
    if id in s.entries then s.(entries := s.entries[id := Rechecked(s.entries[id], r, id in enabled)]) else s
  }

  function Sync(s: Store, enabled: set<Identity>, at: Time): Store {
    s.(entries := map id | id in s.entries :: Synced(s.entries[id], id in enabled, at))
  }

  function Verify(s: Store, id: Identity, v: Verification): Store {
    s.(entries := if id in s.entries then s.entries[id := s.entries[id].(security := ManualSecurity(Some(v)))] else s.entries,
       manual := s.manual[id := v])
  }

  // ----- The schedule of one entry -----

  /** The completed checkpoints are an initial part of the schedule; only new and maturing
    * entries are scheduled, and only at a checkpoint that is still open. A candidate passed
    * its last filter, an archived entry has seen the whole schedule, and both carry the dates
    * the stored form demands. */
  predicate EntryOk(e: Entry) {
    && e.completed <= CHECKPOINTS
    && (e.nextCheck.Some? ==>
          && (e.status.New? || e.status.Maturing?)
          && exists k :: |e.completed| <= k < |CHECKPOINTS| && e.nextCheck.value == CheckpointAt(e.firstSeen, CHECKPOINTS[k]))
    && e.firstSeen <= e.lastSeen
    && (e.status.Candidate? ==> e.candidateSince.Some? && e.passed)
    && (e.status.Archived? ==> e.archivedAt.Some? && e.completed == CHECKPOINTS)
  }

  predicate Increasing(days: seq<int>) {
    forall i, j :: 0 <= i < j < |days| ==> days[i] < days[j]
  }

  lemma {:induction false} InsertDayIncreases(day: int, days: seq<int>)
    requires Increasing(days)
    ensures Increasing(InsertDay(day, days))
  {
    if days != [] && day > days[0] {
      InsertDayIncreases(day, days[1..]);
      var rest := InsertDay(day, days[1..]);
      forall j | 0 <= j < |rest| ensures days[0] < rest[j] {
        assert rest[j] in rest;
      }
    }
  }

  lemma {:induction false} SortedDaysIncrease(days: seq<int>)
    ensures Increasing(SortedDays(days))
  {
    if days != [] {
      SortedDaysIncrease(days[1..]);
      InsertDayIncreases(days[0], SortedDays(days[1..]));
    }
  }

  lemma {:induction false} IncreasingIsUnique(a: seq<int>, b: seq<int>)
    requires Increasing(a) && Increasing(b)
    requires forall d :: d in a <==> d in b
    ensures a == b
  {
    if a == [] {
      assert forall i :: 0 <= i < |b| ==> b[i] in b;
    } else {
      assert a[0] in b && b[0] in a;
      assert forall d :: d in a <==> d == a[0] || d in a[1..];
      assert forall d :: d in b <==> d == b[0] || d in b[1..];
      assert a[0] !in a[1..] && b[0] !in b[1..];
      IncreasingIsUnique(a[1..], b[1..]);
    }
  }

  /** How many checkpoints have elapsed. */
  function ElapsedCount(firstSeen: Time, at: Time): (n: nat)
    ensures n <= |CHECKPOINTS|
    ensures forall k :: 0 <= k < |CHECKPOINTS| ==> (k < n <==> CheckpointAt(firstSeen, CHECKPOINTS[k]) <= at)
  {
    var ms := at - firstSeen;
    if ms < DAY then 0 else if ms < 3 * DAY then 1 else if ms < 7 * DAY then 2
    else if ms < 14 * DAY then 3 else if ms < 30 * DAY then 4 else 5
  }

  lemma ElapsedIsInitial(firstSeen: Time, at: Time)
    ensures ElapsedDays(firstSeen, at) == CHECKPOINTS[..ElapsedCount(firstSeen, at)]
  {
    var ms := at - firstSeen;
    if ms >= 0 {
      assert CHECKPOINTS[1..] == [3, 7, 14, 30];
      assert ElapsedAmong([30], ms) == if ms >= 30 * DAY then [30] else [];
      assert ElapsedAmong([14, 30], ms) == if ms >= 14 * DAY then [14] + ElapsedAmong([30], ms) else [];
      assert ElapsedAmong([7, 14, 30], ms) == if ms >= 7 * DAY then [7] + ElapsedAmong([14, 30], ms) else [];
      assert ElapsedAmong([3, 7, 14, 30], ms) == if ms >= 3 * DAY then [3] + ElapsedAmong([7, 14, 30], ms) else [];
    }
  }

  /** Merging two initial parts of the schedule gives the longer one. */
  lemma MergeIsLonger(m: nat, n: nat)
    requires m <= |CHECKPOINTS| && n <= |CHECKPOINTS|
    ensures SortedDays(CHECKPOINTS[..m] + CHECKPOINTS[..n]) == CHECKPOINTS[..Max(m, n)]
  {
    var a, b, c := CHECKPOINTS[..m], CHECKPOINTS[..n], CHECKPOINTS[..Max(m, n)];
    SortedDaysIncrease(a + b);
    assert Increasing(CHECKPOINTS);
    assert forall d :: d in a + b <==> d in c;
    IncreasingIsUnique(SortedDays(a + b), c);
  }

  lemma CompletedAfterRecheck(e: Entry, r: Recheck, established: bool)
    requires e.completed <= CHECKPOINTS
    ensures Rechecked(e, r, established).completed == CHECKPOINTS[..Max(|e.completed|, ElapsedCount(e.firstSeen, r.at))]
  {
    ElapsedIsInitial(e.firstSeen, r.at);
    MergeIsLonger(|e.completed|, ElapsedCount(e.firstSeen, r.at));
    assert e.completed == CHECKPOINTS[..|e.completed|];
  }

  /** The schedule from its j-th day on: the first day that is neither completed nor past. */
  lemma {:induction false} OpenCheckpointFrom(e: Entry, after: Option<Time>, j: nat)
    requires e.completed <= CHECKPOINTS && j <= |CHECKPOINTS|
    ensures var k := Max(j, Max(|e.completed|, if after.Some? then ElapsedCount(e.firstSeen, after.value) else 0));
      FirstOpen(CHECKPOINTS[j..], e.firstSeen, e.completed, after)
      == if k == |CHECKPOINTS| then None else Some(CheckpointAt(e.firstSeen, CHECKPOINTS[k]))
    decreases |CHECKPOINTS| - j
  {
    if j < |CHECKPOINTS| {
      OpenCheckpointFrom(e, after, j + 1);
      assert CHECKPOINTS[j..][1..] == CHECKPOINTS[j + 1..];
      assert j < |e.completed| ==> CHECKPOINTS[j] == e.completed[j];
      assert forall i :: 0 <= i < |e.completed| ==> e.completed[i] == CHECKPOINTS[i];
      assert CHECKPOINTS[j] in e.completed <==> j < |e.completed|;
    }
  }

  lemma OpenCheckpoint(e: Entry, after: Option<Time>)
    requires e.completed <= CHECKPOINTS
    ensures var k := Max(|e.completed|, if after.Some? then ElapsedCount(e.firstSeen, after.value) else 0);
      FirstOpen(CHECKPOINTS, e.firstSeen, e.completed, after)
      == if k == |CHECKPOINTS| then None else Some(CheckpointAt(e.firstSeen, CHECKPOINTS[k]))
  {
    OpenCheckpointFrom(e, after, 0);
    assert CHECKPOINTS[0..] == CHECKPOINTS;
  }

  lemma HasDay30(e: Entry)
    requires e.completed <= CHECKPOINTS
    ensures 30 in e.completed <==> e.completed == CHECKPOINTS
  {
    assert e.completed == CHECKPOINTS ==> e.completed[4] == 30;
    assert forall i :: 0 <= i < |e.completed| ==> e.completed[i] == CHECKPOINTS[i];
  }

  // ----- The operations keep entries well scheduled -----

  lemma ObservedIsOk(e: Entry, o: Observation, at: Time, run: nat, established: bool)
    requires EntryOk(e) && at > e.lastSeen
    ensures EntryOk(Observed(e, o, at, run, established))
  {
    HasDay30(e);
    OpenCheckpoint(e, None);
  }

  lemma FirstObservedIsOk(o: Observation, at: Time, run: nat, established: bool, manual: Option<Verification>)
    ensures EntryOk(FirstObserved(o, at, run, established, manual))
  {
    assert CHECKPOINTS[0] == 1;
  }

  lemma RecheckedIsOk(e: Entry, r: Recheck, established: bool)
    requires EntryOk(e)
    ensures EntryOk(Rechecked(e, r, established))
  {
    CompletedAfterRecheck(e, r, established);
    HasDay30(Rechecked(e, r, established));
    OpenCheckpoint(Rechecked(e, r, established), Some(r.at));
  }

  lemma SyncedIsOk(e: Entry, established: bool, at: Time)
    requires EntryOk(e)
    ensures EntryOk(Synced(e, established, at))
  {
    HasDay30(e);
    OpenCheckpoint(e, Some(at));
  }

  /** A successful recheck of a due entry completes at least one more checkpoint and leaves
    * the entry not due at that moment. */
  lemma DueRecheckMakesProgress(e: Entry, r: Recheck, established: bool)
    requires EntryOk(e) && IsDue(e, r.at)
    ensures e.completed < Rechecked(e, r, established).completed <= CHECKPOINTS
    ensures !IsDue(Rechecked(e, r, established), r.at)
  {
    CompletedAfterRecheck(e, r, established);
    OpenCheckpoint(Rechecked(e, r, established), Some(r.at));
  }

  /** What a recheck decides about an entry outside the universe: it is a candidate when it
    * passes; otherwise its time is over exactly from the thirtieth day on, and until then it
    * is checked again. */
  lemma RecheckDecides(e: Entry, r: Recheck)
    requires EntryOk(e)
    ensures var e' := Rechecked(e, r, false);
      && (e'.status.Candidate? <==> r.o.passed)
      && (e'.status.Archived? <==> !r.o.passed && (e.completed == CHECKPOINTS || r.at >= e.firstSeen + 30 * DAY))
      && (e'.status.Maturing? <==> e'.nextCheck.Some?)
  {
    CompletedAfterRecheck(e, r, false);
    HasDay30(Rechecked(e, r, false));
    OpenCheckpoint(Rechecked(e, r, false), Some(r.at));
  }

  /** The next check after a recheck is the first checkpoint that is not complete. */
  lemma NextCheckIsFirstOpen(e: Entry, r: Recheck)
    requires EntryOk(e) && Rechecked(e, r, false).nextCheck.Some?
    ensures var e' := Rechecked(e, r, false);
      && e'.completed <= CHECKPOINTS && |e'.completed| < |CHECKPOINTS|
      && e'.nextCheck.value == CheckpointAt(e.firstSeen, CHECKPOINTS[|e'.completed|])
      && ElapsedCount(e.firstSeen, r.at) <= |e'.completed|
  {
    CompletedAfterRecheck(e, r, false);
    OpenCheckpoint(Rechecked(e, r, false), Some(r.at));
  }

  lemma NextCheckLiesAhead(e: Entry, r: Recheck)
    requires EntryOk(e) && Rechecked(e, r, false).nextCheck.Some?
    ensures Rechecked(e, r, false).nextCheck.value > r.at
  {
    NextCheckIsFirstOpen(e, r);
  }

  /** Every checkpoint before it is complete. */
  lemma NextCheckLeavesNoGap(e: Entry, r: Recheck, k: nat)
    requires EntryOk(e) && Rechecked(e, r, false).nextCheck.Some? && k < |CHECKPOINTS|
    ensures var e' := Rechecked(e, r, false);
      CheckpointAt(e.firstSeen, CHECKPOINTS[k]) < e'.nextCheck.value ==> CHECKPOINTS[k] in e'.completed
  {
    NextCheckIsFirstOpen(e, r);
    var n := |Rechecked(e, r, false).completed|;
    if CheckpointAt(e.firstSeen, CHECKPOINTS[k]) < CheckpointAt(e.firstSeen, CHECKPOINTS[n]) { CheckpointsRise(e.firstSeen, k, n); }
  }

  lemma CheckpointsRise(firstSeen: Time, k: nat, n: nat)
    requires k < |CHECKPOINTS| && n < |CHECKPOINTS| && CheckpointAt(firstSeen, CHECKPOINTS[k]) < CheckpointAt(firstSeen, CHECKPOINTS[n])
    ensures k < n && forall completed: seq<int> :: completed <= CHECKPOINTS && |completed| == n ==> CHECKPOINTS[k] in completed
  {
    assert Increasing(CHECKPOINTS);
    forall completed: seq<int> | completed <= CHECKPOINTS && |completed| == n ensures CHECKPOINTS[k] in completed {
      assert completed[k] == CHECKPOINTS[k];
    }
  }

  /** What a later scan decides about an entry outside the universe: it is new for a day; then a
    * candidate when it passes, archived when it fails with its schedule complete, and else it
    * matures. While new or maturing it waits for its first open checkpoint, however long past. */
  lemma ObservationDecides(e: Entry, o: Observation, at: Time, run: nat)
    requires EntryOk(e)
    ensures var e' := Observed(e, o, at, run, false);
      && (e'.status.New? <==> at < e.firstSeen + DAY)
      && (e'.status.Candidate? <==> at >= e.firstSeen + DAY && o.passed)
      && (e'.status.Archived? <==> at >= e.firstSeen + DAY && !o.passed && e.completed == CHECKPOINTS)
      && (e'.status.Maturing? <==> at >= e.firstSeen + DAY && !o.passed && e.completed != CHECKPOINTS)
      && e'.nextCheck == (if (e'.status.New? || e'.status.Maturing?) && e.completed != CHECKPOINTS
                          then Some(e.firstSeen + CHECKPOINTS[|e.completed|] * DAY) else None)
    ensures var e' := Observed(e, o, at, run, true); e'.status.Established? && e'.nextCheck.None?
  {
    HasDay30(e);
    OpenCheckpoint(e, None);
  }

  /** What the first scan decides: the entry is new, has completed nothing and waits for a day. */
  lemma FirstScanDecides(o: Observation, at: Time, run: nat, manual: Option<Verification>)
    ensures var e := FirstObserved(o, at, run, false, manual);
      && e.status.New? && e.completed == [] && e.firstSeen == e.lastSeen == at && e.lastChecked.None?
      && e.candidateSince.None? && e.archivedAt.None? && (forall now :: IsDue(e, now) <==> now >= at + DAY)
    ensures var e := FirstObserved(o, at, run, true, manual);
      e.status.Established? && e.completed == [] && forall now :: !IsDue(e, now)
  {
  }

  /** When an entry is due: from its next check on, and only while it is new or maturing. */
  lemma DueExactly(e: Entry, now: Time)
    requires EntryOk(e)
    ensures IsDue(e, now) <==> e.nextCheck.Some? && now >= e.nextCheck.value
  {
  }

  /** What a scan makes of the basket: each token it tracks and sees later than before is decided
    * by its observation and the universe of the scan, each new one begins, all else is as before. */
  lemma ScanDecides(s: Store, scan: map<Identity, Observation>, at: Time, run: nat, enabled: set<Identity>, id: Identity)
    requires StoreOk(s)
    ensures var s' := Ingest(s, scan, at, run, enabled);
      && (id in s'.entries <==> id in s.entries || (id in scan && (scan[id].newEmerging || scan[id].observationOnly)))
      && s'.manual == s.manual
      && (id in s.entries && id in scan && (scan[id].newEmerging || scan[id].observationOnly) && at > s.entries[id].lastSeen ==>
            s'.entries[id] == Observed(s.entries[id], scan[id], at, run, id in enabled))
      && (id in s.entries && !(id in scan && (scan[id].newEmerging || scan[id].observationOnly) && at > s.entries[id].lastSeen) ==>
            s'.entries[id] == s.entries[id])
      && (id !in s.entries && id in s'.entries ==>
            s'.entries[id] == FirstObserved(scan[id], at, run, id in enabled, if id in s.manual then Some(s.manual[id]) else None))
  {
  }

  /** What leaving the universe makes of an established entry, and joining it of any entry. */
  lemma SynchronisationDecides(e: Entry, at: Time)
    requires EntryOk(e)
    ensures Synced(e, true, at).status.Established? && Synced(e, true, at).nextCheck.None?
    ensures var e' := Synced(e, false, at);
      e.status.Established? ==>
        && (e'.status.Candidate? <==> e.passed && e.candidateSince.Some?)
        && (e'.status.Archived? <==> !e'.status.Candidate? && e.completed == CHECKPOINTS)
        && (e'.status.New? <==> !e'.status.Candidate? && !e'.status.Archived? && at < e.firstSeen + DAY)
        && (e'.nextCheck.Some? <==> (e'.status.New? || e'.status.Maturing?) && at < e.firstSeen + 30 * DAY)
  {
    HasDay30(e);
    OpenCheckpoint(e, Some(at));
  }

  /** A new or maturing entry has no next check exactly when: after an observation, all its
    * checkpoints are complete; after a synchronisation that changes its status, 30 days have
    * passed since it was first seen; after a recheck, never. */
  lemma UnscheduledExactly(e: Entry, o: Observation, r: Recheck, at: Time, run: nat, established: bool)
    requires EntryOk(e)
    ensures var e' := Observed(e, o, at, run, established);
      e'.status.New? || e'.status.Maturing? ==> (e'.nextCheck.None? <==> e.completed == CHECKPOINTS)
    ensures var e' := Synced(e, established, at);
      (e'.status.New? || e'.status.Maturing?) && e'.status != e.status ==> (e'.nextCheck.None? <==> at >= e.firstSeen + 30 * DAY)
    ensures Rechecked(e, r, established).status.Maturing? ==> Rechecked(e, r, established).nextCheck.Some?
    ensures !Rechecked(e, r, established).status.New?
  {
    HasDay30(e);
    OpenCheckpoint(e, None);
    OpenCheckpoint(e, Some(at));
    CompletedAfterRecheck(e, r, established);
    HasDay30(Rechecked(e, r, established));
    OpenCheckpoint(Rechecked(e, r, established), Some(r.at));
  }

  /** Such an entry exists: established from its first scan, it leaves the universe after more
    * than 30 days and then matures without ever being due. */
  lemma StrandedEntry(o: Observation, at: Time, later: Time)
    requires !o.passed && later >= at + 30 * DAY
    ensures var e := Synced(FirstObserved(o, at, 0, true, None), false, later);
      EntryOk(e) && e.status.Maturing? && forall now :: !IsDue(e, now)
  {
    FirstObservedIsOk(o, at, 0, true, None);
    SyncedIsOk(FirstObserved(o, at, 0, true, None), false, later);
    UnscheduledExactly(FirstObserved(o, at, 0, true, None), o, Recheck(o, at, 0, None), later, 0, false);
  }

  /** Repeating a synchronisation at the same moment changes nothing. */
  lemma SyncIsIdempotent(s: Store, enabled: set<Identity>, at: Time)
    ensures Sync(Sync(s, enabled, at), enabled, at) == Sync(s, enabled, at)
  {
    var once := Sync(s, enabled, at);
    forall id | id in once.entries ensures Synced(once.entries[id], id in enabled, at) == once.entries[id] {}
    assert Sync(once, enabled, at).entries == once.entries;
  }

  // ----- Whole runs -----

  /** What happens to a basket. A verdict is forgotten when the audit log it is read from drops
    * it; a run may have that happen at any moment. */
  datatype Event =
    | Scanned(scan: map<Identity, Observation>, at: Time, run: nat, enabled: set<Identity>)
    | WasRechecked(id: Identity, r: Recheck, enabled: set<Identity>)
    | MembershipSynced(enabled: set<Identity>, at: Time)
    | OwnerVerified(id: Identity, v: Verification)
    | VerdictForgotten(id: Identity)

  function StoreStep(s: Store, e: Event): Store {
    match e
    case Scanned(scan, at, run, enabled) => Ingest(s, scan, at, run, enabled)
    case WasRechecked(id, r, enabled) => RecheckEntry(s, id, r, enabled)
    case MembershipSynced(enabled, at) => Sync(s, enabled, at)
    case OwnerVerified(id, v) => Verify(s, id, v)
    case VerdictForgotten(id) => s.(manual := s.manual - {id})
  }

  function StoreAfter(events: seq<Event>): Store {
    if events == [] then Store(map[], map[]) else StoreStep(StoreAfter(events[..|events| - 1]), events[|events| - 1])
  }

  ghost predicate StoreOk(s: Store) {
    forall id :: id in s.entries ==> EntryOk(s.entries[id])
  }

  lemma StoreStepIsOk(s: Store, e: Event)
    requires StoreOk(s)
    ensures StoreOk(StoreStep(s, e))
  {
    var s' := StoreStep(s, e);
    forall id | id in s'.entries ensures EntryOk(s'.entries[id]) {
      match e
      case Scanned(scan, at, run, enabled) =>
        if id in scan && Tracked(scan[id]) {
          if id !in s.entries {
            FirstObservedIsOk(scan[id], at, run, id in enabled, if id in s.manual then Some(s.manual[id]) else None);
          } else if at > s.entries[id].lastSeen {
            ObservedIsOk(s.entries[id], scan[id], at, run, id in enabled);
          }
        }
      case WasRechecked(k, r, enabled) => if id == k { RecheckedIsOk(s.entries[id], r, id in enabled); }
      case MembershipSynced(enabled, at) => SyncedIsOk(s.entries[id], id in enabled, at);
      case OwnerVerified(_, _) =>
      case VerdictForgotten(_) =>
    }
  }

  /** Every entry of every reachable store is well scheduled. */
  lemma {:induction false} ReachableStoresAreOk(events: seq<Event>)
    ensures StoreOk(StoreAfter(events))
  {
    if events != [] {
      ReachableStoresAreOk(events[..|events| - 1]);
      StoreStepIsOk(StoreAfter(events[..|events| - 1]), events[|events| - 1]);
    }
  }

  /** Entries are never dropped, never lose a checkpoint, and keep the time they were first seen. */
  lemma EntriesEndure(s: Store, e: Event, id: Identity)
    requires StoreOk(s) && id in s.entries
    ensures id in StoreStep(s, e).entries
    ensures StoreStep(s, e).entries[id].firstSeen == s.entries[id].firstSeen
    ensures s.entries[id].completed <= StoreStep(s, e).entries[id].completed
    ensures !e.WasRechecked? || e.id != id ==> StoreStep(s, e).entries[id].completed == s.entries[id].completed
  {
    if e.WasRechecked? && e.id == id {
      CompletedAfterRecheck(s.entries[id], e.r, id in e.enabled);
    }
  }

  /** The rechecks of an identity that found it due. */
  function DueRechecks(events: seq<Event>, id: Identity): nat {
    if events == [] then 0
    else
      var front, e := events[..|events| - 1], events[|events| - 1];
      var s := StoreAfter(front);
      DueRechecks(front, id) + if e.WasRechecked? && e.id == id && id in s.entries && IsDue(s.entries[id], e.r.at) then 1 else 0
  }

  /** The schedule ends: over any run an identity is found due and rechecked at most five
    * times, and no more often than it has completed checkpoints. */
  lemma {:induction false} AtMostFiveDueRechecks(events: seq<Event>, id: Identity)
    ensures id in StoreAfter(events).entries ==> DueRechecks(events, id) <= |StoreAfter(events).entries[id].completed| <= 5
    ensures id !in StoreAfter(events).entries ==> DueRechecks(events, id) == 0
  {
    if events != [] {
      var front, e := events[..|events| - 1], events[|events| - 1];
      var s := StoreAfter(front);
      AtMostFiveDueRechecks(front, id);
      ReachableStoresAreOk(front);
      ReachableStoresAreOk(events);
      if id in s.entries {
        EntriesEndure(s, e, id);
        if e.WasRechecked? && e.id == id && IsDue(s.entries[id], e.r.at) {
          DueRecheckMakesProgress(s.entries[id], e.r, id in e.enabled);
        }
      }
    }
  }

  /** A recheck of an identity, at position n of a run, at least 30 days after it was first seen. */
  predicate SeasonedAt(events: seq<Event>, n: nat, id: Identity, firstSeen: Time) {
    && n < |events| && events[n].WasRechecked? && events[n].id == id
    && id in StoreAfter(events[..n]).entries && StoreAfter(events[..n]).entries[id].firstSeen == firstSeen
    && events[n].r.at >= firstSeen + 30 * DAY
  }

  /** An entry has all checkpoints only through a recheck at least 30 days after its unchanging
    * first-seen time. */
  lemma {:induction false} AllCheckpointsMeanSeasoned(events: seq<Event>, id: Identity)
    requires id in StoreAfter(events).entries && 30 in StoreAfter(events).entries[id].completed
    ensures exists n: nat :: SeasonedAt(events, n, id, StoreAfter(events).entries[id].firstSeen)
  {
    var front, e := events[..|events| - 1], events[|events| - 1];
    var s := StoreAfter(front);
    ReachableStoresAreOk(front);
    if id in s.entries {
      EntriesEndure(s, e, id);
      if 30 in s.entries[id].completed {
        AllCheckpointsMeanSeasoned(front, id);
        var n: nat :| SeasonedAt(front, n, id, s.entries[id].firstSeen);
        assert front[..n] == events[..n];
        assert SeasonedAt(events, n, id, s.entries[id].firstSeen);
      } else {
        CompletedAfterRecheck(s.entries[id], e.r, id in e.enabled);
        HasDay30(s.entries[id]);
        HasDay30(Rechecked(s.entries[id], e.r, id in e.enabled));
        assert CheckpointAt(s.entries[id].firstSeen, CHECKPOINTS[4]) <= e.r.at;
        assert SeasonedAt(events, |events| - 1, id, s.entries[id].firstSeen);
      }
    }
  }

  lemma {:induction false} EntriesStay(events: seq<Event>, n: nat, id: Identity)
    requires n <= |events| && id in StoreAfter(events[..n]).entries
    ensures id in StoreAfter(events).entries
    ensures StoreAfter(events).entries[id].firstSeen == StoreAfter(events[..n]).entries[id].firstSeen
  {
    if n == |events| {
      assert events[..n] == events;
    } else {
      var front := events[..|events| - 1];
      assert front[..n] == events[..n];
      EntriesStay(front, n, id);
      ReachableStoresAreOk(front);
      EntriesEndure(StoreAfter(front), events[|events| - 1], id);
    }
  }

  // ----- The cut at a thousand entries -----

  const ENTRY_LIMIT: nat := 1_000

  function SortedBefore(ids: set<Identity>, id: Identity): set<Identity> {
    set k | k in ids && k < id
  }

  /** What is stored of a basket: the first thousand entries in the order of their identities. */
  function Rebuilt(s: Store): Store {
    s.(entries := map id | id in s.entries && |SortedBefore(s.entries.Keys, id)| < ENTRY_LIMIT :: s.entries[id])
  }

  lemma {:induction false} LastIdentity(ids: set<Identity>) returns (last: Identity)
    requires ids != {}
    ensures last in ids && SortedBefore(ids, last) == ids - {last}
  {
    var one :| one in ids;
    last := one;
    if ids - {one} != {} {
      var other := LastIdentity(ids - {one});
      if one < other { last := other; }
      forall k | k in ids && k != last ensures k < last {
        if k != one && k != other { assert k in SortedBefore(ids - {one}, other); }
      }
    } else {
      assert forall k :: k in ids ==> k == one || k in ids - {one};
    }
  }

  /** The cut drops nothing, so that entries endure, exactly while the basket holds no more than
    * a thousand of them. */
  lemma CutIsInvisibleExactly(s: Store)
    ensures Rebuilt(s) == s <==> |s.entries.Keys| <= 1_000
  {
    var ids := s.entries.Keys;
    if |ids| <= ENTRY_LIMIT {
      forall id | id in ids ensures |SortedBefore(ids, id)| < ENTRY_LIMIT {
        assert ids == SortedBefore(ids, id) + (ids - SortedBefore(ids, id)) && id in ids - SortedBefore(ids, id);
      }
      assert Rebuilt(s).entries == s.entries;
    } else {
      var last := LastIdentity(ids);
      assert last !in Rebuilt(s).entries;
    }
  }

  /** The identities that an operation may bring into the basket: the tracked ones of a scan. */
  function Brought(e: Event): set<Identity> {
    if e.Scanned? then set id | id in e.scan && Tracked(e.scan[id]) else {}
  }

  lemma KeysAfterStep(s: Store, e: Event)
    ensures StoreStep(s, e).entries.Keys == s.entries.Keys + Brought(e)
  {
    match e
    case Scanned(scan, at, run, enabled) => assert Brought(e) == set id | id in scan && Tracked(scan[id]);
    case _ =>
  }

  /** An entry outlives an operation and the cut exactly when fewer than a thousand identities,
    * of the basket and of the scan together, come before its own. */
  lemma EntryOutlivesCutExactly(s: Store, e: Event, id: Identity)
    requires StoreOk(s) && id in s.entries
    ensures id in Rebuilt(StoreStep(s, e)).entries <==> |SortedBefore(s.entries.Keys + Brought(e), id)| < 1_000
    ensures id in Rebuilt(StoreStep(s, e)).entries ==>
      && Rebuilt(StoreStep(s, e)).entries[id].firstSeen == s.entries[id].firstSeen
      && s.entries[id].completed <= Rebuilt(StoreStep(s, e)).entries[id].completed
  {
    EntriesEndure(s, e, id);
    KeysAfterStep(s, e);
  }

  /** A basket within its limit loses entries to the cut exactly when the scan brings more new
    * identities than there is room for; no other operation does. */
  lemma StepLosesEntriesExactly(s: Store, e: Event)
    requires |s.entries.Keys| <= 1_000
    ensures Rebuilt(StoreStep(s, e)) != StoreStep(s, e) <==> |Brought(e) - s.entries.Keys| > 1_000 - |s.entries.Keys|
  {
    KeysAfterStep(s, e);
    CutIsInvisibleExactly(StoreStep(s, e));
    JoinedSize(s.entries.Keys, Brought(e));
  }

  lemma JoinedSize(a: set<Identity>, b: set<Identity>)
    ensures |a + b| == |a| + |b - a|
  {
    assert a + b == a + (b - a);
  }
}
