/** Over any sequence of mutations the history, the audit log and the differences agree. */
module UniverseHistory {
  import opened Common
  import opened Universe

  predicate Absent(entries: seq<UniverseEntry>, id: Identity) {
    forall k :: 0 <= k < |entries| ==> entries[k].identity != id
  }

  predicate DistinctIdentities(entries: seq<UniverseEntry>) {
    entries == []
    || (Absent(entries[..|entries| - 1], entries[|entries| - 1].identity) && DistinctIdentities(entries[..|entries| - 1]))
  }

  lemma {:induction false} PositionsDiffer(entries: seq<UniverseEntry>, i: nat, j: nat)
    requires DistinctIdentities(entries) && i < j < |entries|
    ensures entries[i].identity != entries[j].identity
  {
    if j < |entries| - 1 { PositionsDiffer(entries[..|entries| - 1], i, j); }
  }

  lemma {:induction false} AbsentFromContents(entries: seq<UniverseEntry>, id: Identity)
    requires Absent(entries, id)
    ensures id !in Contents(entries)
  {
    if entries != [] { AbsentFromContents(entries[..|entries| - 1], id); }
  }

  lemma AppendedContents(entries: seq<UniverseEntry>, e: UniverseEntry)
    requires DistinctIdentities(entries) && Absent(entries, e.identity)
    ensures DistinctIdentities(entries + [e]) && Contents(entries + [e]) == Contents(entries)[e.identity := e]
    ensures e.identity !in Contents(entries)
  {
    assert (entries + [e])[..|entries|] == entries;
    AbsentFromContents(entries, e.identity);
  }

  function Without(entries: seq<UniverseEntry>, i: nat): (rest: seq<UniverseEntry>)
    requires i < |entries|
  {
    entries[..i] + entries[i + 1..]
  }

  lemma WithoutOfFront(entries: seq<UniverseEntry>, i: nat)
    requires i < |entries| - 1
    ensures var front, last := entries[..|entries| - 1], entries[|entries| - 1];
      && Without(entries, i) == Without(front, i) + [last]
      && (Absent(front, last.identity) ==> Absent(Without(front, i), last.identity))
  {
    var front := entries[..|entries| - 1];
    assert forall k :: 0 <= k < |front| - 1 ==> Without(front, i)[k] == front[if k < i then k else k + 1];
  }

  lemma {:induction false} RemovedIsDistinct(entries: seq<UniverseEntry>, i: nat)
    requires DistinctIdentities(entries) && i < |entries|
    ensures DistinctIdentities(Without(entries, i))
  {
    var front, last := entries[..|entries| - 1], entries[|entries| - 1];
    if i == |front| {
      assert Without(entries, i) == front;
    } else {
      RemovedIsDistinct(front, i);
      WithoutOfFront(entries, i);
      AppendedContents(Without(front, i), last);
    }
  }

  lemma {:induction false} RemovedContents(entries: seq<UniverseEntry>, i: nat)
    requires DistinctIdentities(entries) && i < |entries|
    ensures Contents(Without(entries, i)) == Contents(entries) - {entries[i].identity}
    ensures entries[i].identity in Contents(entries)
  {
    var front, last := entries[..|entries| - 1], entries[|entries| - 1];
    assert Contents(entries) == Contents(front)[last.identity := last];
    if i == |front| {
      assert Without(entries, i) == front;
      AbsentFromContents(front, last.identity);
    } else {
      RemovedContents(front, i);
      RemovedIsDistinct(front, i);
      WithoutOfFront(entries, i);
      AppendedContents(Without(front, i), last);
      assert front[i].identity != last.identity;
    }
  }

  lemma {:induction false} ReplacedContents(entries: seq<UniverseEntry>, i: nat, e: UniverseEntry)
    requires DistinctIdentities(entries) && i < |entries| && e.identity == entries[i].identity
    ensures DistinctIdentities(entries[i := e])
    ensures Contents(entries[i := e]) == Contents(entries)[e.identity := e]
    ensures e.identity in Contents(entries) && Contents(entries)[e.identity] == entries[i]
  {
    var front, last := entries[..|entries| - 1], entries[|entries| - 1];
    if i == |front| {
      assert entries[i := e][..|front|] == front;
    } else {
      ReplacedContents(front, i, e);
      assert entries[i := e] == front[i := e] + [last];
      AppendedContents(front[i := e], last);
    }
  }

  /** An audit entry tells exactly what happened between two snapshots: the versions follow
    * each other, and their difference is the one entry and the fields it names. */
  ghost predicate Explains(a: Audit, from: Snapshot, to: Snapshot) {
    && a.fromVersion == from.version && a.toVersion == to.version == from.version + 1
    && var d := Diff(from, to);
       match a.operation
       case AddOp => d.added.Keys == {a.identity} && d.removed == map[] && d.changed == map[] && a.changed == {WholeEntry}
       case RemoveOp => d.added == map[] && d.removed.Keys == {a.identity} && d.changed == map[] && a.changed == {WholeEntry}
       case _ => d.added == map[] && d.removed == map[] && d.changed.Keys == {a.identity}
                 && a.changed != {} && d.changed[a.identity].fields == a.changed
  }

  lemma DifferenceOfOne(from: Snapshot, to: Snapshot, id: Identity)
    requires forall k :: k != id ==> (k in Contents(from.entries) <==> k in Contents(to.entries))
    requires forall k :: k != id && k in Contents(from.entries) ==> Contents(from.entries)[k] == Contents(to.entries)[k]
    ensures var a, b, d := Contents(from.entries), Contents(to.entries), Diff(from, to);
      && d.added == (if id in b && id !in a then map[id := b[id]] else map[])
      && d.removed == (if id in a && id !in b then map[id := a[id]] else map[])
      && d.changed == (if id in a && id in b && ChangedFields(a[id], b[id]) != {}
                       then map[id := EntryChange(a[id], b[id], ChangedFields(a[id], b[id]))] else map[])
  {
  }

  /** What a mutation makes of the contents. */
  predicate PlanShows(entries: seq<UniverseEntry>, m: Mutation, now: Time, planned: seq<UniverseEntry>) {
    var a, b, i := Contents(entries), Contents(planned), IndexOf(entries, m.identity);
    if m.Add? then planned != [] && m.identity !in a && b == a[m.identity := planned[|planned| - 1]]
    else if m.Remove? then m.identity in a && b == a - {m.identity}
    else i >= 0 && m.identity in a && a[m.identity] == entries[i] && b == a[m.identity := Edited(entries[i], m, now)]
  }

  lemma PlanKeepsOthers(entries: seq<UniverseEntry>, m: Mutation, now: Time, actor: string)
    requires Planned(entries, m, now, actor).Ok? && DistinctIdentities(entries)
    ensures var planned := Planned(entries, m, now, actor).value.entries;
      DistinctIdentities(planned) && PlanShows(entries, m, now, planned)
  {
    var i, planned := IndexOf(entries, m.identity), Planned(entries, m, now, actor).value.entries;
    if m.Add? {
      var e := planned[|entries|];
      assert planned == entries + [e];
      AppendedContents(entries, e);
    } else if m.Remove? {
      assert planned == Without(entries, i);
      RemovedIsDistinct(entries, i);
      RemovedContents(entries, i);
    } else {
      var e := Edited(entries[i], m, now);
      assert planned == entries[i := e];
      ReplacedContents(entries, i, e);
    }
  }

  lemma PlanExplained(from: Snapshot, to: Snapshot, m: Mutation, now: Time, actor: string)
    requires Planned(from.entries, m, now, actor).Ok? && DistinctIdentities(from.entries)
    requires to.entries == Planned(from.entries, m, now, actor).value.entries && to.version == from.version + 1
    ensures DistinctIdentities(to.entries)
    ensures Explains(Audit(OperationOf(m), m.identity, Planned(from.entries, m, now, actor).value.changed, from.version, to.version, now, actor), from, to)
  {
    PlanKeepsOthers(from.entries, m, now, actor);
    DifferenceOfOne(from, to, m.identity);
  }

  lemma NewestAuditExplains(s: UniverseStore, m: Mutation, now: Time, actor: string)
    requires Mutated(s, m, now, actor).Ok? && DistinctIdentities(s.current.entries)
    ensures var s' := Mutated(s, m, now, actor).value;
      DistinctIdentities(s'.current.entries) && Explains(s'.audit[0], s.current, s'.current)
  {
    PlanExplained(s.current, Mutated(s, m, now, actor).value.current, m, now, actor);
  }

  // ----- Sequences of mutations -----

  datatype Request = Request(m: Mutation, now: Time, actor: string)

  /** The store after requests of which the refused ones change nothing. */
  function After(initial: Snapshot, rs: seq<Request>): UniverseStore {
    if rs == [] then UniverseStore(initial, [], [])
    else
      var s, r := After(initial, rs[..|rs| - 1]), rs[|rs| - 1];
      var next := Mutated(s, r.m, r.now, r.actor);
      if next.Ok? then next.value else s
  }

  /** The snapshots that have been current, oldest first. */
  function Currents(initial: Snapshot, rs: seq<Request>): seq<Snapshot> {
    if rs == [] then [initial]
    else
      var s, r, us := After(initial, rs[..|rs| - 1]), rs[|rs| - 1], Currents(initial, rs[..|rs| - 1]);
      var next := Mutated(s, r.m, r.now, r.actor);
      if next.Ok? then us + [next.value.current] else us
  }

  /** The store holds the last of the snapshots, the 20 before it, and an explanation of each
    * of the last 200 changes. */
  ghost predicate Records(s: UniverseStore, us: seq<Snapshot>) {
    && us != [] && s.current == us[|us| - 1] && DistinctIdentities(s.current.entries)
    && (forall i :: 0 <= i < |us| ==> us[i].version == us[0].version + i)
    && |s.history| == Min(20, |us| - 1)
    && (forall k :: 0 <= k < |s.history| ==> s.history[k] == us[|us| - 2 - k])
    && |s.audit| == Min(200, |us| - 1)
    && (forall k :: 0 <= k < |s.audit| ==> ExplainsStep(s.audit[k], us, k))
  }

  /** An audit entry explains the k-th change, counted back from the newest. */
  ghost predicate ExplainsStep(a: Audit, us: seq<Snapshot>, k: nat) {
    k + 2 <= |us| && Explains(a, us[|us| - 2 - k], us[|us| - 1 - k])
  }

  lemma RecordsStep(s: UniverseStore, us: seq<Snapshot>, r: Request)
    requires Records(s, us) && Mutated(s, r.m, r.now, r.actor).Ok?
    ensures Records(Mutated(s, r.m, r.now, r.actor).value, us + [Mutated(s, r.m, r.now, r.actor).value.current])
  {
    NewestAuditExplains(s, r.m, r.now, r.actor);
    var s' := Mutated(s, r.m, r.now, r.actor).value;
    NewRecord(s, us, s'.current, s'.audit[0]);
  }

  lemma StillExplains(a: Audit, us: seq<Snapshot>, k: nat, next: Snapshot)
    requires ExplainsStep(a, us, k)
    ensures ExplainsStep(a, us + [next], k + 1)
  {
    var us' := us + [next];
    assert us'[|us'| - 3 - k] == us[|us| - 2 - k] && us'[|us'| - 2 - k] == us[|us| - 1 - k];
  }

  lemma NewlyExplains(a: Audit, us: seq<Snapshot>, next: Snapshot)
    requires us != [] && Explains(a, us[|us| - 1], next)
    ensures ExplainsStep(a, us + [next], 0)
  {
    var us' := us + [next];
    assert us'[|us'| - 2] == us[|us| - 1] && us'[|us'| - 1] == next;
  }

  lemma NewRecord(s: UniverseStore, us: seq<Snapshot>, next: Snapshot, audit: Audit)
    requires Records(s, us) && next.version == s.current.version + 1 && DistinctIdentities(next.entries)
    requires Explains(audit, s.current, next)
    ensures Records(UniverseStore(next, Take([s.current] + s.history, HISTORY_LIMIT), Take([audit] + s.audit, AUDIT_LIMIT)), us + [next])
  {
    NewHistory(s, us, next);
    NewAudits(s, us, next, audit);
  }

  lemma NewHistory(s: UniverseStore, us: seq<Snapshot>, next: Snapshot)
    requires us != [] && s.current == us[|us| - 1] && |s.history| == Min(20, |us| - 1)
    requires forall k :: 0 <= k < |s.history| ==> s.history[k] == us[|us| - 2 - k]
    ensures var history, us' := Take([s.current] + s.history, HISTORY_LIMIT), us + [next];
      |history| == Min(20, |us|) && forall k :: 0 <= k < |history| ==> history[k] == us'[|us'| - 2 - k]
  {
    var history, us' := Take([s.current] + s.history, HISTORY_LIMIT), us + [next];
    forall k | 0 <= k < |history| ensures history[k] == us'[|us'| - 2 - k] {
      assert history[k] == if k == 0 then s.current else s.history[k - 1];
    }
  }

  lemma NewAudits(s: UniverseStore, us: seq<Snapshot>, next: Snapshot, audit: Audit)
    requires us != [] && Explains(audit, us[|us| - 1], next) && |s.audit| == Min(200, |us| - 1)
    requires forall k :: 0 <= k < |s.audit| ==> ExplainsStep(s.audit[k], us, k)
    ensures var audits := Take([audit] + s.audit, AUDIT_LIMIT);
      |audits| == Min(200, |us|) && forall k :: 0 <= k < |audits| ==> ExplainsStep(audits[k], us + [next], k)
  {
    var audits := Take([audit] + s.audit, AUDIT_LIMIT);
    forall k | 0 <= k < |audits| ensures ExplainsStep(audits[k], us + [next], k) {
      if k == 0 {
        NewlyExplains(audit, us, next);
      } else {
        assert audits[k] == s.audit[k - 1];
        StillExplains(audits[k], us, k - 1, next);
      }
    }
  }

  /** Along any sequence of mutations versions are consecutive, the history is the last twenty
    * superseded snapshots, and each audit entry explains the change it was written for. */
  lemma {:induction false} EveryStoreRecords(initial: Snapshot, rs: seq<Request>)
    requires DistinctIdentities(initial.entries)
    ensures Records(After(initial, rs), Currents(initial, rs))
  {
    if rs != [] {
      var front, r := rs[..|rs| - 1], rs[|rs| - 1];
      EveryStoreRecords(initial, front);
      if Mutated(After(initial, front), r.m, r.now, r.actor).Ok? {
        RecordsStep(After(initial, front), Currents(initial, front), r);
      }
    }
  }

  /** A version is found exactly when it is that of the current snapshot or of one of the twenty
    * before it, and what is found is the snapshot that was current under that version. */
  predicate FindsRecorded(found: Option<Snapshot>, us: seq<Snapshot>, version: nat)
    requires us != []
  {
    var k := version - us[0].version;
    && (found.Some? <==> 0 <= k < |us| && |us| - 1 - 20 <= k)
    && (found.Some? ==> found.value == us[k])
  }

  lemma VersionsAreFound(initial: Snapshot, rs: seq<Request>, version: nat)
    requires DistinctIdentities(initial.entries)
    ensures var us := Currents(initial, rs);
      us != [] && us[0] == initial && FindsRecorded(Found(After(initial, rs), version), us, version)
  {
    EveryStoreRecords(initial, rs);
    FirstCurrent(initial, rs);
    RecordedVersionsAreFound(After(initial, rs), Currents(initial, rs), version);
  }

  lemma RecordedVersionsAreFound(s: UniverseStore, us: seq<Snapshot>, version: nat)
    requires Records(s, us)
    ensures FindsRecorded(Found(s, version), us, version)
  {
    var all, k := [s.current] + s.history, s.current.version - version;
    assert forall j :: 0 <= j < |all| ==> all[j] == us[|us| - 1 - j];
    assert forall j :: 0 <= j < |all| ==> all[j].version == us[0].version + |us| - 1 - j;
    if 0 <= k < |all| {
      FirstIsFound(all, version, k);
    } else {
      NoneIsFound(all, version);
    }
  }

  lemma {:induction false} FirstCurrent(initial: Snapshot, rs: seq<Request>)
    ensures Currents(initial, rs) != [] && Currents(initial, rs)[0] == initial
  {
    if rs != [] { FirstCurrent(initial, rs[..|rs| - 1]); }
  }

  // ----- Mutations that undo each other -----

  lemma IndexIsFirst(entries: seq<UniverseEntry>, id: Identity, i: nat)
    requires i < |entries| && entries[i].identity == id && DistinctIdentities(entries)
    ensures IndexOf(entries, id) == i
  {
    var first := IndexOf(entries, id);
    if first < i { PositionsDiffer(entries, first, i); }
    if i < first { PositionsDiffer(entries, i, first); }
  }

  lemma AddedLast(entries: seq<UniverseEntry>, e: UniverseEntry)
    requires DistinctIdentities(entries) && Absent(entries, e.identity)
    ensures IndexOf(entries + [e], e.identity) == |entries|
    ensures (entries + [e])[..|entries|] + (entries + [e])[|entries| + 1..] == entries
  {
    AppendedContents(entries, e);
    IndexIsFirst(entries + [e], e.identity, |entries|);
  }

  /** Removing an added entry gives the entries from before. */
  lemma RemoveUndoesAdd(entries: seq<UniverseEntry>, m: Mutation, now: Time, later: Time, actor: string)
    requires m.Add? && Planned(entries, m, now, actor).Ok? && DistinctIdentities(entries)
    ensures Planned(Planned(entries, m, now, actor).value.entries, Remove(m.identity), later, actor) == Ok(Plan(entries, {WholeEntry}))
  {
    var added := Planned(entries, m, now, actor).value.entries;
    AddedLast(entries, added[|entries|]);
  }

  /** Enabling a disabled entry gives the entries from before, but for its update time. */
  lemma EnableUndoesDisable(entries: seq<UniverseEntry>, id: Identity, now: Time, later: Time, actor: string)
    requires Planned(entries, Disable(id), now, actor).Ok? && DistinctIdentities(entries)
    ensures var i, again := IndexOf(entries, id), Planned(Planned(entries, Disable(id), now, actor).value.entries, Enable(id), later, actor);
      again.Ok? && again.value.entries == entries[i := entries[i].(updatedAt := later)]
  {
    var i, disabled := IndexOf(entries, id), Planned(entries, Disable(id), now, actor).value.entries;
    ReplacedContents(entries, i, disabled[i]);
    IndexIsFirst(disabled, id, i);
    assert ChangedFields(disabled[i], Edited(disabled[i], Enable(id), later)) == {Enabled};
  }
}
