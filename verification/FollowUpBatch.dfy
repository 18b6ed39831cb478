/** Scans and recheck batches: many operations on the basket at once, in an order that must
  * not matter. Candidate ids and identities stand for their ranks in the collation order.
  */
module FollowUpBatch {
  import opened Common
  import opened FollowUp

  /** A scanned candidate; its identity is missing when its chain or address is not valid. */
  datatype ScanCandidate = ScanCandidate(id: nat, identity: Option<Identity>, liquidity: Option<real>, o: Observation)

  function Liquidity(c: ScanCandidate): real {
    if c.liquidity.Some? then c.liquidity.value else -1.0
  }

  predicate Preferred(c: ScanCandidate, d: ScanCandidate) {
    Liquidity(c) > Liquidity(d) || (Liquidity(c) == Liquidity(d) && c.id < d.id)
  }

  /** c is a candidate of its identity that no other candidate of it is preferred to. */
  predicate IsBest(cs: seq<ScanCandidate>, c: ScanCandidate) {
    c in cs && c.identity.Some? && forall d :: d in cs && d.identity == c.identity ==> !Preferred(d, c)
  }

  /** The best candidate has at least the liquidity of every other of its identity, and among
    * equals the least id; one without liquidity is best only beside others that have none, or
    * less than none. */
  lemma BestIsMostLiquid(cs: seq<ScanCandidate>, c: ScanCandidate, d: ScanCandidate)
    requires IsBest(cs, c) && d in cs && d.identity == c.identity
    ensures c.liquidity.Some? && d.liquidity.Some? ==> d.liquidity.value <= c.liquidity.value
    ensures c.liquidity.None? && d.liquidity.Some? ==> d.liquidity.value < 0.0
    ensures d.liquidity == c.liquidity ==> c.id <= d.id
  {
  }

  /** One best candidate for each identity, in the order of identities. */
  ghost predicate IsDeduplicated(cs: seq<ScanCandidate>, chosen: seq<ScanCandidate>) {
    && (forall i :: 0 <= i < |chosen| ==> IsBest(cs, chosen[i]))
    && (forall i, j :: 0 <= i < j < |chosen| ==> chosen[i].identity.value < chosen[j].identity.value)
    && (forall c :: c in cs && c.identity.Some? ==> exists i :: 0 <= i < |chosen| && chosen[i].identity == c.identity)
  }

  lemma {:induction false} LeastElement(s: set<nat>) returns (least: nat)
    requires s != {}
    ensures least in s && forall k :: k in s ==> least <= k
  {
    least :| least in s;
    if s - {least} != {} {
      var rest := LeastElement(s - {least});
      assert forall k :: k in s ==> k == least || k in s - {least};
      if rest < least { least := rest; }
    } else {
      assert forall k :: k in s ==> k !in s - {least};
    }
  }

  /** The best candidate of each identity. */
  ghost predicate SelectsBest(cs: seq<ScanCandidate>, selected: map<Identity, ScanCandidate>) {
    && (forall i :: i in selected ==> selected[i].identity == Some(i) && IsBest(cs, selected[i]))
    && (forall c :: c in cs && c.identity.Some? ==> c.identity.value in selected)
  }

  method SelectBest(cs: seq<ScanCandidate>) returns (selected: map<Identity, ScanCandidate>)
    ensures SelectsBest(cs, selected)
  {
    selected := map[];
    for n := 0 to |cs|
      invariant SelectsBest(cs[..n], selected)
    {
      var c := cs[n];
      assert forall d :: d in cs[..n + 1] <==> d in cs[..n] || d == c;
      if c.identity.Some? {
        var i := c.identity.value;
        if i !in selected || Liquidity(c) > Liquidity(selected[i])
           || (Liquidity(c) == Liquidity(selected[i]) && c.id < selected[i].id) {
          selected := selected[i := c];
        }
      }
    }
    assert cs[..|cs|] == cs;
  }

  method SortIdentities(ids: set<Identity>) returns (sorted: seq<Identity>)
    ensures forall i :: i in sorted <==> i in ids
    ensures forall j, k :: 0 <= j < k < |sorted| ==> sorted[j] < sorted[k]
  {
    sorted := [];
    var todo := ids;
    while todo != {}
      invariant todo <= ids
      invariant forall i :: i in sorted <==> i in ids && i !in todo
      invariant forall k, i :: 0 <= k < |sorted| && i in todo ==> sorted[k] < i
      invariant forall j, k :: 0 <= j < k < |sorted| ==> sorted[j] < sorted[k]
    {
      ghost var least := LeastElement(todo);
      var i :| i in todo && forall j :: j in todo ==> i <= j;
      sorted := sorted + [i];
      todo := todo - {i};
    }
  }

  method Deduplicate(cs: seq<ScanCandidate>) returns (chosen: seq<ScanCandidate>)
    ensures IsDeduplicated(cs, chosen)
  {
    var selected := SelectBest(cs);
    var sorted := SortIdentities(selected.Keys);
    assert forall i :: 0 <= i < |sorted| ==> sorted[i] in sorted;
    chosen := seq(|sorted|, i requires 0 <= i < |sorted| => selected[sorted[i]]);
    forall c | c in cs && c.identity.Some? ensures exists k :: 0 <= k < |chosen| && chosen[k].identity == c.identity {
      assert c.identity.value in sorted;
      var k :| 0 <= k < |sorted| && sorted[k] == c.identity.value;
      assert chosen[k].identity == c.identity;
    }
  }

  predicate DistinctIds(cs: seq<ScanCandidate>) {
    forall c, d :: c in cs && d in cs && c.id == d.id ==> c == d
  }

  /** The chosen candidates do not depend on the order in which they were scanned. */
  lemma DeduplicationIgnoresOrder(cs: seq<ScanCandidate>, ds: seq<ScanCandidate>, a: seq<ScanCandidate>, b: seq<ScanCandidate>)
    requires forall c :: c in cs <==> c in ds
    requires DistinctIds(cs)
    requires IsDeduplicated(cs, a) && IsDeduplicated(ds, b)
    ensures a == b
  {
    SameChoices(cs, ds, a, b);
    SameChoices(ds, cs, b, a);
    SortedChoicesAgree(a, b);
  }

  lemma SameChoices(cs: seq<ScanCandidate>, ds: seq<ScanCandidate>, a: seq<ScanCandidate>, b: seq<ScanCandidate>)
    requires forall c :: c in cs <==> c in ds
    requires DistinctIds(cs)
    requires IsDeduplicated(cs, a) && IsDeduplicated(ds, b)
    ensures forall c :: c in a ==> c in b
  {
    forall c | c in a ensures c in b {
      assert IsBest(cs, c);
      var k :| 0 <= k < |b| && b[k].identity == c.identity;
      assert IsBest(ds, b[k]);
      assert !Preferred(b[k], c) && !Preferred(c, b[k]);
      assert b[k].id == c.id;
    }
  }

  lemma {:induction false} SortedChoicesAgree(a: seq<ScanCandidate>, b: seq<ScanCandidate>)
    requires forall c :: c in a <==> c in b
    requires forall c :: c in a || c in b ==> c.identity.Some?
    requires forall i, j :: 0 <= i < j < |a| ==> a[i].identity.value < a[j].identity.value
    requires forall i, j :: 0 <= i < j < |b| ==> b[i].identity.value < b[j].identity.value
    ensures a == b
  {
    if a == [] {
      assert forall i :: 0 <= i < |b| ==> b[i] in b;
    } else {
      assert a[0] in b && b[0] in a;
      assert forall c :: c in a <==> c == a[0] || c in a[1..];
      assert forall c :: c in b <==> c == b[0] || c in b[1..];
      assert a[0] !in a[1..] && b[0] !in b[1..];
      SortedChoicesAgree(a[1..], b[1..]);
    }
  }

  /** The observations of chosen candidates, by identity. */
  function ScanOf(chosen: seq<ScanCandidate>): map<Identity, Observation>
    requires forall i :: 0 <= i < |chosen| ==> chosen[i].identity.Some?
  {
    if chosen == [] then map[]
    else
      var c := chosen[|chosen| - 1];
      ScanOf(chosen[..|chosen| - 1])[c.identity.value := c.o]
  }

  lemma {:induction false} ScanOfLess(chosen: seq<ScanCandidate>, id: Identity)
    requires forall i :: 0 <= i < |chosen| ==> chosen[i].identity.Some? && chosen[i].identity.value < id
    ensures id !in ScanOf(chosen)
  {
    if chosen != [] { ScanOfLess(chosen[..|chosen| - 1], id); }
  }

  /** One more identity in a scan changes only its own entry. */
  function IngestOne(s: Store, entries: map<Identity, Entry>, id: Identity, o: Observation, at: Time, run: nat, enabled: set<Identity>)
    : map<Identity, Entry>
  {
    if Tracked(o) then entries[id := Ingested(s.(entries := entries), id, o, at, run, enabled)] else entries
  }

  lemma IngestExtends(s: Store, scan: map<Identity, Observation>, id: Identity, o: Observation, at: Time, run: nat, enabled: set<Identity>)
    requires id !in scan
    ensures Ingest(s, scan[id := o], at, run, enabled).entries
         == IngestOne(s, Ingest(s, scan, at, run, enabled).entries, id, o, at, run, enabled)
  {
    var entries := Ingest(s, scan, at, run, enabled).entries;
    assert id in entries <==> id in s.entries;
    assert id in entries ==> entries[id] == s.entries[id];
  }

  /** Skips untracked and outdated observations, and adds or rewrites one entry for the others. */
  method IngestCandidate(s: Store, entries: map<Identity, Entry>, id: Identity, o: Observation, at: Time, run: nat, enabled: set<Identity>)
    returns (entries': map<Identity, Entry>)
    ensures entries' == IngestOne(s, entries, id, o, at, run, enabled)
  {
    if !Tracked(o) { return entries; }
    if id !in entries {
      var manual := if id in s.manual then Some(s.manual[id]) else None;
      return entries[id := FirstObserved(o, at, run, id in enabled, manual)];
    }
    if at <= entries[id].lastSeen { return entries; }
    return entries[id := Observed(entries[id], o, at, run, id in enabled)];
  }

  /** The entries after the chosen candidates, one after the other. */
  function IngestEach(s: Store, chosen: seq<ScanCandidate>, at: Time, run: nat, enabled: set<Identity>): map<Identity, Entry>
    requires forall i :: 0 <= i < |chosen| ==> chosen[i].identity.Some?
  {
    if chosen == [] then s.entries
    else
      var c := chosen[|chosen| - 1];
      IngestOne(s, IngestEach(s, chosen[..|chosen| - 1], at, run, enabled), c.identity.value, c.o, at, run, enabled)
  }

  lemma {:induction false} IngestEachIsIngest(s: Store, chosen: seq<ScanCandidate>, at: Time, run: nat, enabled: set<Identity>)
    requires forall i :: 0 <= i < |chosen| ==> chosen[i].identity.Some?
    requires forall i, j :: 0 <= i < j < |chosen| ==> chosen[i].identity.value < chosen[j].identity.value
    ensures IngestEach(s, chosen, at, run, enabled) == Ingest(s, ScanOf(chosen), at, run, enabled).entries
  {
    if chosen == [] {
      assert Ingest(s, map[], at, run, enabled).entries == s.entries;
    } else {
      var front, c := chosen[..|chosen| - 1], chosen[|chosen| - 1];
      IngestEachIsIngest(s, front, at, run, enabled);
      ScanOfLess(front, c.identity.value);
      IngestExtends(s, ScanOf(front), c.identity.value, c.o, at, run, enabled);
    }
  }

  method IngestChosen(s: Store, chosen: seq<ScanCandidate>, at: Time, run: nat, enabled: set<Identity>) returns (s': Store)
    requires forall i :: 0 <= i < |chosen| ==> chosen[i].identity.Some?
    requires forall i, j :: 0 <= i < j < |chosen| ==> chosen[i].identity.value < chosen[j].identity.value
    ensures s' == Ingest(s, ScanOf(chosen), at, run, enabled)
  {
    var entries := s.entries;
    for n := 0 to |chosen|
      invariant entries == IngestEach(s, chosen[..n], at, run, enabled)
    {
      assert chosen[..n + 1][..n] == chosen[..n];
      entries := IngestCandidate(s, entries, chosen[n].identity.value, chosen[n].o, at, run, enabled);
    }
    assert chosen[..|chosen|] == chosen;
    IngestEachIsIngest(s, chosen, at, run, enabled);
    s' := s.(entries := entries);
  }

  /** A scan of the basket: the deduplicated observations, one identity after the other. */
  method IngestObservations(s: Store, cs: seq<ScanCandidate>, at: Time, run: nat, enabled: set<Identity>)
    returns (s': Store, chosen: seq<ScanCandidate>)
    ensures IsDeduplicated(cs, chosen)
    ensures s' == Ingest(s, ScanOf(chosen), at, run, enabled)
  {
    chosen := Deduplicate(cs);
    s' := IngestChosen(s, chosen, at, run, enabled);
  }

  // ----- Recheck batches -----

  type Batch = seq<(Identity, Recheck)>

  /** The basket after the rechecks of a batch, one after the other. */
  function ApplyBatch(s: Store, batch: Batch, enabled: set<Identity>): Store {
    if batch == [] then s
    else
      var last := batch[|batch| - 1];
      RecheckEntry(ApplyBatch(s, batch[..|batch| - 1], enabled), last.0, last.1, enabled)
  }

  predicate DistinctEntries(batch: Batch) {
    forall i, j :: 0 <= i < j < |batch| ==> batch[i].0 != batch[j].0
  }

  /** Each recheck of a batch meets its entry as it was before the batch. */
  lemma {:induction false} BatchIsPointwise(s: Store, batch: Batch, enabled: set<Identity>, id: Identity)
    requires DistinctEntries(batch) && id in s.entries
    ensures ApplyBatch(s, batch, enabled).entries.Keys == s.entries.Keys && ApplyBatch(s, batch, enabled).manual == s.manual
    ensures (forall i :: 0 <= i < |batch| ==> batch[i].0 != id) ==> ApplyBatch(s, batch, enabled).entries[id] == s.entries[id]
    ensures forall i :: 0 <= i < |batch| && batch[i].0 == id ==>
      ApplyBatch(s, batch, enabled).entries[id] == Rechecked(s.entries[id], batch[i].1, id in enabled)
  {
    if batch != [] {
      var front, last := batch[..|batch| - 1], batch[|batch| - 1];
      BatchIsPointwise(s, front, enabled, id);
      assert forall i :: 0 <= i < |front| ==> front[i] == batch[i] && front[i].0 != last.0;
      assert ApplyBatch(s, batch, enabled) == RecheckEntry(ApplyBatch(s, front, enabled), last.0, last.1, enabled);
    }
  }

  lemma {:induction false} BatchKeepsKeys(s: Store, batch: Batch, enabled: set<Identity>)
    ensures ApplyBatch(s, batch, enabled).entries.Keys == s.entries.Keys && ApplyBatch(s, batch, enabled).manual == s.manual
  {
    if batch != [] {
      BatchKeepsKeys(s, batch[..|batch| - 1], enabled);
    }
  }

  /** The order of a batch does not matter. */
  lemma BatchIgnoresOrder(s: Store, a: Batch, b: Batch, enabled: set<Identity>)
    requires DistinctEntries(a) && DistinctEntries(b) && forall x :: x in a <==> x in b
    ensures ApplyBatch(s, a, enabled) == ApplyBatch(s, b, enabled)
  {
    BatchKeepsKeys(s, a, enabled);
    BatchKeepsKeys(s, b, enabled);
    forall id | id in s.entries ensures ApplyBatch(s, a, enabled).entries[id] == ApplyBatch(s, b, enabled).entries[id] {
      BatchIsPointwise(s, a, enabled, id);
      BatchIsPointwise(s, b, enabled, id);
      if i :| 0 <= i < |a| && a[i].0 == id {
        assert a[i] in b;
        var j :| 0 <= j < |b| && b[j] == a[i];
      } else {
        forall j | 0 <= j < |b| ensures b[j].0 != id { assert b[j] in a; }
      }
    }
  }

  // ----- The entries to recheck next -----

  const RECHECK_LIMIT: int := 5

  predicate Earlier(entries: map<Identity, Entry>, a: Identity, b: Identity) {
    && a in entries && b in entries && entries[a].nextCheck.Some? && entries[b].nextCheck.Some?
    && (entries[a].nextCheck.value < entries[b].nextCheck.value || (entries[a].nextCheck == entries[b].nextCheck && a < b))
  }

  function DueIds(entries: map<Identity, Entry>, now: Time): set<Identity> {
    set id | id in entries && IsDue(entries[id], now)
  }

  lemma {:induction false} EarliestDue(entries: map<Identity, Entry>, ids: set<Identity>) returns (first: Identity)
    requires ids != {} && forall id :: id in ids ==> id in entries && entries[id].nextCheck.Some?
    ensures first in ids && forall id :: id in ids && id != first ==> Earlier(entries, first, id)
  {
    first :| first in ids;
    if ids - {first} != {} {
      var rest := EarliestDue(entries, ids - {first});
      if Earlier(entries, rest, first) { first := rest; }
    }
    assert forall id :: id in ids ==> id == first || id in ids - {first};
  }

  /** The next check of the first entry is the earlier one, or the same and its identity less. */
  predicate LongerOverdue(entries: map<Identity, Entry>, a: Identity, b: Identity) {
    && a in entries && b in entries && entries[a].nextCheck.Some? && entries[b].nextCheck.Some?
    && entries[a].nextCheck.value <= entries[b].nextCheck.value && (entries[a].nextCheck == entries[b].nextCheck ==> a < b)
  }

  /** At most five due entries, the longest overdue first: whatever due entry is left out
    * comes after every chosen one, and is left out only because the limit is reached. */
  method SelectDue(entries: map<Identity, Entry>, now: Time, limit: int) returns (chosen: seq<Identity>)
    ensures |chosen| <= (if limit < 1 then 5 else Min(limit, 5))
    ensures forall id :: id in chosen ==> id in entries && IsDue(entries[id], now)
    ensures forall j, k :: 0 <= j < k < |chosen| ==> LongerOverdue(entries, chosen[j], chosen[k])
    ensures forall id :: id in entries && IsDue(entries[id], now) && id !in chosen ==>
      && |chosen| == (if limit < 1 then 5 else Min(limit, 5))
      && forall k :: 0 <= k < |chosen| ==> LongerOverdue(entries, chosen[k], id)
  {
    var bounded := if limit < 1 then RECHECK_LIMIT else Min(limit, RECHECK_LIMIT);
    chosen := [];
    var todo := DueIds(entries, now);
    while todo != {} && |chosen| < bounded
      invariant todo <= DueIds(entries, now) && |chosen| <= bounded
      invariant forall id :: id in chosen <==> id in DueIds(entries, now) && id !in todo
      invariant forall j, k :: 0 <= j < k < |chosen| ==> Earlier(entries, chosen[j], chosen[k])
      invariant forall k, id :: 0 <= k < |chosen| && id in todo ==> Earlier(entries, chosen[k], id)
      decreases bounded - |chosen|
    {
      ghost var first := EarliestDue(entries, todo);
      var next :| next in todo && forall id :: id in todo && id != next ==> Earlier(entries, next, id);
      chosen := chosen + [next];
      todo := todo - {next};
    }
  }
}
