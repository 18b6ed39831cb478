/** How long an identity stays in the basket before the machine promotes it, and what happens
  * to a promotion whose identity is in the universe but disabled.
  */
module LifecycleSeasoning {
  import opened Common
  import opened Lifecycle
  import opened LifecycleSafety
  import F = FollowUp
  import U = Universe

  predicate RecheckMove(move: Move, identity: Identity, notBefore: Time) {
    move.Basket? && move.event.WasRechecked? && move.event.id == identity && move.event.r.at >= notBefore
  }

  predicate FirstScan(e: F.Event, identity: Identity, at: Time) {
    e.Scanned? && identity in e.scan && e.at == at
  }

  lemma EventsGrow(m: Machine, move: Move)
    requires Allowed(m, move)
    ensures m.events <= Next(m, move).events
    ensures forall n :: |m.events| <= n < |Next(m, move).events| && Next(m, move).events[n].WasRechecked? ==> move == Basket(Next(m, move).events[n])
  {
  }

  predicate IsMoveBetween(moves: seq<Move>, i: nat, k: nat, e: F.Event)
    requires k <= |moves|
  {
    exists j :: i <= j < k && moves[j] == Basket(e)
  }

  /** Only another process rechecks: a recheck in the basket's history is a move of its own. */
  lemma {:induction false} RechecksAreMoves(ms: seq<Machine>, moves: seq<Move>, i: nat, k: nat)
    requires Run(ms, moves) && i <= k <= |moves|
    ensures ms[i].events <= ms[k].events
    ensures forall n :: |ms[i].events| <= n < |ms[k].events| && ms[k].events[n].WasRechecked? ==> IsMoveBetween(moves, i, k, ms[k].events[n])
  {
    if i < k {
      RechecksAreMoves(ms, moves, i, k - 1);
      EventsGrow(ms[k - 1], moves[k - 1]);
      OneMoreMove(moves, i, k, ms[i].events, ms[k - 1].events, ms[k].events);
    }
  }

  lemma OneMoreMove(moves: seq<Move>, i: nat, k: nat, first: seq<F.Event>, before: seq<F.Event>, after: seq<F.Event>)
    requires i < k <= |moves| && first <= before <= after
    requires forall n :: |first| <= n < |before| && before[n].WasRechecked? ==> IsMoveBetween(moves, i, k - 1, before[n])
    requires forall n :: |before| <= n < |after| && after[n].WasRechecked? ==> moves[k - 1] == Basket(after[n])
    ensures forall n :: |first| <= n < |after| && after[n].WasRechecked? ==> IsMoveBetween(moves, i, k, after[n])
  {
    forall n | |first| <= n < |after| && after[n].WasRechecked? ensures IsMoveBetween(moves, i, k, after[n]) {
      if n < |before| {
        assert after[n] == before[n];
        assert IsMoveBetween(moves, i, k - 1, before[n]);
      }
    }
  }

  lemma PolicyWantsAllCheckpoints(e: F.Entry, cycle: nat, scan: nat, now: Time, manual: Option<F.Verdict>)
    requires UnmetForMainRadar(e, cycle, scan, now, manual) == {}
    ensures 30 in e.completed && e.status.Candidate? && e.passed && e.security.level.Checked?
  {
    assert PromotionResolverReady !in UnmetForMainRadar(e, cycle, scan, now, manual);
    assert BasicFiltersPassed !in UnmetForMainRadar(e, cycle, scan, now, manual);
    assert SecurityChecked !in UnmetForMainRadar(e, cycle, scan, now, manual);
    assert F.CHECKPOINTS[4] == 30;
  }

  /** Whoever is promoted to the Main Radar had, before the basket was read, a recheck at least
    * 30 days after the first-seen time its basket entry still has. */
  lemma PromotionIsSeasoned(m: Machine, identity: Identity, now: Time, cycle: nat, scan: nat, read: nat) returns (n: nat)
    requires Safe(m) && MayPromote(m, identity, now, cycle, scan, read)
    ensures identity in m.s.followUp.entries
    ensures n < read && F.SeasonedAt(m.events[..read], n, identity, m.s.followUp.entries[identity].firstSeen)
  {
    var seen := m.events[..read];
    var basket := F.StoreAfter(seen);
    PolicyWantsAllCheckpoints(basket.entries[identity], cycle, scan, now,
                              if identity in basket.manual then Some(basket.manual[identity].verdict) else None);
    F.AllCheckpointsMeanSeasoned(seen, identity);
    n :| F.SeasonedAt(seen, n, identity, basket.entries[identity].firstSeen);
    F.EntriesStay(m.events, read, identity);
  }

  lemma {:induction false} FirstSeenIsScanned(events: seq<F.Event>, start: nat, identity: Identity) returns (n: nat)
    requires start <= |events| && identity !in F.StoreAfter(events[..start]).entries && identity in F.StoreAfter(events).entries
    ensures start <= n < |events| && FirstScan(events[n], identity, F.StoreAfter(events).entries[identity].firstSeen)
  {
    assert events[..|events|] == events;
    assert start < |events|;
    var front, e := events[..|events| - 1], events[|events| - 1];
    if identity in F.StoreAfter(front).entries {
      assert front[..start] == events[..start];
      F.ReachableStoresAreOk(front);
      F.EntriesEndure(F.StoreAfter(front), e, identity);
      n := FirstSeenIsScanned(front, start, identity);
      assert front[n] == events[n];
    } else {
      n := |events| - 1;
    }
  }

  /** The scan that brought an identity into the basket, and a recheck of it, by another
    * process, dated at least 30 days later; both since the i-th machine. */
  predicate ScannedThenSeasoned(ms: seq<Machine>, moves: seq<Move>, i: nat, k: nat, identity: Identity, first: nat, j: nat) {
    && i <= j < k <= |moves| && k < |ms|
    && |ms[i].events| <= first < |ms[k].events| && ms[k].events[first].Scanned?
    && FirstScan(ms[k].events[first], identity, ms[k].events[first].at)
    && RecheckMove(moves[j], identity, ms[k].events[first].at + 30 * DAY)
  }

  /** Nobody goes from New to the Main Radar in one cycle: of an identity that was not in the
    * basket at some moment of a run and is promoted later, another process has meanwhile made
    * a recheck dated at least 30 days after the scan that brought it into the basket. */
  lemma ThirtyDaysInTheBasket(ms: seq<Machine>, moves: seq<Move>, i: nat, k: nat)
    requires Run(ms, moves) && i <= k < |moves| && moves[k].BeginMainRadar?
    requires moves[k].identity !in ms[i].s.followUp.entries
    ensures exists first: nat, j: nat :: ScannedThenSeasoned(ms, moves, i, k, moves[k].identity, first, j)
  {
    var m, identity := ms[k], moves[k].identity;
    RunsAreSafe(ms, moves, i);
    RunsAreSafe(ms, moves, k);
    RechecksAreMoves(ms, moves, i, k);
    var n := PromotionIsSeasoned(m, identity, moves[k].now, moves[k].cycle, moves[k].scan, moves[k].read);
    var seen := m.events[..moves[k].read];
    assert m.events[..|ms[i].events|] == ms[i].events;
    assert seen[..n] == m.events[..n];
    if n < |ms[i].events| {
      assert ms[i].events[..n] == m.events[..n];
      F.EntriesStay(ms[i].events, n, identity);
      assert false;
    }
    assert IsMoveBetween(moves, i, k, m.events[n]);
    var j :| i <= j < k && moves[j] == Basket(m.events[n]);
    var first := FirstSeenIsScanned(m.events, |ms[i].events|, identity);
    assert ScannedThenSeasoned(ms, moves, i, k, identity, first, j);
  }

  // ----- Promotions that the universe refuses -----

  /** The universe has room for an identity it does not hold, the texts of the entry are valid,
    * and the universe itself can still change. */
  predicate Takes(u: U.UniverseStore, identity: Identity, name: Option<string>, symbol: Option<string>) {
    && (forall k :: 0 <= k < |u.current.entries| ==> u.current.entries[k].identity != identity)
    && |u.current.entries| < U.MAX_ENTRIES
    && U.ValidOptional(name, 120) && U.ValidOptional(symbol, 120)
    && u.current.version < U.LAST_VERSION && U.TimesInOrder(u.current.entries)
  }

  lemma PromotionNoteIsValid()
    ensures U.ValidText(PROMOTION_NOTE, 500)
  {
    assert PROMOTION_NOTE[0] == 's' && PROMOTION_NOTE[|PROMOTION_NOTE| - 1] == 'n';
  }

  lemma AdditionSucceedsExactly(s: Stores, identity: Identity, name: Option<string>, symbol: Option<string>, at: Time)
    ensures Addition(s, identity, name, symbol, at).Ok? <==> Takes(s.universe, identity, name, symbol)
  {
    PromotionNoteIsValid();
    var entries := s.universe.current.entries;
    var planned := U.Planned(entries, U.Add(identity, None, name, symbol, Some(PROMOTION_NOTE)), at, SYSTEM_ACTOR);
    if planned.Ok? {
      assert planned.value.entries == entries + [planned.value.entries[|entries|]];
      assert forall k :: 0 <= k < |entries| ==> planned.value.entries[k] == entries[k];
    }
  }

  /** A promotion to the Main Radar goes on from its target write exactly when the universe
    * holds the identity enabled, or can take it. */
  lemma PromotionGoesOnExactly(m: Machine, id: OpId)
    requires Safe(m) && UnderWay(m, id) && m.todo[0].AddTarget?
    ensures var w := m.todo[0];
      !Next(m, WriteNext).phase.Down? <==> w.identity in Enabled(m.s.universe) || Takes(m.s.universe, w.identity, w.name, w.symbol)
  {
    var w := m.todo[0];
    assert InOrder(m.todo, id, m.s.journal[id], ProgressOf(m, id));
    AdditionSucceedsExactly(m.s, w.identity, w.name, w.symbol, w.at);
    if w.identity in Enabled(m.s.universe) { EnabledIsHeld(m.s.universe, w.identity); }
  }

  lemma EnabledIsHeld(u: U.UniverseStore, identity: Identity)
    requires identity in Enabled(u)
    ensures U.IndexOf(u.current.entries, identity) >= 0
  {
  }

  /** What the universe answers to the target write, reason by reason. */
  lemma EachRefusalHasItsReason(s: Stores, identity: Identity, name: Option<string>, symbol: Option<string>, at: Time)
    requires Addition(s, identity, name, symbol, at).Err?
    ensures var u, e := s.universe.current, Addition(s, identity, name, symbol, at).error;
      var isHeld := exists k :: 0 <= k < |u.entries| && u.entries[k].identity == identity;
      && (e.DuplicateIdentity? <==> isHeld)
      && (e.TooManyEntries? <==> !isHeld && |u.entries| >= U.MAX_ENTRIES)
      && (e.DisplayNameInvalid? ==> !U.ValidOptional(name, 120))
      && (e.SymbolHintInvalid? ==> !U.ValidOptional(symbol, 120))
      && (e.VersionExhausted? ==> u.version >= U.LAST_VERSION)
      && (e.UpdatedAtInvalid? ==> !U.TimesInOrder(u.entries))
      && (e.DuplicateIdentity? || e.TooManyEntries? || e.DisplayNameInvalid? || e.SymbolHintInvalid? || e.VersionExhausted? || e.UpdatedAtInvalid?)
  {
    PromotionNoteIsValid();
    AdditionSucceedsExactly(s, identity, name, symbol, at);
  }

  /** Whatever the reason, a refused promotion stops the cycle with only its plan written, and a
    * recovery that runs while the identity is not enabled marks it committed and writes nothing
    * else. */
  lemma RefusedPromotionIsAbandoned(m: Machine, id: OpId, later: Time)
    requires Safe(m) && UnderWay(m, id) && m.todo[0].AddTarget?
    requires m.todo[0].identity !in Enabled(m.s.universe)
    requires !Takes(m.s.universe, m.todo[0].identity, m.todo[0].name, m.todo[0].symbol)
    ensures Next(m, WriteNext) == Stopped(m)
    ensures RecoveryWrites(m.s, later) == [Advance(id, Committed)]
    ensures Do(m.s, Advance(id, Committed)) == Some(m.s.(journal := m.s.journal[id := m.s.journal[id].(stage := Committed)]))
    ensures id !in m.touched
  {
    var w := m.todo[0];
    assert InOrder(m.todo, id, m.s.journal[id], ProgressOf(m, id));
    AdditionSucceedsExactly(m.s, w.identity, w.name, w.symbol, w.at);
    RecoveryOfOne(m.s, id, later);
  }

  /** So it goes for an identity that the universe holds disabled. */
  lemma DisabledDuplicateIsAbandoned(m: Machine, id: OpId, later: Time)
    requires Safe(m) && UnderWay(m, id) && m.todo[0].AddTarget?
    requires m.todo[0].identity !in Enabled(m.s.universe)
    requires m.todo[0].identity in U.Contents(m.s.universe.current.entries)
    ensures Allowed(m, WriteNext) && Next(m, WriteNext) == Stopped(m)
    ensures RecoveryWrites(m.s, later) == [Advance(id, Committed)]
    ensures Do(m.s, Advance(id, Committed)) == Some(m.s.(journal := m.s.journal[id := m.s.journal[id].(stage := Committed)]))
  {
    U.ContentsKeepIdentity(m.s.universe.current.entries);
    RefusedPromotionIsAbandoned(m, id, later);
  }

  // ----- What a refused promotion does to the others -----

  datatype Eligible = Eligible(identity: Identity, name: Option<string>, symbol: Option<string>)

  datatype Loop = Loop(universe: U.UniverseStore, stopped: bool)

  /** The universe after the promotions of one cycle, in the order of the basket; a refusal
    * stops the cycle, and a stopped cycle writes no receipt. */
  function PromoteInOrder(u: U.UniverseStore, order: seq<Eligible>, now: Time): Loop
    decreases |order|
  {
    if order == [] then Loop(u, false)
    else
      var e := order[0];
      var added := U.Mutated(u, U.Add(e.identity, None, e.name, e.symbol, Some(PROMOTION_NOTE)), now, SYSTEM_ACTOR);
      if e.identity in Enabled(u) then PromoteInOrder(u, order[1..], now)
      else if added.Err? then Loop(u, true)
      else PromoteInOrder(added.value, order[1..], now)
  }

  /** The i-th entry of the order is refused by the universe that the additions before it left. */
  predicate RefusedAt(u: U.UniverseStore, order: seq<Eligible>, i: nat, now: Time) {
    && i < |order|
    && var before := PromoteInOrder(u, order[..i], now);
       !before.stopped && order[i].identity !in Enabled(before.universe)
       && !Takes(before.universe, order[i].identity, order[i].name, order[i].symbol)
  }

  lemma AddsExactlyWhatItTakes(u: U.UniverseStore, e: Eligible, now: Time)
    ensures U.Mutated(u, U.Add(e.identity, None, e.name, e.symbol, Some(PROMOTION_NOTE)), now, SYSTEM_ACTOR).Ok?
       <==> Takes(u, e.identity, e.name, e.symbol)
  {
    AdditionSucceedsExactly(Stores(map[], INITIAL_FOLLOW_UP, u, map[], []), e.identity, e.name, e.symbol, now);
  }

  /** The universe after the first promotion of an order. */
  function AfterFirst(u: U.UniverseStore, e: Eligible, now: Time): U.UniverseStore {
    var added := U.Mutated(u, U.Add(e.identity, None, e.name, e.symbol, Some(PROMOTION_NOTE)), now, SYSTEM_ACTOR);
    if e.identity in Enabled(u) || added.Err? then u else added.value
  }

  lemma RefusedLater(u: U.UniverseStore, order: seq<Eligible>, i: nat, now: Time)
    requires 0 < i < |order| && (order[0].identity in Enabled(u) || Takes(u, order[0].identity, order[0].name, order[0].symbol))
    ensures RefusedAt(u, order, i, now) <==> RefusedAt(AfterFirst(u, order[0], now), order[1..], i - 1, now)
  {
    AddsExactlyWhatItTakes(u, order[0], now);
    assert order[..i][0] == order[0] && order[..i][1..] == order[1..][..i - 1];
  }

  /** A cycle stops exactly when some entry of its order is refused by the universe that the
    * additions before it left. */
  lemma {:induction false} CycleStopsExactly(u: U.UniverseStore, order: seq<Eligible>, now: Time)
    ensures PromoteInOrder(u, order, now).stopped <==> exists i: nat :: RefusedAt(u, order, i, now)
    decreases |order|
  {
    if order != [] {
      var e := order[0];
      AddsExactlyWhatItTakes(u, e, now);
      assert order[..0] == [];
      if e.identity in Enabled(u) || Takes(u, e.identity, e.name, e.symbol) {
        var next := AfterFirst(u, e, now);
        CycleStopsExactly(next, order[1..], now);
        if j: nat :| RefusedAt(next, order[1..], j, now) {
          RefusedLater(u, order, j + 1, now);
          assert RefusedAt(u, order, j + 1, now);
        }
        if i: nat :| RefusedAt(u, order, i, now) {
          assert i > 0;
          RefusedLater(u, order, i, now);
          assert RefusedAt(next, order[1..], i - 1, now);
        }
      } else {
        assert RefusedAt(u, order, 0, now);
      }
    }
  }

  /** The eligible entries that a cycle comes to, in their order, and its time. */
  datatype Cycle = Cycle(order: seq<Eligible>, now: Time)

  /** The universe after cycles one after the other. */
  function AfterCycles(u: U.UniverseStore, cycles: seq<Cycle>): U.UniverseStore {
    if cycles == [] then u
    else
      var last := cycles[|cycles| - 1];
      PromoteInOrder(AfterCycles(u, cycles[..|cycles| - 1]), last.order, last.now).universe
  }

  /** The identity is in the universe, but not enabled. */
  predicate HeldDisabled(u: U.UniverseStore, identity: Identity) {
    identity !in Enabled(u) && exists k :: 0 <= k < |u.current.entries| && u.current.entries[k].identity == identity
  }

  /** What one addition leaves of the other identities. */
  lemma AdditionLeavesOthers(u: U.UniverseStore, e: Eligible, now: Time, other: Identity)
    requires var added := U.Mutated(u, U.Add(e.identity, None, e.name, e.symbol, Some(PROMOTION_NOTE)), now, SYSTEM_ACTOR); added.Ok?
    requires other != e.identity
    ensures var u' := U.Mutated(u, U.Add(e.identity, None, e.name, e.symbol, Some(PROMOTION_NOTE)), now, SYSTEM_ACTOR).value;
      && (other in Enabled(u') <==> other in Enabled(u)) && (HeldDisabled(u, other) ==> HeldDisabled(u', other))
  {
    var s := Stores(map[], INITIAL_FOLLOW_UP, u, map[], []);
    AdditionEnables(s, e.identity, e.name, e.symbol, now);
    var u' := U.Mutated(u, U.Add(e.identity, None, e.name, e.symbol, Some(PROMOTION_NOTE)), now, SYSTEM_ACTOR).value;
    assert forall k :: 0 <= k < |u.current.entries| ==> u'.current.entries[k] == u.current.entries[k];
  }

  /** One cycle comes to a disabled duplicate: it stops there, nothing after it is promoted,
    * and the duplicate is still there for the next cycle. */
  lemma {:induction false} CycleStopsAtDuplicate(u: U.UniverseStore, order: seq<Eligible>, i: nat, now: Time, later: Identity)
    requires i < |order| && HeldDisabled(u, order[i].identity)
    requires later !in Enabled(u) && forall k :: 0 <= k < i ==> order[k].identity != later
    ensures var l := PromoteInOrder(u, order, now);
      l.stopped && HeldDisabled(l.universe, order[i].identity) && later !in Enabled(l.universe)
    decreases |order|
  {
    var e := order[0];
    if e.identity == order[i].identity {
      assert U.IndexOf(u.current.entries, e.identity) >= 0;
    } else {
      var added := U.Mutated(u, U.Add(e.identity, None, e.name, e.symbol, Some(PROMOTION_NOTE)), now, SYSTEM_ACTOR);
      assert order[1..][i - 1] == order[i];
      if e.identity in Enabled(u) {
        CycleStopsAtDuplicate(u, order[1..], i - 1, now, later);
      } else if added.Ok? {
        AdditionLeavesOthers(u, e, now, order[i].identity);
        AdditionLeavesOthers(u, e, now, later);
        CycleStopsAtDuplicate(added.value, order[1..], i - 1, now, later);
      }
    }
  }

  /** In each of the cycles the duplicate is eligible, and `later` is not before it. */
  predicate AlwaysAhead(cycles: seq<Cycle>, duplicate: Identity, later: Identity) {
    forall c :: 0 <= c < |cycles| ==> IsAhead(cycles[c], duplicate, later)
  }

  predicate IsAhead(c: Cycle, duplicate: Identity, later: Identity) {
    exists i :: 0 <= i < |c.order| && c.order[i].identity == duplicate && forall k :: 0 <= k < i ==> c.order[k].identity != later
  }

  lemma CycleStops(u: U.UniverseStore, c: Cycle, duplicate: Identity, later: Identity)
    requires HeldDisabled(u, duplicate) && later !in Enabled(u) && IsAhead(c, duplicate, later)
    ensures var l := PromoteInOrder(u, c.order, c.now);
      l.stopped && HeldDisabled(l.universe, duplicate) && later !in Enabled(l.universe)
  {
    var i :| 0 <= i < |c.order| && c.order[i].identity == duplicate && forall k :: 0 <= k < i ==> c.order[k].identity != later;
    CycleStopsAtDuplicate(u, c.order, i, c.now, later);
  }

  /** A disabled duplicate starves all that come after it: while it stays eligible, no number of
    * cycles promotes an identity that is never before it in the order, and every cycle stops. */
  lemma {:induction false} DuplicateStarvesTheRest(u: U.UniverseStore, cycles: seq<Cycle>, duplicate: Identity, later: Identity)
    requires HeldDisabled(u, duplicate) && later !in Enabled(u) && AlwaysAhead(cycles, duplicate, later)
    ensures var u' := AfterCycles(u, cycles);
      && HeldDisabled(u', duplicate) && later !in Enabled(u')
      && forall next: Cycle :: IsAhead(next, duplicate, later) ==> PromoteInOrder(u', next.order, next.now).stopped
  {
    if cycles != [] {
      var front := cycles[..|cycles| - 1];
      assert forall c :: 0 <= c < |front| ==> front[c] == cycles[c];
      DuplicateStarvesTheRest(u, front, duplicate, later);
      CycleStops(AfterCycles(u, front), cycles[|cycles| - 1], duplicate, later);
    }
    var u' := AfterCycles(u, cycles);
    forall next: Cycle | IsAhead(next, duplicate, later) ensures PromoteInOrder(u', next.order, next.now).stopped {
      CycleStops(u', next, duplicate, later);
    }
  }
}
