/** Runs that come to a promotion: one that completes, one that the universe refuses, and one
  * that another process disturbs before its commit.
  */
module LifecycleWitness {
  import opened Common
  import opened Lifecycle
  import opened LifecycleSafety
  import opened LifecycleRuns
  import opened LifecycleRecovery
  import opened LifecycleSeasoning
  import F = FollowUp
  import U = Universe

  ghost predicate ReachableMachine(m: Machine) {
    exists ms, moves :: Run(ms, moves) && ms[|moves|] == m
  }

  lemma StartsReachable(universe: U.Snapshot)
    ensures ReachableMachine(Initial(universe))
  {
    var ms: seq<Machine>, moves: seq<Move> := [Initial(universe)], [];
    assert Run(ms, moves) && ms[|moves|] == Initial(universe);
  }

  lemma MovesReachable(m: Machine, move: Move)
    requires ReachableMachine(m) && Allowed(m, move)
    ensures ReachableMachine(Next(m, move))
  {
    var ms, moves :| Run(ms, moves) && ms[|moves|] == m;
    var ms', moves' := ms + [Next(m, move)], moves + [move];
    forall k | 0 <= k < |moves'| ensures Allowed(ms'[k], moves'[k]) && ms'[k + 1] == Next(ms'[k], moves'[k]) {
      assert ms'[k] == ms[k];
      if k < |moves| { assert moves'[k] == moves[k] && ms'[k + 1] == ms[k + 1]; }
    }
    assert Run(ms', moves') && ms'[|moves'|] == Next(m, move);
  }

  lemma ReachableIsSafe(m: Machine)
    requires ReachableMachine(m)
    ensures Safe(m)
  {
    var ms, moves :| Run(ms, moves) && ms[|moves|] == m;
    RunsAreSafe(ms, moves, |moves|);
  }

  // ----- A machine left alone completes what is under way -----

  /** The writes of an operation that has reached its target are under way. */
  ghost predicate OnItsWay(m: Machine, id: OpId) {
    && ReachableMachine(m) && UnderWay(m, id) && id in m.touched
    && forall k :: 0 <= k < |m.todo| ==> !m.todo[k].AddTarget?
  }

  /** Nothing is lost on the way. */
  predicate Follows(m: Machine, m': Machine, id: OpId) {
    && m'.phase == m.phase && m.events <= m'.events && m.touched <= m'.touched && m'.strayed <= m.strayed && m'.late <= m.late
    && m'.s.inbox.Keys == m.s.inbox.Keys && m.s.followUp.entries.Keys <= m'.s.followUp.entries.Keys
    && id in m.s.journal && id in m'.s.journal && m'.s.journal[id] == m.s.journal[id].(stage := m'.s.journal[id].stage)
  }

  lemma NextIsUnderWay(m: Machine, id: OpId)
    requires Safe(m) && Incomplete(m.s, id) && m.todo != []
    ensures UnderWay(m, id)
  {
    var i :| UnderWay(m, i);
  }

  lemma WriteFollows(m: Machine, id: OpId)
    requires UnderWay(m, id) && id in m.touched && |m.todo| > 1 && !m.todo[0].AddTarget?
    ensures var m' := AfterWrite(m);
      m'.todo == m.todo[1..] && Incomplete(m'.s, id) && Follows(m, m', id) && m'.s.universe == m.s.universe
  {
    var w, rest, op := m.todo[0], m.todo[1..], m.s.journal[id];
    assert InOrder(m.todo, id, op, ProgressOf(m, id));
    if w.Advance? {
      assert Rises(rest, id, Rank(w.stage)) && CanAdvance(m.s, id, w.stage);
    }
  }

  lemma OneWriteOnItsWay(m: Machine, id: OpId) returns (m': Machine)
    requires OnItsWay(m, id) && |m.todo| > 1
    ensures OnItsWay(m', id) && m'.todo == m.todo[1..] && Follows(m, m', id) && m'.s.universe == m.s.universe
  {
    MovesReachable(m, WriteNext);
    m' := Next(m, WriteNext);
    WriteFollows(m, id);
    ReachableIsSafe(m');
    NextIsUnderWay(m', id);
  }

  /** It comes to the commit. */
  lemma {:induction false} ComesToTheCommit(m: Machine, id: OpId) returns (m': Machine)
    requires OnItsWay(m, id)
    ensures OnItsWay(m', id) && m'.todo == [Advance(id, Committed)] && Follows(m, m', id) && m'.s.universe == m.s.universe
    decreases |m.todo|
  {
    if |m.todo| == 1 {
      RisesEndsWithCommit(m.todo, id, Rank(m.s.journal[id].stage));
      m' := m;
    } else {
      var next := OneWriteOnItsWay(m, id);
      m' := ComesToTheCommit(next, id);
    }
  }

  /** The commit itself, and what it leaves. */
  lemma CommitsNext(m: Machine, id: OpId)
    requires ReachableMachine(m) && Incomplete(m.s, id) && m.todo == [Advance(id, Committed)] && id in m.touched
    ensures var m' := Next(m, WriteNext);
      && ReachableMachine(m') && Committedly(m'.s, id) && m'.s.journal[id] == m.s.journal[id].(stage := Committed)
      && m'.phase == m.phase && m'.todo == [] && m'.s.universe == m.s.universe && m'.events == m.events
      && (FullyApplied(m'.s, m'.s.journal[id]) <==> id !in m.strayed && id !in m.late)
  {
    ReachableIsSafe(m);
    MovesReachable(m, WriteNext);
    assert CanAdvance(m.s, id, Committed);
    CommitStep(m, WriteNext, id);
  }

  // ----- A seasoned identity and a universe of any kind -----

  const PASSING: F.Observation := F.Observation(None, None, 0, true, true, false)

  function Recheck(now: Time): F.Recheck {
    F.Recheck(PASSING, now, 5, Some(F.Security(F.Checked, 0)))
  }

  /** The identity is scanned, and rechecked thirty days later. */
  lemma Seasoned(universe: U.Snapshot, identity: Identity) returns (m: Machine)
    ensures ReachableMachine(m) && m.phase.Down? && m.s.journal == map[] && m.s.audit == [] && m.s.inbox == map[]
    ensures m.s.universe == Initial(universe).s.universe && m.strayed == m.late == {}
    ensures |m.events| == 2 && identity in m.s.followUp.entries && identity !in m.s.followUp.manual
    ensures m.s.followUp.entries[identity] == F.Rechecked(F.FirstObserved(PASSING, 0, 1, false, None), Recheck(30 * DAY), false)
  {
    m := Initial(universe);
    StartsReachable(universe);
    var scan := Basket(F.Scanned(map[identity := PASSING], 0, 1, {}));
    MovesReachable(m, scan);
    m := Next(m, scan);
    assert m.s.followUp.entries[identity] == F.FirstObserved(PASSING, 0, 1, false, None);
    var recheck := Basket(F.WasRechecked(identity, Recheck(30 * DAY), {}));
    MovesReachable(m, recheck);
    m := Next(m, recheck);
  }

  lemma SeasonedMeetsThePolicy(manual: Option<F.Verdict>)
    requires manual.None?
    ensures UnmetForMainRadar(F.Rechecked(F.FirstObserved(PASSING, 0, 1, false, None), Recheck(30 * DAY), false), 5, 5, 30 * DAY, manual) == {}
  {
    var e := F.FirstObserved(PASSING, 0, 1, false, None);
    F.CompletedAfterRecheck(e, Recheck(30 * DAY), false);
    assert F.ElapsedCount(0, 30 * DAY) == 5;
    assert F.Rechecked(e, Recheck(30 * DAY), false).completed == F.CHECKPOINTS[..5] == F.CHECKPOINTS;
  }

  /** A cycle that has nothing to recover and sees no token comes to its promotions. */
  lemma CycleComesToPromotions(m: Machine, now: Time) returns (m': Machine)
    requires ReachableMachine(m) && m.phase.Down? && NoneIncomplete(m.s) && m.s.inbox == map[]
    ensures ReachableMachine(m') && m'.phase.Promoting? && m'.todo == [] && m'.s == m.s && m'.events == m.events
    ensures m'.strayed == m.strayed && m'.late == m.late
  {
    NoneLeft(m.s, now);
    MovesReachable(m, StartCycle(now));
    var started := Next(m, StartCycle(now));
    MovesReachable(started, FinishRecovery({}));
    var scanned := Next(started, FinishRecovery({}));
    MovesReachable(scanned, WriteNext);
    m' := Next(scanned, WriteNext);
  }

  lemma Promotes(universe: U.Snapshot, identity: Identity) returns (m: Machine)
    ensures ReachableMachine(m) && m.phase.Promoting? && m.todo == [] && m.s.journal == map[] && m.s.audit == [] && m.s.inbox == map[]
    ensures m.s.universe == Initial(universe).s.universe && m.strayed == m.late == {}
    ensures identity in m.s.followUp.entries && MayPromote(m, identity, 30 * DAY, 5, 5, 2)
    ensures var e := F.StoreAfter(m.events[..2]).entries[identity]; e.name.None? && e.symbol.None?
  {
    var seasoned := Seasoned(universe, identity);
    ReachableIsSafe(seasoned);
    m := CycleComesToPromotions(seasoned, 30 * DAY);
    assert m.events[..2] == m.events;
    SeasonedMeetsThePolicy(None);
  }

  /** A promotion is planned, and the universe is to be written next. */
  ghost predicate IsPlanned(m: Machine, id: OpId, identity: Identity, name: Option<string>, symbol: Option<string>, now: Time) {
    && ReachableMachine(m) && m.phase.Promoting? && Incomplete(m.s, id) && UnderWay(m, id)
    && m.s.journal[id].identity == identity && m.s.journal[id].target.ToMainRadar?
    && m.todo == ToMainRadarWrites(id, m.s.journal[id], name, symbol, now)[1..]
  }

  /** The entry that a cycle has read has these texts. */
  predicate ReadsAs(m: Machine, read: nat, identity: Identity, name: Option<string>, symbol: Option<string>) {
    && read <= |m.events| && identity in F.StoreAfter(m.events[..read]).entries
    && F.StoreAfter(m.events[..read]).entries[identity].name == name && F.StoreAfter(m.events[..read]).entries[identity].symbol == symbol
  }

  lemma PlanIsWritten(m: Machine, begin: Move)
    requires begin.BeginMainRadar? && Allowed(m, begin)
    ensures var planned := AfterWrite(Next(m, begin)); var e := F.StoreAfter(m.events[..begin.read]).entries[begin.identity];
      && Allowed(Next(m, begin), WriteNext) && Next(Next(m, begin), WriteNext) == planned
      && planned.phase.Promoting? && Incomplete(planned.s, begin.id)
      && planned.s.journal[begin.id].identity == begin.identity && planned.s.journal[begin.id].target.ToMainRadar?
      && planned.todo == ToMainRadarWrites(begin.id, planned.s.journal[begin.id], e.name, e.symbol, begin.now)[1..]
      && planned.s == m.s.(journal := planned.s.journal) && planned.events == m.events
      && planned.strayed == m.strayed && planned.late == m.late
  {
  }

  lemma PlansAnyPromotion(m: Machine, begin: Move, name: Option<string>, symbol: Option<string>) returns (m': Machine)
    requires ReachableMachine(m) && begin.BeginMainRadar? && Allowed(m, begin) && ReadsAs(m, begin.read, begin.identity, name, symbol)
    ensures IsPlanned(m', begin.id, begin.identity, name, symbol, begin.now)
    ensures m'.s == m.s.(journal := m'.s.journal) && m'.events == m.events && m'.strayed == m.strayed && m'.late == m.late
  {
    PlanIsWritten(m, begin);
    MovesReachable(m, begin);
    MovesReachable(Next(m, begin), WriteNext);
    m' := Next(Next(m, begin), WriteNext);
    ReachableIsSafe(m');
    NextIsUnderWay(m', begin.id);
  }

  /** It plans the promotion and is about to write the universe. */
  lemma PlansPromotion(universe: U.Snapshot, identity: Identity) returns (m: Machine)
    ensures IsPlanned(m, 1, identity, None, None, 30 * DAY)
    ensures m.s.universe == Initial(universe).s.universe && m.strayed == m.late == {}
    ensures m.s.inbox == map[] && identity in m.s.followUp.entries
  {
    var ready := Promotes(universe, identity);
    m := PlansAnyPromotion(ready, BeginMainRadar(1, 1, identity, 30 * DAY, 5, 5, 2), None, None);
  }

  /** The next write of a promotion is refused, and recovery marks it committed. */
  ghost predicate IsRefused(m: Machine, id: OpId, identity: Identity) {
    && Incomplete(m.s, id) && m.s.journal[id].identity == identity && id !in m.touched
    && Allowed(m, WriteNext) && Next(m, WriteNext) == Stopped(m) && RecoveryWrites(m.s, 31 * DAY) == [Advance(id, Committed)]
  }

  ghost predicate IsRefusedInSomeRun(universe: U.UniverseStore, identity: Identity) {
    exists m: Machine, id: OpId :: ReachableMachine(m) && m.s.universe == universe && IsRefused(m, id, identity)
  }

  /** With any universe that neither holds the identity enabled nor can take it, some run plans
    * the promotion, stops at its next write, and leaves an operation that recovery will mark
    * committed although it wrote only the journal. */
  lemma RefusalIsReachable(universe: U.Snapshot, identity: Identity)
    requires var u := Initial(universe).s.universe; identity !in Enabled(u) && !Takes(u, identity, None, None)
    ensures IsRefusedInSomeRun(Initial(universe).s.universe, identity)
  {
    var m := PlansPromotion(universe, identity);
    var op := m.s.journal[1];
    assert m.todo[0] == AddTarget(1, op.identity, None, None, 30 * DAY);
    PlannedIsRefused(m, identity);
  }

  lemma PlannedIsRefused(m: Machine, identity: Identity)
    requires ReachableMachine(m) && UnderWay(m, 1) && m.todo[0] == AddTarget(1, identity, None, None, 30 * DAY)
    requires m.s.journal[1].identity == identity && identity !in Enabled(m.s.universe) && !Takes(m.s.universe, identity, None, None)
    ensures IsRefused(m, 1, identity)
  {
    ReachableIsSafe(m);
    RefusedPromotionIsAbandoned(m, 1, 31 * DAY);
  }

  function Holder(identity: Identity, enabled: bool): U.UniverseEntry {
    U.UniverseEntry(identity, enabled, None, None, None, 0, 0, "owner")
  }

  function FullUniverse(identity: Identity): U.Snapshot {
    U.Snapshot(1, 0, seq(U.MAX_ENTRIES, i requires 0 <= i < U.MAX_ENTRIES => Holder(identity + 1 + i, true)))
  }

  /** A universe that holds the identity disabled refuses it, and so does a full one that does
    * not hold it. */
  lemma TwoRefusingUniverses(identity: Identity)
    ensures var u := Initial(U.Snapshot(1, 0, [Holder(identity, false)])).s.universe;
      identity !in Enabled(u) && !Takes(u, identity, None, None)
    ensures var u := Initial(FullUniverse(identity)).s.universe;
      && identity !in Enabled(u) && !Takes(u, identity, None, None)
      && forall k :: 0 <= k < |u.current.entries| ==> u.current.entries[k].identity != identity
  {
    var held := Initial(U.Snapshot(1, 0, [Holder(identity, false)])).s.universe;
    assert held.current.entries[0].identity == identity;
    var full := FullUniverse(identity).entries;
    assert forall k :: 0 <= k < |full| ==> full[k] == Holder(identity + 1 + k, true);
    assert forall k :: 0 <= k < |full| ==> full[k].identity != identity;
  }

  lemma DisabledDuplicateIsReachable(identity: Identity)
    ensures IsRefusedInSomeRun(Initial(U.Snapshot(1, 0, [Holder(identity, false)])).s.universe, identity)
  {
    TwoRefusingUniverses(identity);
    RefusalIsReachable(U.Snapshot(1, 0, [Holder(identity, false)]), identity);
  }

  lemma FullUniverseIsReachable(identity: Identity)
    ensures IsRefusedInSomeRun(Initial(FullUniverse(identity)).s.universe, identity)
  {
    TwoRefusingUniverses(identity);
    RefusalIsReachable(FullUniverse(identity), identity);
  }

  // ----- A promotion that goes through, and two that are disturbed -----

  /** With any universe that can take the identity, some run comes to the last write of the
    * promotion. */
  lemma ComesToTheEnd(universe: U.Snapshot, identity: Identity) returns (m: Machine)
    requires Takes(Initial(universe).s.universe, identity, None, None)
    ensures OnItsWay(m, 1) && m.todo == [Advance(1, Committed)] && 1 in m.touched
    ensures m.s.journal[1].identity == identity && m.s.journal[1].target.ToMainRadar?
    ensures m.strayed == m.late == {} && m.s.inbox == map[] && identity in m.s.followUp.entries
  {
    var planned := PlansPromotion(universe, identity);
    ReachableIsSafe(planned);
    AdditionSucceedsExactly(planned.s, identity, None, None, 30 * DAY);
    var added := WritesTheUniverse(planned, 1, identity, None, None, 30 * DAY);
    m := ComesToTheCommit(added, 1);
  }

  lemma OnlyOneAddition(id: OpId, op: Operation, name: Option<string>, symbol: Option<string>, now: Time)
    ensures var ws := ToMainRadarWrites(id, op, name, symbol, now);
      ws[1] == AddTarget(id, op.identity, name, symbol, now) && forall k :: 2 <= k < |ws| ==> !ws[k].AddTarget?
  {
  }

  lemma TargetWriteFollows(m: Machine, id: OpId, name: Option<string>, symbol: Option<string>, now: Time)
    requires Incomplete(m.s, id) && m.todo != [] && m.todo[0] == AddTarget(id, m.s.journal[id].identity, name, symbol, now)
    requires Addition(m.s, m.s.journal[id].identity, name, symbol, now).Ok?
    ensures var m' := AfterWrite(m);
      && m'.todo == m.todo[1..] && Incomplete(m'.s, id) && id in m'.touched && Follows(m, m', id)
      && m'.s.universe == Addition(m.s, m.s.journal[id].identity, name, symbol, now).value
  {
  }

  lemma WritesTheUniverse(m: Machine, id: OpId, identity: Identity, name: Option<string>, symbol: Option<string>, now: Time) returns (m': Machine)
    requires IsPlanned(m, id, identity, name, symbol, now) && Addition(m.s, identity, name, symbol, now).Ok?
    ensures OnItsWay(m', id) && Follows(m, m', id) && m'.s.universe == Addition(m.s, identity, name, symbol, now).value
  {
    OnlyOneAddition(id, m.s.journal[id], name, symbol, now);
    TargetWriteFollows(m, id, name, symbol, now);
    MovesReachable(m, WriteNext);
    m' := Next(m, WriteNext);
    ReachableIsSafe(m');
    NextIsUnderWay(m', id);
  }

  /** Left alone, the promotion is fully applied when it is committed. */
  lemma PromotionIsReachable(universe: U.Snapshot, identity: Identity)
    requires Takes(Initial(universe).s.universe, identity, None, None)
    ensures exists m: Machine, id: OpId ::
      ReachableMachine(m) && Committedly(m.s, id) && m.s.journal[id].identity == identity && FullyApplied(m.s, m.s.journal[id])
  {
    var m := ComesToTheEnd(universe, identity);
    CommitsNext(m, 1);
    var m' := Next(m, WriteNext);
    assert ReachableMachine(m') && Committedly(m'.s, 1) && FullyApplied(m'.s, m'.s.journal[1]);
  }

  /** A review between the last store and the commit gives the token a row that says New, and
    * the operation is committed beside it. */
  lemma LateReviewIsReachable(universe: U.Snapshot, identity: Identity)
    requires Takes(Initial(universe).s.universe, identity, None, None)
    ensures exists m: Machine, id: OpId ::
      && ReachableMachine(m) && Committedly(m.s, id) && m.s.journal[id].identity == identity && id in m.touched
      && identity in m.s.inbox && m.s.inbox[identity].status.InNew? && !FullyApplied(m.s, m.s.journal[id])
  {
    var m := ComesToTheEnd(universe, identity);
    MovesReachable(m, Review({identity}));
    var reviewed := Next(m, Review({identity}));
    assert 1 in IncompleteIds(m.s);
    CommitsNext(reviewed, 1);
    var m' := Next(reviewed, WriteNext);
    assert ReachableMachine(m') && Committedly(m'.s, 1) && m'.s.inbox[identity].status.InNew?;
  }

  /** The operation is committed although its basket entry is not established. */
  ghost predicate IsCommittedAstray(m: Machine, id: OpId, identity: Identity) {
    && Committedly(m.s, id) && m.s.journal[id].identity == identity && id in m.touched
    && identity in m.s.followUp.entries && !m.s.followUp.entries[identity].status.Established? && !FullyApplied(m.s, m.s.journal[id])
  }

  /** So does a synchronisation with a universe that could not be read. */
  lemma StrayedEntryIsReachable(universe: U.Snapshot, identity: Identity)
    requires Takes(Initial(universe).s.universe, identity, None, None)
    ensures exists m: Machine, id: OpId :: ReachableMachine(m) && IsCommittedAstray(m, id, identity)
  {
    var m := ComesToTheEnd(universe, identity);
    var sync := Basket(F.MembershipSynced({}, 31 * DAY));
    MovesReachable(m, sync);
    var synced := Next(m, sync);
    EmptyUniverseTakesBack(m, identity);
    CommitsNext(synced, 1);
    var m' := Next(synced, WriteNext);
    assert m'.s.followUp == synced.s.followUp && IsCommittedAstray(m', 1, identity);
  }

  lemma EmptyUniverseTakesBack(m: Machine, identity: Identity)
    requires Incomplete(m.s, 1) && m.s.journal[1].identity == identity && m.s.journal[1].target.ToMainRadar?
    requires identity in m.s.followUp.entries
    ensures var m' := Next(m, Basket(F.MembershipSynced({}, 31 * DAY)));
      1 in m'.strayed && identity in m'.s.followUp.entries && !m'.s.followUp.entries[identity].status.Established?
  {
    assert 1 in IncompleteIds(m.s);
  }
}
