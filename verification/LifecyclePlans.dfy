/** What the writes of a promotion leave in each store, and how the journal keeps up with them. */
module LifecyclePlans {
  import opened Common
  import opened Lifecycle
  import opened LifecycleSafety
  import opened LifecycleRuns
  import opened LifecycleSeasoning
  import opened LifecycleStores
  import F = FollowUp
  import U = Universe
  import H = UniverseHistory
  import E = UniverseEdits

  // ----- The journal keeps up -----

  /** The stage that a write to a store other than the journal brings an operation to. */
  function StageOf(w: Write): Option<Stage> {
    match w
    case IngestTarget(_, _, _, _, _, _) => Some(TargetStoreApplied)
    case AddTarget(_, _, _, _, _) => Some(TargetStoreApplied)
    case SyncNow(_, _) => Some(FollowUpSynced)
    case SyncWith(_, _, _) => Some(FollowUpSynced)
    case SetInbox(_, _, _, _) => Some(NewInboxApplied)
    case AppendAudit(_, _) => Some(AuditApplied)
    case _ => None
  }

  /** Each write to a store is followed at once by its stage in the journal, unless the journal
    * records it already, and the last write is the commit. */
  predicate KeepsUp(ws: seq<Write>, id: OpId, recorded: Stage) {
    && ws != [] && ws[|ws| - 1] == Advance(id, Committed)
    && forall k :: 0 <= k < |ws| && StageOf(ws[k]).Some? && Rank(StageOf(ws[k]).value) > Rank(recorded) ==>
         k + 1 < |ws| && ws[k + 1] == Advance(id, StageOf(ws[k]).value)
  }

  /** So in a promotion to the basket the journal is never more than one write behind. */
  lemma BasketPromotionKeepsUp(id: OpId, op: Operation, o: F.Observation, at: Time, run: nat, enabled: set<Identity>)
    ensures KeepsUp(ToFollowUpWrites(id, op, o, at, run, enabled), id, PlanCreated)
  {
  }

  /** Nor is it in one to the Main Radar. */
  lemma RadarPromotionKeepsUp(id: OpId, op: Operation, name: Option<string>, symbol: Option<string>, now: Time)
    ensures KeepsUp(ToMainRadarWrites(id, op, name, symbol, now), id, PlanCreated)
  {
  }

  lemma ReconciliationKeepsUp(id: OpId, op: Operation, enabled: set<Identity>, now: Time)
    ensures KeepsUp(ReconcileWrites(id, op, enabled, now), id, PlanCreated)
  {
  }

  lemma InboxPartKeepsUp(id: OpId, op: Operation)
    requires !op.stage.Committed?
    ensures KeepsUp(InboxPart(id, op), id, op.stage)
  {
  }

  lemma MoreKeepsUp(before: seq<Write>, ws: seq<Write>, id: OpId, recorded: Stage)
    requires KeepsUp(ws, id, recorded)
    requires forall k :: 0 <= k < |before| && StageOf(before[k]).Some? && Rank(StageOf(before[k]).value) > Rank(recorded) ==>
      k + 1 < |before| && before[k + 1] == Advance(id, StageOf(before[k]).value)
    ensures KeepsUp(before + ws, id, recorded)
  {
    var all := before + ws;
    assert forall k :: 0 <= k < |before| ==> all[k] == before[k];
    assert forall k :: |before| <= k < |all| ==> all[k] == ws[k - |before|];
  }

  lemma SyncPartKeepsUp(id: OpId, op: Operation, enabled: set<Identity>, now: Time)
    requires !op.stage.Committed?
    ensures KeepsUp(SyncPart(id, op, enabled, now), id, op.stage)
  {
    var sync := [SyncWith(id, enabled, now)] + Step(id, op.stage, FollowUpSynced);
    InboxPartKeepsUp(id, op);
    MoreKeepsUp(sync, InboxPart(id, op), id, op.stage);
    assert SyncPart(id, op, enabled, now) == sync + InboxPart(id, op);
  }

  /** And in a recovery, which records the target first when the journal does not have it. */
  lemma RecoveryKeepsUp(s: Stores, id: OpId, now: Time)
    requires Incomplete(s, id) && InTarget(s, s.journal[id].identity, s.journal[id].target)
    ensures KeepsUp(RecoverOne(s, id, now), id, s.journal[id].stage)
    ensures s.journal[id].stage.PlanCreated? ==> RecoverOne(s, id, now)[0] == Advance(id, TargetStoreApplied)
  {
    var op, enabled := s.journal[id], Enabled(s.universe);
    RecoveryInParts(s, id, now);
    if op.target.ToMainRadar? {
      SyncPartKeepsUp(id, op, enabled, now);
      MoreKeepsUp(Step(id, op.stage, TargetStoreApplied), SyncPart(id, op, enabled, now), id, op.stage);
    } else {
      InboxPartKeepsUp(id, op);
      MoreKeepsUp(Step(id, op.stage, TargetStoreApplied), InboxPart(id, op), id, op.stage);
    }
  }

  /** Recording a stage again changes nothing, and a stage the journal has passed is refused. */
  lemma RecordingTwice(s: Stores, id: OpId, stage: Stage, again: Stage)
    requires Do(s, Advance(id, stage)).Some?
    ensures var s' := Do(s, Advance(id, stage)).value;
      Do(s', Advance(id, stage)) == Some(s') && (Rank(again) < Rank(stage) ==> Do(s', Advance(id, again)).None?)
  {
    var s' := Do(s, Advance(id, stage)).value;
    assert s'.journal[id := s'.journal[id].(stage := stage)] == s'.journal;
  }

  // ----- Transitions -----

  /** The operation's transition is its own: of its identity, to the layer of its target. */
  predicate NamesItself(op: Operation) {
    op.transition.identity == op.identity && !op.transition.reconciled
    && op.transition.next == (if op.target.ToFollowUp? then InFollowUp else InMainRadar)
  }

  ghost predicate AllNamed(m: Machine) {
    && (forall id :: id in m.s.journal ==> NamesItself(m.s.journal[id]))
    && (m.todo != [] && m.todo[0].Plan? ==> NamesItself(m.todo[0].op))
  }

  lemma NoPlanAfterAWrite(m: Machine)
    requires Safe(m) && m.todo != [] && AfterWrite(m).todo != []
    ensures !AfterWrite(m).todo[0].Plan?
  {
    NextWriteIsSafe(m);
    var m' := AfterWrite(m);
    if AboutToPlan(m) {
      assert Incomplete(m'.s, m.todo[0].id);
    } else if |m.todo| > 1 || !m.todo[0].RefreshInbox? {
      var id :| UnderWay(m, id);
      if m.todo[0].Advance? {
        StageIsWritten(m, id);
        assert !m.todo[0].stage.Committed?;
      }
      assert m'.phase.Down? || Incomplete(m'.s, id);
    }
  }

  lemma RecoveryPlansNothing(s: Stores, ids: set<OpId>, now: Time)
    requires ids <= s.journal.Keys
    ensures forall k :: 0 <= k < |RecoverEach(s, ids, now)| ==> !RecoverEach(s, ids, now)[k].Plan?
  {
    if ids != {} { RecoveryPlansNothing(s, ids - {Least(ids)}, now); }
  }

  /** What a move is about to plan names itself. */
  lemma PlannedNames(m: Machine, move: Move)
    requires Safe(m) && Allowed(m, move) && AllNamed(m)
    ensures var todo := Next(m, move).todo; todo != [] && todo[0].Plan? ==> NamesItself(todo[0].op)
  {
    if move.StartCycle? { RecoveryPlansNothing(m.s, IncompleteIds(m.s), move.now); }
    if move.WriteNext? && AfterWrite(m).todo != [] { NoPlanAfterAWrite(m); }
  }

  lemma MoveKeepsNames(m: Machine, move: Move)
    requires Safe(m) && Allowed(m, move) && AllNamed(m)
    ensures AllNamed(Next(m, move))
  {
    var m' := Next(m, move);
    JournalRises(m, move);
    PlannedNames(m, move);
    forall id | id in m'.s.journal && id !in m.s.journal ensures NamesItself(m'.s.journal[id]) {
      assert AboutToPlan(m) && m'.s.journal[id] == m.todo[0].op;
    }
  }

  /** In every run each operation of the journal has a transition of its own identity to the layer
    * of its target. What is audited is such a transition, so the audit never names another
    * token or layer than the one that was promoted. */
  lemma {:induction false} JournalNamesItsTransitions(ms: seq<Machine>, moves: seq<Move>, k: nat)
    requires Run(ms, moves) && k <= |moves|
    ensures AllNamed(ms[k])
    ensures forall t :: t in ms[k].s.audit ==>
      exists id :: Recorded(ms[k], t, id) && t.identity == ms[k].s.journal[id].identity && t.next == LayerOf(ms[k].s.journal[id].target)
  {
    if k > 0 {
      JournalNamesItsTransitions(ms, moves, k - 1);
      RunsAreSafe(ms, moves, k - 1);
      MoveKeepsNames(ms[k - 1], moves[k - 1]);
    }
    AuditTellsTheTruth(ms, moves, k);
    forall t | t in ms[k].s.audit
      ensures exists id :: Recorded(ms[k], t, id) && t.identity == ms[k].s.journal[id].identity && t.next == LayerOf(ms[k].s.journal[id].target)
    {
      var n :| 0 <= n < |ms[k].s.audit| && ms[k].s.audit[n] == t;
      assert HasSource(ms[k], ms[k].s.audit[n]);
      var id :| Recorded(ms[k], t, id);
      assert NamesItself(ms[k].s.journal[id]);
    }
  }

  /** A promotion audits its transition, and marks it as reconciled exactly when the universe held
    * the identity already. */
  lemma ReconciledExactly(s: Stores, id: OpId, op: Operation, name: Option<string>, symbol: Option<string>, now: Time, t: Transition)
    requires op.stage.PlanCreated? && !op.transition.reconciled
    requires AppendAudit(id, t) in TargetWrites(s, id, op, name, symbol, now)
    ensures t == op.transition.(reconciled := t.reconciled)
    ensures t.reconciled <==> Addition(s, op.identity, name, symbol, now) == Err(U.DuplicateIdentity) && op.identity in Enabled(s.universe)
    ensures !TargetOutcome(s, op.identity, name, symbol, now).Refused?
  {
    match TargetOutcome(s, op.identity, name, symbol, now)
    case Added => OneAudit(id, op, t);
    case AlreadyThere => OneAudit(id, Reconciled(op), t);
    case Refused =>
  }

  /** The writes from the inbox on append the operation's own transition. */
  lemma OneAudit(id: OpId, op: Operation, t: Transition)
    ensures AppendAudit(id, t) in InboxPart(id, op) <==> t == op.transition
  {
    var audit := AuditPart(id, op);
    assert audit[0] == AppendAudit(id, op.transition);
    assert forall w :: w in audit ==> w in InboxPart(id, op);
  }

  // ----- What the writes leave -----

  /** The universe entry of a promotion has the texts the basket gave it, is enabled, and says
    * that the system added it, and when; no other entry changes. */
  lemma PromotedEntry(s: Stores, identity: Identity, name: Option<string>, symbol: Option<string>, at: Time)
    requires Addition(s, identity, name, symbol, at).Ok? && H.DistinctIdentities(s.universe.current.entries)
    ensures var a, b := U.Contents(s.universe.current.entries), U.Contents(Addition(s, identity, name, symbol, at).value.current.entries);
      && identity !in a && b == a[identity := U.UniverseEntry(identity, true, name, symbol, Some(PROMOTION_NOTE), at, at, "system-lifecycle")]
  {
    E.MutationEdits(s.universe, U.Add(identity, None, name, symbol, Some(PROMOTION_NOTE)), at, SYSTEM_ACTOR);
    var a, b := U.Contents(s.universe.current.entries), U.Contents(Addition(s, identity, name, symbol, at).value.current.entries);
    assert forall k :: k != identity ==> (k in a <==> k in b) && (k in a ==> a[k] == b[k]);
    assert b[identity] == U.UniverseEntry(identity, true, name, symbol, Some(PROMOTION_NOTE), at, at, "system-lifecycle");
  }

  /** The entry of a passing token seen for the first time. */
  predicate IsFirstEntry(e: F.Entry, o: F.Observation, at: Time, run: nat, member: bool) {
    && e.firstSeen == e.lastSeen == at && e.run == run && e.passed == o.passed
    && e.name == o.name && e.symbol == o.symbol && e.market == o.market
    && (member ==> e.status.Established? && e.nextCheck.None?)
    && (!member ==> e.status.New? && e.nextCheck == Some(at + DAY))
  }

  /** The basket has a first entry more, and is as before otherwise. */
  predicate OneMoreEntry(before: F.Store, after: F.Store, identity: Identity, o: F.Observation, at: Time, run: nat, given: set<Identity>) {
    && after.manual == before.manual && after.entries.Keys == before.entries.Keys + {identity}
    && (forall k :: k in before.entries ==> k in after.entries && after.entries[k] == before.entries[k])
    && identity in after.entries && IsFirstEntry(after.entries[identity], o, at, run, identity in given)
  }

  lemma ScanOfOne(s: F.Store, identity: Identity, o: F.Observation, at: Time, run: nat, given: set<Identity>)
    requires identity !in s.entries && o.newEmerging
    ensures OneMoreEntry(s, F.Ingest(s, map[identity := o], at, run, given), identity, o, at, run, given)
  {
  }

  /** A promotion to the basket plans first and then writes the entry of the scan that the cycle
    * read: seen at its time, in its run, with its texts, market and filter result, due a day
    * later unless the universe held the identity. No other entry and no other store changes. */
  lemma BasketPromotionIsItsScan(m: Machine, begin: Move)
    requires begin.BeginFollowUp? && Allowed(m, begin) && begin.identity !in m.s.followUp.entries
    ensures AfterWrite(Next(m, begin)).todo != []
    ensures var s := AfterWrite(AfterWrite(Next(m, begin))).s;
      && begin.id in s.journal && s == m.s.(followUp := s.followUp, journal := m.s.journal[begin.id := s.journal[begin.id]])
      && s.journal[begin.id].identity == begin.identity && s.journal[begin.id].stage.PlanCreated?
      && OneMoreEntry(m.s.followUp, s.followUp, begin.identity, begin.c.o, begin.at, begin.run, begin.universeRead)
  {
    ScanOfOne(m.s.followUp, begin.identity, begin.c.o, begin.at, begin.run, begin.universeRead);
    var planned := AfterWrite(Next(m, begin));
    assert planned.todo[0] == IngestTarget(begin.id, begin.identity, begin.c.o, begin.at, begin.run, begin.universeRead);
  }

  /** The inbox write moves the row of its identity, if there is one elsewhere, and puts the
    * transition first in it; it keeps at most 64 of them and touches no other row. */
  lemma InboxRowMoves(s: Stores, id: OpId, identity: Identity, target: Target, t: TransitionId)
    ensures var after := Do(s, SetInbox(id, identity, target, t)).value.inbox;
      && after.Keys == s.inbox.Keys && (forall k :: k in s.inbox && k != identity ==> after[k] == s.inbox[k])
      && (identity in s.inbox && s.inbox[identity].status == LayerOf(target) ==> after[identity] == s.inbox[identity])
      && (identity in s.inbox && s.inbox[identity].status != LayerOf(target) ==>
            RowMoved(s.inbox[identity], after[identity], LayerOf(target), t))
  {
  }

  predicate RowMoved(before: InboxRow, after: InboxRow, to: Layer, t: TransitionId) {
    && after.status == to && after.archived == before.archived && after.rejected == before.rejected
    && after.transitions != [] && after.transitions[0] == t && after.transitions[1..] <= before.transitions
    && |after.transitions| == Min(64, |before.transitions| + 1)
  }

  /** The audit write puts an unknown transition first, keeps the order of the others and at most
    * 5000 in all. */
  lemma AuditGrowsAtItsHead(s: Stores, id: OpId, t: Transition)
    ensures var after := Do(s, AppendAudit(id, t)).value.audit;
      if Audited(s.audit, t.id) then after == s.audit
      else after != [] && after[0] == t && after[1..] <= s.audit && |after| == Min(5000, |s.audit| + 1)
  {
  }

  /** When a cycle has recovered, its first write brings each token of the scan to the layer it is
    * found in: the Main Radar before the basket, and else where its row says, or New. Rows that
    * were set aside stay so, transitions are kept, and no other row changes. */
  lemma CycleRefreshesTheInbox(m: Machine, seen: set<Identity>, identity: Identity)
    requires Allowed(m, FinishRecovery(seen))
    ensures var started := Next(m, FinishRecovery(seen));
      var before, after := m.s.inbox, Next(started, WriteNext).s.inbox;
      && started.todo != [] && (identity in after <==> identity in before || identity in seen)
      && (identity in before && identity !in seen ==> after[identity] == before[identity])
      && (identity in seen ==>
            after[identity].status == if identity in Enabled(m.s.universe) then InMainRadar
                                      else if identity in m.s.followUp.entries then InFollowUp
                                      else if identity in before then before[identity].status else InNew)
      && (identity in seen && identity in before ==> after[identity] == before[identity].(status := after[identity].status))
      && (identity in seen && identity !in before ==> after[identity] == InboxRow(after[identity].status, false, false, []))
  {
  }

  /** A review adds a new row for each token it has not seen, and changes no other. */
  lemma ReviewAddsRows(m: Machine, seen: set<Identity>, identity: Identity)
    ensures var after := Next(m, Review(seen)).s.inbox;
      && (identity in after <==> identity in m.s.inbox || identity in seen)
      && (identity in m.s.inbox ==> after[identity] == m.s.inbox[identity])
      && (identity in seen && identity !in m.s.inbox ==> after[identity] == InboxRow(InNew, false, false, []))
  {
  }
}
