/** Theorems about every run of the lifecycle machine: whatever fails, and whenever. */
module LifecycleRuns {
  import opened Common
  import opened Lifecycle
  import opened LifecycleSafety
  import F = FollowUp
  import U = Universe

  predicate Committedly(s: Stores, id: OpId) {
    id in s.journal && s.journal[id].stage.Committed?
  }

  /** In every step of every run at most one operation is not committed, its stores are written
    * in order and never behind its journal, and the journal only grows and only rises. */
  lemma WriteOrder(ms: seq<Machine>, moves: seq<Move>, k: nat)
    requires Run(ms, moves) && k < |moves|
    ensures OneIncomplete(ms[k].s) && WrittenInOrder(ms[k]) && JournalIsBorneOut(ms[k])
    ensures RisesTo(ms[k].s.journal, ms[k + 1].s.journal)
  {
    RunsAreSafe(ms, moves, k);
    JournalRises(ms[k], moves[k]);
  }

  /** The journal keeps every operation, and its stage does not fall. */
  predicate RisesTo(before: map<OpId, Operation>, after: map<OpId, Operation>) {
    forall id :: id in before ==>
      && id in after && Rank(before[id].stage) <= Rank(after[id].stage)
      && after[id] == before[id].(stage := after[id].stage)
  }

  lemma WriteRaisesJournal(s: Stores, w: Write)
    requires Do(s, w).Some? && (w.Plan? ==> w.id !in s.journal)
    ensures RisesTo(s.journal, Do(s, w).value.journal)
  {
  }

  lemma JournalRises(m: Machine, move: Move)
    requires Safe(m) && Allowed(m, move)
    ensures RisesTo(m.s.journal, Next(m, move).s.journal)
  {
    if move.WriteNext? && Do(m.s, m.todo[0]).Some? {
      if m.todo[0].Plan? { assert AboutToPlan(m); }
      WriteRaisesJournal(m.s, m.todo[0]);
    }
  }

  /** The only writes for an operation are those of the one that is not committed. */
  lemma TouchesTheIncomplete(m: Machine, move: Move)
    requires Safe(m) && Allowed(m, move)
    ensures m.touched <= Next(m, move).touched
    ensures forall id :: id in Next(m, move).touched && id !in m.touched ==> Incomplete(m.s, id)
  {
    if move.WriteNext? && !AboutToPlan(m) && !m.todo[0].RefreshInbox? {
      var id :| UnderWay(m, id);
      assert Touches(m.todo[0]) <= {id};
    }
  }

  predicate WrittenForOperation(m: Machine, m': Machine) {
    m'.s.journal == m.s.journal && exists id :: id in m'.touched && Incomplete(m.s, id)
  }

  predicate WrittenByScan(m: Machine, m': Machine) {
    m'.s == m.s.(inbox := m'.s.inbox) && m.todo != [] && m.todo[0].RefreshInbox?
  }

  /** Between the moves of other processes nothing but an operation that is not committed, and
    * the scan's own refresh of the inbox, writes a store other than the journal. */
  lemma OnlyOperationsWrite(m: Machine, move: Move)
    requires Safe(m) && Allowed(m, move) && !move.Basket? && !move.Manage? && !move.Review?
    ensures var m' := Next(m, move);
      m'.s == m.s.(journal := m'.s.journal) || WrittenForOperation(m, m') || WrittenByScan(m, m')
  {
    if move.WriteNext? && Do(m.s, m.todo[0]).Some? && !AboutToPlan(m) && !m.todo[0].RefreshInbox? && !m.todo[0].Advance? {
      var id: OpId :| UnderWay(m, id);
      assert Touches(m.todo[0]) == {id};
      assert id in Next(m, move).touched;
    }
  }

  predicate CommitsAt(ms: seq<Machine>, j: nat, id: OpId) {
    j + 1 < |ms| && !Committedly(ms[j].s, id) && Committedly(ms[j + 1].s, id)
  }

  /** An operation that was applied: its target and the audit have it, and so have the basket
    * and the inbox exactly when no other process has disturbed them. */
  predicate Settled(m: Machine, id: OpId, op: Operation) {
    && InTarget(m.s, op.identity, op.target) && Audited(m.s.audit, op.transition.id)
    && (BasketFollows(m.s, op.identity, op.target) <==> id !in m.strayed)
    && (InboxFollows(m.s, op.identity, op.target) <==> id !in m.late)
  }

  /** A commit is all or nothing: the operation wrote only the journal, or it is fully applied
    * exactly when nothing another process did since has set it back. */
  lemma CommitIsAllOrNothing(ms: seq<Machine>, moves: seq<Move>, j: nat, id: OpId)
    requires Run(ms, moves) && CommitsAt(ms, j, id)
    ensures var m, op := ms[j + 1], ms[j + 1].s.journal[id];
      id !in m.touched || (Settled(m, id, op) && (FullyApplied(m.s, op) <==> id !in m.strayed && id !in m.late))
  {
    RunsAreSafe(ms, moves, j);
    CommitStep(ms[j], moves[j], id);
  }

  lemma CommitStep(m: Machine, move: Move, id: OpId)
    requires Safe(m) && Allowed(m, move) && !Committedly(m.s, id) && Committedly(Next(m, move).s, id)
    ensures id !in Next(m, move).touched || Settled(Next(m, move), id, Next(m, move).s.journal[id])
  {
    var m' := Next(m, move);
    assert move.WriteNext? && !AboutToPlan(m);
    var i :| UnderWay(m, i);
    assert m.todo[0] == Advance(id, Committed) && i == id;
    if InOrder(m.todo, id, m.s.journal[id], ProgressOf(m, id)) {
      assert ProgressOf(m, id) == EVERYTHING;
    }
  }

  predicate SettledAt(ms: seq<Machine>, j: nat, id: OpId, op: Operation) {
    CommitsAt(ms, j, id) && ms[j + 1].s.journal[id] == op && Settled(ms[j + 1], id, op)
  }

  /** Every committed operation of every run was applied when it was committed, or has never
    * written any store but the journal. */
  lemma {:induction false} CommittedMeansSettled(ms: seq<Machine>, moves: seq<Move>, k: nat, id: OpId)
    requires Run(ms, moves) && k <= |moves| && Committedly(ms[k].s, id)
    ensures id !in ms[k].touched
      || exists j: nat :: j < k && SettledAt(ms, j, id, ms[k].s.journal[id])
  {
    assert k > 0;
    RunsAreSafe(ms, moves, k - 1);
    if Committedly(ms[k - 1].s, id) {
      CommittedMeansSettled(ms, moves, k - 1, id);
      CommittedStays(ms[k - 1], moves[k - 1], id);
      if id in ms[k - 1].touched {
        var j: nat :| j < k - 1 && SettledAt(ms, j, id, ms[k - 1].s.journal[id]);
        assert SettledAt(ms, j, id, ms[k].s.journal[id]);
      }
    } else {
      assert CommitsAt(ms, k - 1, id);
      CommitIsAllOrNothing(ms, moves, k - 1, id);
      assert id in ms[k].touched ==> SettledAt(ms, k - 1, id, ms[k].s.journal[id]);
    }
  }

  lemma CommittedStays(m: Machine, move: Move, id: OpId)
    requires Safe(m) && Allowed(m, move) && Committedly(m.s, id)
    ensures Committedly(Next(m, move).s, id) && Next(m, move).s.journal[id] == m.s.journal[id]
    ensures id in Next(m, move).touched <==> id in m.touched
  {
    JournalRises(m, move);
    TouchesTheIncomplete(m, move);
    NothingAfterTheCommit(m, Next(m, move), id);
  }

  lemma NothingAfterTheCommit(m: Machine, m': Machine, id: OpId)
    requires RisesTo(m.s.journal, m'.s.journal) && m.touched <= m'.touched && Committedly(m.s, id)
    requires forall i :: i in m'.touched && i !in m.touched ==> Incomplete(m.s, i)
    ensures Committedly(m'.s, id) && m'.s.journal[id] == m.s.journal[id] && (id in m'.touched <==> id in m.touched)
  {
    assert m'.s.journal[id] == m.s.journal[id].(stage := m'.s.journal[id].stage);
  }

  // ----- What disturbs an operation -----

  /** A move of another process that sets an unfinished operation back: a basket operation that
    * decides about its entry with a universe that lacks the identity, or a review that gives
    * the identity its first inbox row. */
  predicate Disturbs(m: Machine, move: Move, id: OpId)
    requires id in m.s.journal
  {
    var identity := m.s.journal[id].identity;
    match move
    case Basket(e) => m.s.journal[id].target.ToMainRadar? && Membership(m.s.followUp, e, identity) == Some(false)
    case Review(seen) => identity in seen && identity !in m.s.inbox
    case _ => false
  }

  lemma OnlyOthersDisturb(m: Machine, move: Move, id: OpId)
    requires Safe(m) && Allowed(m, move)
    requires id in m.s.journal ==> id !in m.strayed && id !in m.late && !Disturbs(m, move, id)
    ensures id !in Next(m, move).strayed && id !in Next(m, move).late
  {
  }

  /** While no other process disturbs it, an operation stays undisturbed. */
  lemma {:induction false} UndisturbedStays(ms: seq<Machine>, moves: seq<Move>, k: nat, id: OpId)
    requires Run(ms, moves) && k <= |moves|
    requires forall i :: 0 <= i < k && id in ms[i].s.journal ==> !Disturbs(ms[i], moves[i], id)
    ensures id !in ms[k].strayed && id !in ms[k].late
  {
    if k > 0 {
      UndisturbedStays(ms, moves, k - 1, id);
      RunsAreSafe(ms, moves, k - 1);
      OnlyOthersDisturb(ms[k - 1], moves[k - 1], id);
    }
  }

  /** So the commit of an operation that no other process disturbs leaves it fully applied, or
    * it wrote only the journal, whatever failed before. */
  lemma UndisturbedCommitIsComplete(ms: seq<Machine>, moves: seq<Move>, j: nat, id: OpId)
    requires Run(ms, moves) && CommitsAt(ms, j, id)
    requires forall i :: 0 <= i < j && id in ms[i].s.journal ==> !Disturbs(ms[i], moves[i], id)
    ensures FullyApplied(ms[j + 1].s, ms[j + 1].s.journal[id]) || id !in ms[j + 1].touched
  {
    CommitIsAllOrNothing(ms, moves, j, id);
    UndisturbedStays(ms, moves, j, id);
    RunsAreSafe(ms, moves, j);
    assert !moves[j].Basket? && !moves[j].Review?;
    OnlyOthersDisturb(ms[j], moves[j], id);
  }

  /** What a disturbed operation lacks comes with the next cycle that sees its token: its
    * refresh of the inbox, and any synchronisation with the universe of the moment. */
  lemma NextCycleMakesGood(m: Machine, op: Operation, seen: set<Identity>, now: Time)
    requires InTarget(m.s, op.identity, op.target) && op.identity in seen
    requires op.target.ToFollowUp? ==> op.identity !in Enabled(m.s.universe)
    ensures var w := RefreshInbox(seen, m.s.followUp.entries.Keys, Enabled(m.s.universe));
      InboxFollows(Do(m.s, w).value, op.identity, op.target)
    ensures BasketFollows(m.s.(followUp := F.Sync(m.s.followUp, Enabled(m.s.universe), now)), op.identity, op.target)
  {
  }

  /** One completed recovery, after any failures, leaves every operation committed. */
  lemma CompletedRecoverySettlesAll(ms: seq<Machine>, moves: seq<Move>, k: nat)
    requires Run(ms, moves) && k <= |moves| && !ms[k].phase.Down? && ms[k].todo == []
    ensures forall id :: id in ms[k].s.journal ==> Committedly(ms[k].s, id)
  {
    RunsAreSafe(ms, moves, k);
    assert forall id :: id in ms[k].s.journal ==> Committedly(ms[k].s, id) || Incomplete(ms[k].s, id);
  }

  /** No write of a recovery ever throws, so one that is not interrupted completes. */
  lemma RecoveryNeverThrows(ms: seq<Machine>, moves: seq<Move>, k: nat)
    requires Run(ms, moves) && k < |moves| && ms[k].phase.Recovering? && moves[k].WriteNext?
    ensures ms[k + 1].phase.Recovering? && ms[k + 1].todo == ms[k].todo[1..]
  {
    RunsAreSafe(ms, moves, k);
    var m := ms[k];
    var id :| UnderWay(m, id);
    assert m.todo[0].Advance? ==> CanAdvance(m.s, id, m.todo[0].stage);
  }

  // ----- The audit -----

  predicate Recorded(m: Machine, t: Transition, id: OpId) {
    id in m.s.journal && id in m.touched && t == m.s.journal[id].transition.(reconciled := t.reconciled)
  }

  ghost predicate HasSource(m: Machine, t: Transition) {
    exists id :: Recorded(m, t, id)
  }

  /** Each audited transition belongs to an operation that wrote its stores, and no two
    * operations share a transition. */
  ghost predicate AuditIsSourced(m: Machine) {
    && (forall k :: 0 <= k < |m.s.audit| ==> HasSource(m, m.s.audit[k]))
    && (forall i, j :: i in m.s.journal && j in m.s.journal && m.s.journal[i].transition.id == m.s.journal[j].transition.id ==> i == j)
  }

  lemma SourcesStay(m: Machine, move: Move, t: Transition)
    requires Safe(m) && Allowed(m, move) && HasSource(m, t)
    ensures HasSource(Next(m, move), t)
  {
    var id :| Recorded(m, t, id);
    JournalRises(m, move);
    TouchesTheIncomplete(m, move);
    assert Recorded(Next(m, move), t, id);
  }

  predicate Appends(m: Machine, move: Move, t: Transition) {
    move.WriteNext? && m.todo != [] && m.todo[0].AppendAudit? && m.todo[0].transition == t
  }

  lemma AuditGrowsByAppending(m: Machine, move: Move, t: Transition)
    requires Allowed(m, move) && t in Next(m, move).s.audit && t !in m.s.audit
    ensures Appends(m, move, t)
  {
  }

  lemma AppendedHasSource(m: Machine, move: Move, t: Transition)
    requires Safe(m) && Allowed(m, move) && Appends(m, move, t)
    ensures HasSource(Next(m, move), t)
  {
    var id :| UnderWay(m, id);
    assert Recorded(Next(m, move), t, id);
  }

  lemma AuditStaysSourced(m: Machine, move: Move)
    requires Safe(m) && Allowed(m, move) && AuditIsSourced(m)
    ensures AuditIsSourced(Next(m, move))
  {
    var m' := Next(m, move);
    forall k | 0 <= k < |m'.s.audit| ensures HasSource(m', m'.s.audit[k]) {
      var t := m'.s.audit[k];
      if t in m.s.audit {
        SourcesStay(m, move, t);
      } else {
        AuditGrowsByAppending(m, move, t);
        AppendedHasSource(m, move, t);
      }
    }
    TransitionsStayDistinct(m, move);
  }

  lemma TransitionsStayDistinct(m: Machine, move: Move)
    requires Safe(m) && Allowed(m, move) && AuditIsSourced(m)
    ensures var j := Next(m, move).s.journal;
      forall a, b :: a in j && b in j && j[a].transition.id == j[b].transition.id ==> a == b
  {
    JournalRises(m, move);
    assert forall id :: id in Next(m, move).s.journal && id !in m.s.journal ==> AboutToPlan(m) && id == m.todo[0].id;
  }

  lemma UnwrittenIsUnaudited(m: Machine)
    requires AuditIsSourced(m)
    ensures forall id :: id in m.s.journal && id !in m.touched ==> !Audited(m.s.audit, m.s.journal[id].transition.id)
  {
    forall id, n | id in m.s.journal && id !in m.touched && 0 <= n < |m.s.audit|
      ensures m.s.audit[n].id != m.s.journal[id].transition.id
    {
      assert HasSource(m, m.s.audit[n]);
      var i :| Recorded(m, m.s.audit[n], i);
    }
  }

  /** In every run every transition is audited at most once, for the one operation it belongs
    * to, and an operation that wrote only the journal is not audited. */
  lemma {:induction false} AuditTellsTheTruth(ms: seq<Machine>, moves: seq<Move>, k: nat)
    requires Run(ms, moves) && k <= |moves|
    ensures AuditedOnce(ms[k].s) && AuditIsSourced(ms[k])
    ensures forall id :: id in ms[k].s.journal && id !in ms[k].touched ==> !Audited(ms[k].s.audit, ms[k].s.journal[id].transition.id)
  {
    RunsAreSafe(ms, moves, k);
    if k > 0 {
      AuditTellsTheTruth(ms, moves, k - 1);
      RunsAreSafe(ms, moves, k - 1);
      AuditStaysSourced(ms[k - 1], moves[k - 1]);
    }
    UnwrittenIsUnaudited(ms[k]);
  }
}
