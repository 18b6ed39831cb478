/** What every reachable state of the lifecycle machine satisfies, whatever fails and when. */
module LifecycleSafety {
  import opened Common
  import opened Lifecycle
  import F = FollowUp
  import U = Universe

  /** How far the stores show an operation to be. */
  datatype Progress = Progress(applied: bool, synced: bool, inboxed: bool, audited: bool)

  const NOTHING: Progress := Progress(false, false, false, false)

  predicate InboxFollows(s: Stores, identity: Identity, target: Target) {
    identity in s.inbox ==> s.inbox[identity].status == LayerOf(target)
  }

  predicate BasketFollows(s: Stores, identity: Identity, target: Target) {
    target.ToMainRadar? && identity in s.followUp.entries ==> s.followUp.entries[identity].status.Established?
  }

  /** What another process has undone or got ahead of since the operation's own writes. */
  datatype Excuse = Excuse(basket: bool, inbox: bool)

  const NONE: Excuse := Excuse(false, false)

  function Shown(s: Stores, op: Operation, x: Excuse): Progress {
    var applied := InTarget(s, op.identity, op.target);
    Progress(applied, applied && (BasketFollows(s, op.identity, op.target) || x.basket),
             InboxFollows(s, op.identity, op.target) || x.inbox, Audited(s.audit, op.transition.id))
  }

  function ExcuseOf(m: Machine, id: OpId): Excuse {
    Excuse(id in m.strayed, id in m.late)
  }

  function ProgressOf(m: Machine, id: OpId): Progress
    requires id in m.s.journal
  {
    Shown(m.s, m.s.journal[id], ExcuseOf(m, id))
  }

  const EVERYTHING: Progress := Progress(true, true, true, true)

  /** The identity is in the target store, its inbox row, if it has one, is at the target
    * layer, the transition is audited, and for the Main Radar the basket entry is established. */
  predicate FullyApplied(s: Stores, op: Operation) {
    Shown(s, op, NONE) == EVERYTHING
  }

  /** The stores are at least as far as a stage says. */
  predicate Bears(p: Progress, stage: Stage) {
    && (Rank(stage) >= 1 ==> p.applied)
    && (Rank(stage) >= 2 ==> p.synced)
    && (Rank(stage) >= 3 ==> p.inboxed)
    && (Rank(stage) >= 4 ==> p.audited)
  }

  predicate AtLeast(p: Progress, q: Progress) {
    (q.applied ==> p.applied) && (q.synced ==> p.synced) && (q.inboxed ==> p.inboxed) && (q.audited ==> p.audited)
  }

  /** Pending writes that apply an operation in order: no store is written, and no stage is
    * recorded, before the writes it relies on. */
  predicate InOrder(todo: seq<Write>, id: OpId, op: Operation, p: Progress) {
    todo == [] ||
    var w, rest := todo[0], todo[1..];
    match w
    case Advance(i, stage) => i == id && Bears(p, stage) && InOrder(rest, id, op, p)
    case IngestTarget(i, identity, o, _, _, _) =>
      i == id && identity == op.identity && op.target.ToFollowUp? && o.newEmerging && InOrder(rest, id, op, p.(applied := true, synced := true))
    case AddTarget(i, identity, _, _, _) =>
      i == id && identity == op.identity && op.target.ToMainRadar? && InOrder(rest, id, op, p.(applied := true))
    case SyncNow(i, _) =>
      i == id && op.target.ToMainRadar? && p.applied && InOrder(rest, id, op, p.(synced := true))
    case SyncWith(i, enabled, _) =>
      i == id && op.target.ToMainRadar? && p.applied && op.identity in enabled && InOrder(rest, id, op, p.(synced := true))
    case SetInbox(i, identity, target, transitionId) =>
      i == id && identity == op.identity && target == op.target && transitionId == op.transition.id
      && p.applied && p.synced && InOrder(rest, id, op, p.(inboxed := true))
    case AppendAudit(i, t) =>
      i == id && t == op.transition.(reconciled := t.reconciled) && p.applied && p.synced && p.inboxed && InOrder(rest, id, op, p.(audited := true))
    case _ => false
  }

  /** The recorded stages rise from one to the next and end with the commit. */
  predicate Rises(todo: seq<Write>, id: OpId, rank: nat) {
    if rank == Rank(Committed) then todo == []
    else if todo == [] then false
    else if todo[0].Advance? then todo[0].id == id && rank < Rank(todo[0].stage) && Rises(todo[1..], id, Rank(todo[0].stage))
    else (todo[0].AddTarget? ==> rank == Rank(PlanCreated)) && Rises(todo[1..], id, rank)
  }

  ghost predicate OneIncomplete(s: Stores) {
    forall i, j :: Incomplete(s, i) && Incomplete(s, j) ==> i == j
  }

  ghost predicate NoneIncomplete(s: Stores) {
    forall i :: !Incomplete(s, i)
  }

  /** The journal never runs ahead of the stores. */
  ghost predicate JournalIsBorneOut(m: Machine) {
    forall id :: Incomplete(m.s, id) ==> Bears(ProgressOf(m, id), m.s.journal[id].stage)
  }

  /** A disturbed operation shows it: its basket entry is not established, or its inbox row
    * is not at the target layer. */
  ghost predicate ExcusesAreReal(m: Machine) {
    && m.strayed + m.late <= m.s.journal.Keys
    && forall id :: Incomplete(m.s, id) ==>
         var op := m.s.journal[id];
         (id in m.strayed ==> !BasketFollows(m.s, op.identity, op.target)) && (id in m.late ==> !InboxFollows(m.s, op.identity, op.target))
  }

  /** An operation that has written a store but is not committed is in its target store. */
  ghost predicate TouchedAreApplied(m: Machine) {
    && m.touched <= m.s.journal.Keys
    && forall id :: Incomplete(m.s, id) && id in m.touched ==> ProgressOf(m, id).applied
  }

  predicate Noted(s: Stores, op: Operation) {
    op.identity in s.inbox && op.transition.id in s.inbox[op.identity].transitions
  }

  /** The stores of an operation that is not committed were written in order: what is audited
    * is applied everywhere, and what is noted in the inbox is in the target and the basket. */
  ghost predicate WrittenInOrder(m: Machine) {
    forall id :: Incomplete(m.s, id) ==>
      var op, p := m.s.journal[id], ProgressOf(m, id);
      && (Audited(m.s.audit, op.transition.id) ==> p == EVERYTHING)
      && (Noted(m.s, op) ==> p.applied && p.synced && p.inboxed)
  }

  predicate AuditedOnce(s: Stores) {
    forall i, j :: 0 <= i < j < |s.audit| ==> s.audit[i].id != s.audit[j].id
  }

  /** The pending writes complete the operation under way, or abandon an untouched one. */
  predicate UnderWay(m: Machine, id: OpId) {
    && Incomplete(m.s, id) && m.todo != []
    && (m.phase.Recovering? ==> forall k :: 0 <= k < |m.todo| ==> !m.todo[k].AddTarget?)
    && Rises(m.todo, id, Rank(m.s.journal[id].stage))
    && (InOrder(m.todo, id, m.s.journal[id], ProgressOf(m, id)) || (m.todo == [Advance(id, Committed)] && id !in m.touched))
  }

  ghost predicate AboutToPlan(m: Machine) {
    && m.phase.Promoting? && m.todo != [] && m.todo[0].Plan? && NoneIncomplete(m.s)
    && m.todo[0].op.stage.PlanCreated? && Fresh(m.s, m.todo[0].id, m.todo[0].op.transition.id)
    && Rises(m.todo[1..], m.todo[0].id, 0) && InOrder(m.todo[1..], m.todo[0].id, m.todo[0].op, NOTHING)
  }

  /** The pending writes of a running cycle. */
  ghost predicate Pending(m: Machine) {
    || (m.phase.Down? && m.todo == [])
    || (!m.phase.Down? && m.todo == [] && NoneIncomplete(m.s))
    || (m.phase.Promoting? && |m.todo| == 1 && m.todo[0].RefreshInbox? && NoneIncomplete(m.s))
    || AboutToPlan(m)
    || (!m.phase.Down? && exists id :: UnderWay(m, id))
  }

  ghost predicate Safe(m: Machine) {
    && OneIncomplete(m.s) && JournalIsBorneOut(m) && WrittenInOrder(m) && ExcusesAreReal(m) && TouchedAreApplied(m) && AuditedOnce(m.s)
    && m.s.followUp == F.StoreAfter(m.events)
    && Pending(m)
  }

  // ----- Lemmas about pending writes -----

  lemma {:induction false} MoreProgressKeepsOrder(todo: seq<Write>, id: OpId, op: Operation, p: Progress, like: Operation, q: Progress)
    requires InOrder(todo, id, op, p) && AtLeast(q, p)
    requires like == op.(stage := like.stage, transition := op.transition.(reconciled := like.transition.reconciled))
    ensures InOrder(todo, id, like, q)
  {
    if todo != [] {
      var w, rest := todo[0], todo[1..];
      match w
      case Advance(_, _) => MoreProgressKeepsOrder(rest, id, op, p, like, q);
      case IngestTarget(_, _, _, _, _, _) => MoreProgressKeepsOrder(rest, id, op, p.(applied := true, synced := true), like, q.(applied := true, synced := true));
      case AddTarget(_, _, _, _, _) => MoreProgressKeepsOrder(rest, id, op, p.(applied := true), like, q.(applied := true));
      case SyncNow(_, _) => MoreProgressKeepsOrder(rest, id, op, p.(synced := true), like, q.(synced := true));
      case SyncWith(_, _, _) => MoreProgressKeepsOrder(rest, id, op, p.(synced := true), like, q.(synced := true));
      case SetInbox(_, _, _, _) => MoreProgressKeepsOrder(rest, id, op, p.(inboxed := true), like, q.(inboxed := true));
      case AppendAudit(_, _) => MoreProgressKeepsOrder(rest, id, op, p.(audited := true), like, q.(audited := true));
    }
  }

  /** The progress that a write adds. */
  function Added(p: Progress, w: Write): Progress {
    match w
    case IngestTarget(_, _, _, _, _, _) => p.(applied := true, synced := true)
    case AddTarget(_, _, _, _, _) => p.(applied := true)
    case SyncNow(_, _) => p.(synced := true)
    case SyncWith(_, _, _) => p.(synced := true)
    case SetInbox(_, _, _, _) => p.(inboxed := true)
    case AppendAudit(_, _) => p.(audited := true)
    case _ => p
  }

  lemma AppendAudits(audit: seq<Transition>, t: Transition)
    requires forall i, j :: 0 <= i < j < |audit| ==> audit[i].id != audit[j].id
    ensures var after := AppendTransition(audit, t);
      Audited(after, t.id) && forall i, j :: 0 <= i < j < |after| ==> after[i].id != after[j].id
  {
    var after := AppendTransition(audit, t);
    if !Audited(audit, t.id) {
      assert after[0].id == t.id;
      forall i, j | 0 <= i < j < |after| ensures after[i].id != after[j].id {
        assert after[j] == audit[j - 1];
        assert i > 0 ==> after[i] == audit[i - 1];
      }
    }
  }

  lemma AdditionEnables(s: Stores, identity: Identity, name: Option<string>, symbol: Option<string>, at: Time)
    requires Addition(s, identity, name, symbol, at).Ok?
    ensures Enabled(Addition(s, identity, name, symbol, at).value) == Enabled(s.universe) + {identity}
  {
    var before, after := s.universe.current.entries, Addition(s, identity, name, symbol, at).value.current.entries;
    assert after == before + [after[|before|]];
    assert after[|before|].identity == identity && after[|before|].enabled;
    assert forall e :: e in after <==> e in before || e == after[|before|];
    assert identity in Enabled(Addition(s, identity, name, symbol, at).value) by {
      assert after[|before|] in after;
    }
  }

  /** The excuse that an operation's own write leaves. */
  function Excused(x: Excuse, w: Write): Excuse {
    Excuse(x.basket && !w.SyncNow? && !w.SyncWith?, x.inbox && !w.SetInbox?)
  }

  /** A write in order leaves an operation at least as far, and adds its own progress. */
  lemma WriteShows(s: Stores, id: OpId, w: Write, rest: seq<Write>, x: Excuse)
    requires Incomplete(s, id) && AuditedOnce(s) && InOrder([w] + rest, id, s.journal[id], Shown(s, s.journal[id], x))
    requires Do(s, w).Some?
    ensures var s', op := Do(s, w).value, s.journal[id];
      && AtLeast(Shown(s', op, Excused(x, w)), Added(Shown(s, op, x), w))
      && AuditedOnce(s')
      && (!w.Advance? ==> s'.journal == s.journal)
      && (Audited(s'.audit, op.transition.id) ==> Audited(s.audit, op.transition.id) || w.AppendAudit?)
      && (Noted(s', op) ==> Noted(s, op) || w.SetInbox?)
      && InOrder(rest, id, op, Added(Shown(s, op, x), w))
  {
    assert ([w] + rest)[1..] == rest;
    match w
    case AddTarget(_, identity, name, symbol, at) => AdditionEnables(s, identity, name, symbol, at);
    case AppendAudit(_, t) => AppendAudits(s.audit, t);
    case _ =>
  }

  // ----- Every move keeps the machine safe -----

  /** The write under way adds its own progress, and the writes after it stay in order. */
  lemma StoreWriteShows(m: Machine, id: OpId)
    requires Safe(m) && UnderWay(m, id) && !m.todo[0].Advance? && Do(m.s, m.todo[0]).Some?
    ensures var m', op := AfterWrite(m), m.s.journal[id];
      && m'.s.journal == m.s.journal && m'.touched <= m.touched + {id} && AuditedOnce(m'.s)
      && AtLeast(ProgressOf(m', id), Added(ProgressOf(m, id), m.todo[0]))
      && (Audited(m'.s.audit, op.transition.id) ==> Audited(m.s.audit, op.transition.id) || m.todo[0].AppendAudit?)
      && (Noted(m'.s, op) ==> Noted(m.s, op) || m.todo[0].SetInbox?)
      && InOrder(m.todo[1..], id, op, ProgressOf(m', id))
  {
    var w, rest, op := m.todo[0], m.todo[1..], m.s.journal[id];
    var m' := AfterWrite(m);
    assert m.todo == [w] + rest;
    WriteShows(m.s, id, w, rest, ExcuseOf(m, id));
    assert ExcuseOf(m', id) == Excused(ExcuseOf(m, id), w);
    MoreProgressKeepsOrder(rest, id, op, Added(ProgressOf(m, id), w), op, ProgressOf(m', id));
  }

  /** The write under way, when it does not throw and is not a journal write. */
  lemma StoreWriteIsSafe(m: Machine, id: OpId)
    requires Safe(m) && UnderWay(m, id) && !m.todo[0].Advance? && Do(m.s, m.todo[0]).Some?
    ensures Safe(AfterWrite(m))
  {
    var m' := AfterWrite(m);
    assert InOrder(m.todo, id, m.s.journal[id], ProgressOf(m, id));
    assert Rises(m.todo[1..], id, Rank(m.s.journal[id].stage));
    StoreWriteShows(m, id);
    WritesAreEvents(m);
    ExcusesStayReal(m, id);
    MoreIsShown(m, m', id);
    assert UnderWay(m', id);
  }

  lemma ExcusesStayReal(m: Machine, id: OpId)
    requires Safe(m) && UnderWay(m, id) && !m.todo[0].Advance? && Do(m.s, m.todo[0]).Some?
    ensures ExcusesAreReal(AfterWrite(m))
  {
    var m', op := AfterWrite(m), m.s.journal[id];
    assert InOrder(m.todo, id, op, ProgressOf(m, id)) && m'.s.journal == m.s.journal;
    assert forall i :: Incomplete(m'.s, i) ==> Incomplete(m.s, i) && i == id;
  }

  lemma MoreIsShown(m: Machine, m': Machine, id: OpId)
    requires Safe(m) && Incomplete(m.s, id) && m'.s.journal == m.s.journal && m'.touched <= m.touched + {id}
    requires var op := m.s.journal[id];
      && AtLeast(ProgressOf(m', id), ProgressOf(m, id)) && (id in m'.touched ==> ProgressOf(m', id).applied)
      && (Audited(m'.s.audit, op.transition.id) ==> ProgressOf(m', id) == EVERYTHING)
      && (Noted(m'.s, op) ==> ProgressOf(m', id).applied && ProgressOf(m', id).synced && ProgressOf(m', id).inboxed)
    ensures OneIncomplete(m'.s) && JournalIsBorneOut(m') && WrittenInOrder(m') && TouchedAreApplied(m')
  {
    assert forall i :: Incomplete(m'.s, i) ==> Incomplete(m.s, i);
    assert forall i :: Incomplete(m'.s, i) ==> i == id;
  }

  lemma OneMoreEvent(events: seq<F.Event>, e: F.Event)
    ensures F.StoreAfter(events + [e]) == F.StoreStep(F.StoreAfter(events), e)
  {
    assert (events + [e])[..|events|] == events;
  }

  lemma BasketEventsTell(s: Stores, w: Write)
    requires Do(s, w).Some?
    ensures BasketEvents(s, w) == [] ==> Do(s, w).value.followUp == s.followUp
    ensures BasketEvents(s, w) != [] ==> |BasketEvents(s, w)| == 1 && Do(s, w).value.followUp == F.StoreStep(s.followUp, BasketEvents(s, w)[0])
  {
  }

  lemma WritesAreEvents(m: Machine)
    requires m.todo != [] && Do(m.s, m.todo[0]).Some? && m.s.followUp == F.StoreAfter(m.events)
    ensures AfterWrite(m).s.followUp == F.StoreAfter(AfterWrite(m).events)
  {
    var added := BasketEvents(m.s, m.todo[0]);
    BasketEventsTell(m.s, m.todo[0]);
    if added == [] {
      assert m.events + added == m.events;
    } else {
      assert added == [added[0]];
      OneMoreEvent(m.events, added[0]);
    }
  }

  lemma StageIsWritten(m: Machine, id: OpId)
    requires Safe(m) && UnderWay(m, id) && m.todo[0].Advance?
    ensures m.todo[0].id == id && Rises(m.todo[1..], id, Rank(m.todo[0].stage)) && CanAdvance(m.s, id, m.todo[0].stage)
    ensures AfterWrite(m) == m.(s := m.s.(journal := m.s.journal[id := m.s.journal[id].(stage := m.todo[0].stage)]), todo := m.todo[1..])
  {
    assert m.touched + {} == m.touched && m.events + [] == m.events && m.strayed - {} == m.strayed && m.late - {} == m.late;
  }

  lemma StageKeepsRecords(m: Machine, m': Machine, id: OpId, stage: Stage)
    requires Safe(m) && Incomplete(m.s, id) && m'.s == m.s.(journal := m.s.journal[id := m.s.journal[id].(stage := stage)])
    requires m'.touched == m.touched && m'.events == m.events && m'.strayed == m.strayed && m'.late == m.late
    requires stage.Committed? || Bears(ProgressOf(m, id), stage)
    ensures OneIncomplete(m'.s) && JournalIsBorneOut(m') && WrittenInOrder(m') && ExcusesAreReal(m') && TouchedAreApplied(m')
    ensures stage.Committed? ==> NoneIncomplete(m'.s)
  {
    assert ProgressOf(m', id) == ProgressOf(m, id);
    assert forall i :: Incomplete(m'.s, i) ==> Incomplete(m.s, i);
    assert forall i :: Incomplete(m'.s, i) ==> i == id;
  }

  lemma StageWriteIsSafe(m: Machine, id: OpId)
    requires Safe(m) && UnderWay(m, id) && m.todo[0].Advance?
    ensures Safe(AfterWrite(m)) && Do(m.s, m.todo[0]).Some?
  {
    var w, rest, op := m.todo[0], m.todo[1..], m.s.journal[id];
    var m' := AfterWrite(m);
    StageIsWritten(m, id);
    StageKeepsRecords(m, m', id, w.stage);
    if !w.stage.Committed? {
      MoreProgressKeepsOrder(rest, id, op, ProgressOf(m, id), op.(stage := w.stage), ProgressOf(m, id));
      assert UnderWay(m', id);
    }
  }

  /** The target write that throws: the cycle stops, or the operation goes on from the target
    * it found. */
  lemma ThrowIsSafe(m: Machine, id: OpId)
    requires Safe(m) && UnderWay(m, id) && !m.todo[0].Advance? && Do(m.s, m.todo[0]).None?
    ensures Safe(AfterWrite(m))
  {
    var w, op := m.todo[0], m.s.journal[id];
    assert InOrder(m.todo, id, op, ProgressOf(m, id)) && w.AddTarget? && op.stage.PlanCreated?;
    var m' := AfterWrite(m);
    if !m'.phase.Down? {
      ReconciliationIsInOrder(m.s, id, w.at, ExcuseOf(m, id));
      ReconciliationInParts(id, op, Enabled(m.s.universe), w.at);
      assert UnderWay(m', id);
    }
  }

  lemma PlanWriteIsSafe(m: Machine)
    requires Safe(m) && AboutToPlan(m)
    ensures Safe(AfterWrite(m))
  {
    var id, op, rest := m.todo[0].id, m.todo[0].op, m.todo[1..];
    var m' := AfterWrite(m);
    WritesAreEvents(m);
    MoreProgressKeepsOrder(rest, id, op, NOTHING, op, ProgressOf(m', id));
    assert UnderWay(m', id);
  }

  lemma RefreshWriteIsSafe(m: Machine)
    requires Safe(m) && |m.todo| == 1 && m.todo[0].RefreshInbox? && NoneIncomplete(m.s) && m.phase.Promoting?
    ensures Safe(AfterWrite(m))
  {
    WritesAreEvents(m);
    assert forall id :: Incomplete(AfterWrite(m).s, id) ==> Incomplete(m.s, id);
  }

  lemma NextWriteIsSafe(m: Machine)
    requires Safe(m) && m.todo != []
    ensures Safe(AfterWrite(m))
  {
    if AboutToPlan(m) {
      PlanWriteIsSafe(m);
    } else if |m.todo| == 1 && m.todo[0].RefreshInbox? && NoneIncomplete(m.s) && m.phase.Promoting? {
      RefreshWriteIsSafe(m);
    } else {
      var id :| UnderWay(m, id);
      if m.todo[0].Advance? { StageWriteIsSafe(m, id); }
      else if Do(m.s, m.todo[0]).Some? { StoreWriteIsSafe(m, id); }
      else { ThrowIsSafe(m, id); }
    }
  }

  // ----- Recovery -----

  lemma PrependStage(rest: seq<Write>, id: OpId, op: Operation, p: Progress, before: nat, to: Stage)
    requires InOrder(rest, id, op, p) && Rises(rest, id, Max(Rank(op.stage), Rank(to)))
    requires Bears(p, to) && before < Rank(to)
    ensures InOrder(Step(id, op.stage, to) + rest, id, op, p) && Rises(Step(id, op.stage, to) + rest, id, Max(Rank(op.stage), before))
  {
    if Rank(to) > Rank(op.stage) {
      assert (Step(id, op.stage, to) + rest)[1..] == rest;
    } else {
      assert Step(id, op.stage, to) + rest == rest;
    }
  }

  /** What recovery writes from the audit on, and from the inbox on. */
  function AuditPart(id: OpId, op: Operation): seq<Write> {
    [AppendAudit(id, op.transition)] + (Step(id, op.stage, AuditApplied) + Step(id, op.stage, Committed))
  }

  function InboxPart(id: OpId, op: Operation): seq<Write> {
    [SetInbox(id, op.identity, op.target, op.transition.id)] + (Step(id, op.stage, NewInboxApplied) + AuditPart(id, op))
  }

  function SyncPart(id: OpId, op: Operation, enabled: set<Identity>, now: Time): seq<Write> {
    [SyncWith(id, enabled, now)] + (Step(id, op.stage, FollowUpSynced) + InboxPart(id, op))
  }

  lemma RecoveryInParts(s: Stores, id: OpId, now: Time)
    requires id in s.journal && InTarget(s, s.journal[id].identity, s.journal[id].target)
    ensures var op := s.journal[id];
      RecoverOne(s, id, now) == Step(id, op.stage, TargetStoreApplied)
        + if op.target.ToMainRadar? then SyncPart(id, op, Enabled(s.universe), now) else InboxPart(id, op)
  {
    var op := s.journal[id];
    assert InboxPart(id, op) == [SetInbox(id, op.identity, op.target, op.transition.id)] + Step(id, op.stage, NewInboxApplied)
      + [AppendAudit(id, op.transition)] + Step(id, op.stage, AuditApplied) + Step(id, op.stage, Committed);
  }

  lemma InboxPartIsInOrder(id: OpId, op: Operation, inboxed: bool, audited: bool, before: nat)
    requires before < Rank(NewInboxApplied) && !op.stage.Committed?
    ensures InOrder(InboxPart(id, op), id, op, Progress(true, true, inboxed, audited))
    ensures Rises(InboxPart(id, op), id, Max(Rank(op.stage), before))
  {
    var done := Step(id, op.stage, Committed);
    PrependStage([], id, op, Progress(true, true, true, true), 4, Committed);
    assert done + [] == done;
    PrependStage(done, id, op, Progress(true, true, true, true), 3, AuditApplied);
    assert AuditPart(id, op)[1..] == Step(id, op.stage, AuditApplied) + done;
    PrependStage(AuditPart(id, op), id, op, Progress(true, true, true, audited), before, NewInboxApplied);
    assert InboxPart(id, op)[1..] == Step(id, op.stage, NewInboxApplied) + AuditPart(id, op);
  }

  lemma SyncPartIsInOrder(id: OpId, op: Operation, enabled: set<Identity>, now: Time, p: Progress)
    requires !op.stage.Committed? && op.target.ToMainRadar? && p.applied && op.identity in enabled
    ensures InOrder(SyncPart(id, op, enabled, now), id, op, p)
    ensures Rises(SyncPart(id, op, enabled, now), id, Max(Rank(op.stage), 1))
  {
    InboxPartIsInOrder(id, op, p.inboxed, p.audited, 2);
    PrependStage(InboxPart(id, op), id, op, Progress(true, true, p.inboxed, p.audited), 1, FollowUpSynced);
    assert SyncPart(id, op, enabled, now)[1..] == Step(id, op.stage, FollowUpSynced) + InboxPart(id, op);
  }

  /** Recovery of an operation that has reached its target completes it in order. */
  lemma RecoverOneIsInOrder(s: Stores, id: OpId, now: Time, x: Excuse)
    requires Incomplete(s, id) && InTarget(s, s.journal[id].identity, s.journal[id].target)
    ensures var op, ws := s.journal[id], RecoverOne(s, id, now);
      ws != [] && InOrder(ws, id, op, Shown(s, op, x)) && Rises(ws, id, Rank(op.stage))
  {
    var op, enabled := s.journal[id], Enabled(s.universe);
    var p := Shown(s, op, x);
    RecoveryInParts(s, id, now);
    if op.target.ToMainRadar? {
      SyncPartIsInOrder(id, op, enabled, now, p);
      PrependStage(SyncPart(id, op, enabled, now), id, op, p, 0, TargetStoreApplied);
    } else {
      InboxPartIsInOrder(id, op, p.inboxed, p.audited, 1);
      PrependStage(InboxPart(id, op), id, op, p, 0, TargetStoreApplied);
    }
  }

  lemma RecoveryAddsNothing(s: Stores, id: OpId, now: Time)
    requires id in s.journal
    ensures forall k :: 0 <= k < |RecoverOne(s, id, now)| ==> !RecoverOne(s, id, now)[k].AddTarget?
  {
    if InTarget(s, s.journal[id].identity, s.journal[id].target) {
      RecoveryInParts(s, id, now);
      var op := s.journal[id];
      assert forall k :: 0 <= k < |InboxPart(id, op)| ==> !InboxPart(id, op)[k].AddTarget?;
    }
  }

  /** So does a promotion that finds its identity in the universe already. */
  lemma ReconciliationIsInOrder(s: Stores, id: OpId, now: Time, x: Excuse)
    requires Incomplete(s, id) && s.journal[id].target.ToMainRadar? && s.journal[id].identity in Enabled(s.universe)
    ensures var op := s.journal[id];
      var ws := ReconcileWrites(id, op, Enabled(s.universe), now);
      InOrder(ws, id, op, Shown(s, op, x)) && Rises(ws, id, Rank(PlanCreated))
  {
    var op, enabled := s.journal[id], Enabled(s.universe);
    var p, planned := Shown(s, op, x), op.(stage := PlanCreated, transition := op.transition.(reconciled := true));
    SyncPartIsInOrder(id, planned, enabled, now, p);
    PrependStage(SyncPart(id, planned, enabled, now), id, planned, p, 0, TargetStoreApplied);
    ReconciliationInParts(id, op, enabled, now);
    MoreProgressKeepsOrder(ReconcileWrites(id, op, enabled, now), id, planned, p, op, p);
  }

  lemma ReconciliationInParts(id: OpId, op: Operation, enabled: set<Identity>, now: Time)
    requires op.target.ToMainRadar?
    ensures var ws, planned := ReconcileWrites(id, op, enabled, now), op.(stage := PlanCreated, transition := op.transition.(reconciled := true));
      && ws == Step(id, PlanCreated, TargetStoreApplied) + SyncPart(id, planned, enabled, now)
      && forall k :: 0 <= k < |ws| ==> !ws[k].AddTarget?
  {
  }

  lemma RecoveryOfOne(s: Stores, id: OpId, now: Time)
    requires OneIncomplete(s) && Incomplete(s, id)
    ensures RecoveryWrites(s, now) == RecoverOne(s, id, now)
  {
    assert forall i :: i in IncompleteIds(s) <==> Incomplete(s, i);
    assert IncompleteIds(s) == {id};
    assert IncompleteIds(s) - {id} == {};
    assert RecoverEach(s, {id}, now) == RecoverOne(s, id, now) + RecoverEach(s, {id} - {id}, now);
  }

  lemma StartIsUnderWay(m: Machine, now: Time, id: OpId)
    requires Safe(m) && m.phase.Down? && Incomplete(m.s, id)
    ensures UnderWay(Next(m, StartCycle(now)), id)
  {
    var op := m.s.journal[id];
    RecoveryOfOne(m.s, id, now);
    RecoveryAddsNothing(m.s, id, now);
    if InTarget(m.s, op.identity, op.target) { RecoverOneIsInOrder(m.s, id, now, ExcuseOf(m, id)); }
    else { assert Rises([], id, 5); }
  }

  lemma StartIsSafe(m: Machine, now: Time)
    requires Safe(m) && m.phase.Down?
    ensures Safe(Next(m, StartCycle(now)))
  {
    if id :| Incomplete(m.s, id) {
      StartIsUnderWay(m, now, id);
    } else {
      assert forall i :: i in IncompleteIds(m.s) <==> Incomplete(m.s, i);
      assert IncompleteIds(m.s) == {};
    }
  }

  // ----- Plans -----

  lemma FollowUpPlanIsInOrder(id: OpId, op: Operation, o: F.Observation, at: Time, run: nat, enabled: set<Identity>)
    requires op.target.ToFollowUp? && o.newEmerging
    ensures var rest := ToFollowUpWrites(id, op, o, at, run, enabled)[1..];
      rest != [] && Rises(rest, id, 0) && InOrder(rest, id, op, NOTHING)
  {
    var ws := ToFollowUpWrites(id, op, o, at, run, enabled);
    assert Rises(ws[6..], id, 3) && Rises(ws[4..], id, 1);
    assert InOrder(ws[6..], id, op, Progress(true, true, true, true));
    assert InOrder(ws[4..], id, op, Progress(true, true, true, false));
    assert InOrder(ws[2..], id, op, Progress(true, true, false, false));
  }

  lemma MainRadarPlanIsInOrder(id: OpId, op: Operation, name: Option<string>, symbol: Option<string>, now: Time)
    requires op.target.ToMainRadar?
    ensures var rest := ToMainRadarWrites(id, op, name, symbol, now)[1..];
      rest != [] && Rises(rest, id, 0) && InOrder(rest, id, op, NOTHING)
  {
    var ws := ToMainRadarWrites(id, op, name, symbol, now);
    assert Rises(ws[8..], id, 3) && Rises(ws[6..], id, 2) && Rises(ws[4..], id, 1);
    assert InOrder(ws[8..], id, op, Progress(true, true, true, true));
    assert InOrder(ws[6..], id, op, Progress(true, true, true, false));
    assert InOrder(ws[4..], id, op, Progress(true, true, false, false));
    assert InOrder(ws[2..], id, op, Progress(true, false, false, false));
  }

  lemma PlanIsSafe(m: Machine, move: Move)
    requires Safe(m) && Allowed(m, move) && (move.BeginFollowUp? || move.BeginMainRadar?)
    ensures Safe(Next(m, move))
  {
    match move
    case BeginFollowUp(id, transition, identity, c, _, now, at, run, universeRead) =>
      var op := Operation(identity, ToFollowUp, PlanCreated, Transition(transition, identity, InFollowUp, now, false));
      FollowUpPlanIsInOrder(id, op, c.o, at, run, universeRead);
    case BeginMainRadar(id, transition, identity, now, _, _, read) =>
      var op := Operation(identity, ToMainRadar, PlanCreated, Transition(transition, identity, InMainRadar, now, false));
      var e := F.StoreAfter(m.events[..read]).entries[identity];
      MainRadarPlanIsInOrder(id, op, e.name, e.symbol, now);
  }

  // ----- Other processes -----

  /** What other processes do to the basket, the inbox and the universe takes nothing back from
    * an operation that is not committed, but for what the machine records as disturbed. */
  lemma OutsideWriteIsSafe(m: Machine, m': Machine)
    requires Safe(m) && m' == m.(s := m'.s, events := m'.events, strayed := m'.strayed, late := m'.late)
    requires m'.s.journal == m.s.journal && m'.s.audit == m.s.audit
    requires m'.s.followUp == F.StoreAfter(m'.events) && ExcusesAreReal(m')
    requires forall identity :: identity in m'.s.inbox ==>
      if identity in m.s.inbox then m'.s.inbox[identity].transitions == m.s.inbox[identity].transitions
      else m'.s.inbox[identity].transitions == []
    requires forall id :: Incomplete(m.s, id) ==> AtLeast(ProgressOf(m', id), ProgressOf(m, id))
    ensures Safe(m')
  {
    assert forall id :: Incomplete(m'.s, id) <==> Incomplete(m.s, id);
    assert forall id :: Incomplete(m.s, id) && Noted(m'.s, m.s.journal[id]) ==> Noted(m.s, m.s.journal[id]);
    PendingStays(m, m');
  }

  lemma PendingStays(m: Machine, m': Machine)
    requires Pending(m) && m'.phase == m.phase && m'.todo == m.todo && m'.touched == m.touched
    requires m'.s.journal == m.s.journal && m'.s.audit == m.s.audit
    requires forall identity :: identity in m'.s.inbox ==>
      if identity in m.s.inbox then m'.s.inbox[identity].transitions == m.s.inbox[identity].transitions
      else m'.s.inbox[identity].transitions == []
    requires forall id :: Incomplete(m.s, id) ==> AtLeast(ProgressOf(m', id), ProgressOf(m, id))
    ensures Pending(m')
  {
    assert forall id :: Incomplete(m'.s, id) <==> Incomplete(m.s, id);
    if id :| UnderWay(m, id) {
      var op := m.s.journal[id];
      if InOrder(m.todo, id, op, ProgressOf(m, id)) {
        MoreProgressKeepsOrder(m.todo, id, op, ProgressOf(m, id), op, ProgressOf(m', id));
      }
      assert UnderWay(m', id);
    }
  }

  /** A basket operation of another process, with whatever universe: it leaves the entry of an
    * unfinished operation established, or the machine records that it strayed. */
  lemma BasketKeepsProgress(m: Machine, e: F.Event, id: OpId)
    requires Incomplete(m.s, id)
    ensures AtLeast(ProgressOf(Next(m, Basket(e)), id), ProgressOf(m, id))
  {
  }

  lemma StrayedEntriesAreNotEstablished(m: Machine, e: F.Event, id: OpId)
    requires Safe(m) && Incomplete(m.s, id) && id in Strayed(m, e)
    ensures var op := m.s.journal[id]; !BasketFollows(Next(m, Basket(e)).s, op.identity, op.target)
  {
  }

  lemma BasketMoveIsSafe(m: Machine, e: F.Event)
    requires Safe(m)
    ensures Safe(Next(m, Basket(e)))
  {
    var m' := Next(m, Basket(e));
    OneMoreEvent(m.events, e);
    forall id | Incomplete(m.s, id) ensures AtLeast(ProgressOf(m', id), ProgressOf(m, id)) {
      BasketKeepsProgress(m, e, id);
    }
    forall id | Incomplete(m'.s, id) && id in m'.strayed
      ensures !BasketFollows(m'.s, m'.s.journal[id].identity, m'.s.journal[id].target)
    {
      StrayedEntriesAreNotEstablished(m, e, id);
    }
    assert forall id :: Incomplete(m'.s, id) ==> Incomplete(m.s, id);
    OutsideWriteIsSafe(m, m');
  }

  lemma ReviewMoveIsSafe(m: Machine, seen: set<Identity>)
    requires Safe(m)
    ensures Safe(Next(m, Review(seen)))
  {
    var m' := Next(m, Review(seen));
    assert forall id :: Incomplete(m'.s, id) ==> Incomplete(m.s, id) && id in IncompleteIds(m.s);
    OutsideWriteIsSafe(m, m');
  }

  lemma ManageMoveIsSafe(m: Machine, mutation: U.Mutation, now: Time, actor: string)
    requires Safe(m) && Allowed(m, Manage(mutation, now, actor))
    ensures Safe(Next(m, Manage(mutation, now, actor)))
  {
    var m' := Next(m, Manage(mutation, now, actor));
    forall id | Incomplete(m.s, id) ensures AtLeast(ProgressOf(m', id), ProgressOf(m, id)) {
      assert id in IncompleteIds(m.s);
    }
    assert forall id :: Incomplete(m'.s, id) ==> Incomplete(m.s, id);
    OutsideWriteIsSafe(m, m');
  }

  lemma EveryMoveIsSafe(m: Machine, move: Move)
    requires Safe(m) && Allowed(m, move)
    ensures Safe(Next(m, move))
  {
    match move
    case StartCycle(now) => StartIsSafe(m, now);
    case BeginFollowUp(_, _, _, _, _, _, _, _, _) => PlanIsSafe(m, move);
    case BeginMainRadar(_, _, _, _, _, _, _) => PlanIsSafe(m, move);
    case WriteNext => NextWriteIsSafe(m);
    case Basket(e) => BasketMoveIsSafe(m, e);
    case Review(seen) => ReviewMoveIsSafe(m, seen);
    case Manage(mutation, now, actor) => ManageMoveIsSafe(m, mutation, now, actor);
    case _ =>
  }

  /** Every machine of every run is safe. */
  lemma {:induction false} RunsAreSafe(ms: seq<Machine>, moves: seq<Move>, k: nat)
    requires Run(ms, moves) && k <= |moves|
    ensures Safe(ms[k])
  {
    if k > 0 {
      RunsAreSafe(ms, moves, k - 1);
      EveryMoveIsSafe(ms[k - 1], moves[k - 1]);
    }
  }
}
