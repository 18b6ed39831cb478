/** Promotions between the layers New, Follow-up and Main Radar: several stores that are
  * written one after the other, an operation journal, and the recovery that reads it.
  *
  * Every store write is one atomic step. A write may throw, and the process may fail between
  * any two writes, also during recovery. Between the steps other processes may scan, recheck,
  * verify and synchronise the follow-up basket and may manage the universe.
  */
module Lifecycle {
  import opened Common
  import F = FollowUp
  import U = Universe

  type OpId = nat
  type TransitionId = nat

  datatype Layer = InNew | InFollowUp | InMainRadar

  datatype Target = ToFollowUp | ToMainRadar

  datatype Stage = PlanCreated | TargetStoreApplied | FollowUpSynced | NewInboxApplied | AuditApplied | Committed

  function Rank(stage: Stage): nat {
    match stage
    case PlanCreated => 0
    case TargetStoreApplied => 1
    case FollowUpSynced => 2
    case NewInboxApplied => 3
    case AuditApplied => 4
    case Committed => 5
  }

  function LayerOf(target: Target): Layer {
    match target
    case ToFollowUp => InFollowUp
    case ToMainRadar => InMainRadar
  }

  /** An audited transition; `reconciled` marks one that found its target already there. */
  datatype Transition = Transition(id: TransitionId, identity: Identity, next: Layer, at: Time, reconciled: bool)

  datatype Operation = Operation(identity: Identity, target: Target, stage: Stage, transition: Transition)

  datatype InboxRow = InboxRow(status: Layer, archived: bool, rejected: bool, transitions: seq<TransitionId>)

  datatype Stores = Stores(
    journal: map<OpId, Operation>,
    followUp: F.Store,
    universe: U.UniverseStore,
    inbox: map<Identity, InboxRow>,
    audit: seq<Transition>)

  const MAX_AUDIT: nat := 5_000
  const MAX_ROW_TRANSITIONS: nat := 64
  const SYSTEM_ACTOR: string := "system-lifecycle"
  const PROMOTION_NOTE: string := "system_lifecycle" + "_policy_v1" + " automatic" + " promotion"

  function Enabled(u: U.UniverseStore): set<Identity> {
    set e | e in u.current.entries && e.enabled :: e.identity
  }

  predicate InTarget(s: Stores, identity: Identity, target: Target) {
    match target
    case ToFollowUp => identity in s.followUp.entries
    case ToMainRadar => identity in Enabled(s.universe)
  }

  // ----- Single writes -----

  function SetInboxStatus(inbox: map<Identity, InboxRow>, identity: Identity, target: Target, id: TransitionId): map<Identity, InboxRow> {
    if identity in inbox && inbox[identity].status != LayerOf(target)
    then inbox[identity := inbox[identity].(status := LayerOf(target), transitions := U.Take([id] + inbox[identity].transitions, MAX_ROW_TRANSITIONS))]
    else inbox
  }

  predicate Audited(audit: seq<Transition>, id: TransitionId) {
    exists k :: 0 <= k < |audit| && audit[k].id == id
  }

  function AppendTransition(audit: seq<Transition>, t: Transition): seq<Transition> {
    if Audited(audit, t.id) then audit else U.Take([t] + audit, MAX_AUDIT)
  }

  /** The inbox after a scan: rows of the tokens seen follow the layers they are found in. */
  function RefreshedInbox(inbox: map<Identity, InboxRow>, seen: set<Identity>, followUp: set<Identity>, main: set<Identity>): map<Identity, InboxRow> {
    map id | id in inbox.Keys + seen ::
      if id !in seen then inbox[id]
      else
        var row := if id in inbox then inbox[id] else InboxRow(InNew, false, false, []);
        row.(status := if id in main then InMainRadar else if id in followUp then InFollowUp else row.status)
  }

  datatype Write =
    | Plan(id: OpId, op: Operation)
    | Advance(id: OpId, stage: Stage)
    | IngestTarget(id: OpId, identity: Identity, o: F.Observation, at: Time, run: nat, enabled: set<Identity>)
    | AddTarget(id: OpId, identity: Identity, name: Option<string>, symbol: Option<string>, at: Time)
    | SyncNow(id: OpId, at: Time)
    | SyncWith(id: OpId, enabled: set<Identity>, at: Time)
    | SetInbox(id: OpId, identity: Identity, target: Target, transitionId: TransitionId)
    | AppendAudit(id: OpId, transition: Transition)
    | RefreshInbox(seen: set<Identity>, followUp: set<Identity>, main: set<Identity>)

  predicate CanAdvance(s: Stores, id: OpId, stage: Stage) {
    id in s.journal && Rank(stage) >= Rank(s.journal[id].stage)
  }

  function Addition(s: Stores, identity: Identity, name: Option<string>, symbol: Option<string>, at: Time): Result<U.UniverseStore, U.MutationError> {
    U.Mutated(s.universe, U.Add(identity, None, name, symbol, Some(PROMOTION_NOTE)), at, SYSTEM_ACTOR)
  }

  /** The stores after a write, or nothing when the write throws and leaves them as they are. */
  function Do(s: Stores, w: Write): Option<Stores> {
    match w
    case Plan(id, op) => Some(s.(journal := s.journal[id := op]))
    case Advance(id, stage) =>
      if CanAdvance(s, id, stage) then Some(s.(journal := s.journal[id := s.journal[id].(stage := stage)])) else None
    case IngestTarget(_, identity, o, at, run, enabled) => Some(s.(followUp := F.Ingest(s.followUp, map[identity := o], at, run, enabled)))
    case AddTarget(_, identity, name, symbol, at) =>
      var added := Addition(s, identity, name, symbol, at);
      if added.Ok? then Some(s.(universe := added.value)) else None
    case SyncNow(_, at) => Some(s.(followUp := F.Sync(s.followUp, Enabled(s.universe), at)))
    case SyncWith(_, enabled, at) => Some(s.(followUp := F.Sync(s.followUp, enabled, at)))
    case SetInbox(_, identity, target, id) => Some(s.(inbox := SetInboxStatus(s.inbox, identity, target, id)))
    case AppendAudit(_, t) => Some(s.(audit := AppendTransition(s.audit, t)))
    case RefreshInbox(seen, followUp, main) => Some(s.(inbox := RefreshedInbox(s.inbox, seen, followUp, main)))
  }

  /** What a write does to the follow-up basket, as an event of the basket's own history. */
  function BasketEvents(s: Stores, w: Write): seq<F.Event> {
    match w
    case IngestTarget(_, identity, o, at, run, enabled) => [F.Scanned(map[identity := o], at, run, enabled)]
    case SyncNow(_, at) => [F.MembershipSynced(Enabled(s.universe), at)]
    case SyncWith(_, enabled, at) => [F.MembershipSynced(enabled, at)]
    case _ => []
  }

  /** The operation that a write to a store other than the journal is made for. */
  function Touches(w: Write): set<OpId> {
    match w
    case IngestTarget(id, _, _, _, _, _) => {id}
    case AddTarget(id, _, _, _, _) => {id}
    case SyncNow(id, _) => {id}
    case SyncWith(id, _, _) => {id}
    case SetInbox(id, _, _, _) => {id}
    case AppendAudit(id, _) => {id}
    case _ => {}
  }

  // ----- The writes of a promotion and of a recovery -----

  function ToFollowUpWrites(id: OpId, op: Operation, o: F.Observation, at: Time, run: nat, enabled: set<Identity>): seq<Write> {
    [ Plan(id, op),
      IngestTarget(id, op.identity, o, at, run, enabled),
      Advance(id, TargetStoreApplied),
      SetInbox(id, op.identity, ToFollowUp, op.transition.id),
      Advance(id, NewInboxApplied),
      AppendAudit(id, op.transition),
      Advance(id, AuditApplied),
      Advance(id, Committed) ]
  }

  function ToMainRadarWrites(id: OpId, op: Operation, name: Option<string>, symbol: Option<string>, now: Time): seq<Write> {
    [ Plan(id, op),
      AddTarget(id, op.identity, name, symbol, now),
      Advance(id, TargetStoreApplied),
      SyncNow(id, now),
      Advance(id, FollowUpSynced),
      SetInbox(id, op.identity, ToMainRadar, op.transition.id),
      Advance(id, NewInboxApplied),
      AppendAudit(id, op.transition),
      Advance(id, AuditApplied),
      Advance(id, Committed) ]
  }

  /** What follows when the universe already has the identity, enabled. */
  function ReconcileWrites(id: OpId, op: Operation, enabled: set<Identity>, now: Time): seq<Write> {
    [ Advance(id, TargetStoreApplied),
      SyncWith(id, enabled, now),
      Advance(id, FollowUpSynced),
      SetInbox(id, op.identity, ToMainRadar, op.transition.id),
      Advance(id, NewInboxApplied),
      AppendAudit(id, op.transition.(reconciled := true)),
      Advance(id, AuditApplied),
      Advance(id, Committed) ]
  }

  predicate Incomplete(s: Stores, id: OpId) {
    id in s.journal && !s.journal[id].stage.Committed?
  }

  function IncompleteIds(s: Stores): set<OpId> {
    set id | id in s.journal && !s.journal[id].stage.Committed?
  }

  function Step(id: OpId, from: Stage, to: Stage): seq<Write> {
    if Rank(to) > Rank(from) then [Advance(id, to)] else []
  }

  /** Recovery of one operation: nothing but the journal when its target was never written,
    * otherwise every later write again, skipping stages the journal already records. */
  function RecoverOne(s: Stores, id: OpId, now: Time): seq<Write>
    requires id in s.journal
  {
    var op := s.journal[id];
    if !InTarget(s, op.identity, op.target) then
      if op.stage.PlanCreated? then [Advance(id, Committed)] else []
    else
      Step(id, op.stage, TargetStoreApplied)
      + (if op.target.ToMainRadar? then [SyncWith(id, Enabled(s.universe), now)] + Step(id, op.stage, FollowUpSynced) else [])
      + [SetInbox(id, op.identity, op.target, op.transition.id)] + Step(id, op.stage, NewInboxApplied)
      + [AppendAudit(id, op.transition)] + Step(id, op.stage, AuditApplied)
      + Step(id, op.stage, Committed)
  }

  function Least(ids: set<OpId>): (least: OpId)
    requires ids != {}
    ensures least in ids
  {
    LeastExists(ids);
    var least :| least in ids && forall id :: id in ids ==> least <= id;
    least
  }

  lemma LeastExists(ids: set<OpId>)
    requires ids != {}
    ensures exists least :: least in ids && forall id :: id in ids ==> least <= id
  {
    var x :| x in ids;
    LeastUpTo(ids, x);
  }

  lemma {:induction false} LeastUpTo(ids: set<OpId>, x: OpId)
    requires x in ids
    ensures exists least :: least in ids && forall id :: id in ids ==> least <= id
  {
    if y :| y in ids && y < x { LeastUpTo(ids, y); }
  }

  function RecoverEach(s: Stores, ids: set<OpId>, now: Time): seq<Write>
    requires ids <= s.journal.Keys
  {
    if ids == {} then [] else RecoverOne(s, Least(ids), now) + RecoverEach(s, ids - {Least(ids)}, now)
  }

  /** Recovery: every operation that is not committed, in the order of the journal. */
  function RecoveryWrites(s: Stores, now: Time): seq<Write> {
    RecoverEach(s, IncompleteIds(s), now)
  }

  // ----- Policies -----

  datatype Condition =
    | IdentityValid | ValidatedSnapshot | BasicDataAvailable | BasicFiltersPassed | NoCriticalIdentityOrContractRisk | NoExistingDuplicate
    | FreshDataCurrentCycle | PromotionResolverReady | NoCriticalRisk | SecurityChecked | ManualVerificationAllows

  datatype PromotionCandidate = PromotionCandidate(identityValid: bool, critical: bool, o: F.Observation)

  function UnmetForFollowUp(c: PromotionCandidate, validatedSnapshot: bool, inFollowUp: bool, inMainRadar: bool): set<Condition> {
    (if c.identityValid then {} else {IdentityValid})
    + (if validatedSnapshot then {} else {ValidatedSnapshot})
    + (if c.o.name.Some? || c.o.symbol.Some? then {} else {BasicDataAvailable})
    + (if c.o.passed then {} else {BasicFiltersPassed})
    + (if c.critical then {NoCriticalIdentityOrContractRisk} else {})
    + (if inFollowUp || inMainRadar then {NoExistingDuplicate} else {})
  }

  function UnmetForMainRadar(e: F.Entry, cycle: nat, scan: nat, now: Time, manual: Option<F.Verdict>): set<Condition> {
    var isFresh := e.lastChecked.Some? && e.lastChecked.value <= now && (e.run == cycle || e.run == scan);
    var manualRequired := e.security.level.ManualVerificationRequired? || e.security.level.PartiallyChecked? || e.security.missing > 0;
    var manualAllows := if manual.Some? then manual.value.Verified? else !manualRequired;
    (if isFresh then {} else {FreshDataCurrentCycle})
    + (if e.status.Candidate? && forall k :: 0 <= k < |F.CHECKPOINTS| ==> F.CHECKPOINTS[k] in e.completed then {} else {PromotionResolverReady})
    + (if e.passed then {} else {BasicFiltersPassed})
    + (if e.security.level.CriticalRisk? then {NoCriticalRisk} else {})
    + (if e.security.level.Checked? then {} else {SecurityChecked})
    + (if manualAllows then {} else {ManualVerificationAllows})
  }

  // ----- The machine -----

  datatype Phase = Down | Recovering | Promoting

  /** The stores, what the running cycle has still to write, and records for the theorems:
    * the operations that wrote any store but the journal, the history of the basket, and the
    * unfinished operations that another process has disturbed since their own last write to
    * the basket (`strayed`) or to the inbox (`late`). */
  datatype Machine = Machine(
    s: Stores, phase: Phase, todo: seq<Write>, touched: set<OpId>, events: seq<F.Event>, strayed: set<OpId>, late: set<OpId>)

  datatype Move =
    | StartCycle(now: Time)
    | FinishRecovery(seen: set<Identity>)
    | BeginFollowUp(id: OpId, transition: TransitionId, identity: Identity, c: PromotionCandidate, validatedSnapshot: bool, now: Time, at: Time, run: nat, universeRead: set<Identity>)
    | BeginMainRadar(id: OpId, transition: TransitionId, identity: Identity, now: Time, cycle: nat, scan: nat, read: nat)
    | WriteNext
    | Fail
    | FinishCycle
    | Basket(event: F.Event)
    | Review(seen: set<Identity>)
    | Manage(mutation: U.Mutation, now: Time, actor: string)

  predicate Fresh(s: Stores, id: OpId, transition: TransitionId) {
    && id !in s.journal
    && (forall k :: k in s.journal ==> s.journal[k].transition.id != transition)
    && !Audited(s.audit, transition)
    && (forall identity :: identity in s.inbox ==> transition !in s.inbox[identity].transitions)
  }

  /** Whether a basket operation of another process takes an identity for a member of the
    * universe, if it decides about its entry at all. The universe it is given is any. */
  function Membership(s: F.Store, e: F.Event, identity: Identity): Option<bool> {
    match e
    case Scanned(scan, at, _, given) =>
      if identity in scan && F.Tracked(scan[identity]) && (identity in s.entries ==> at > s.entries[identity].lastSeen)
      then Some(identity in given) else None
    case WasRechecked(id, _, given) => if identity == id && identity in s.entries then Some(identity in given) else None
    case MembershipSynced(given, _) => if identity in s.entries then Some(identity in given) else None
    case OwnerVerified(_, _) => None
    case VerdictForgotten(_) => None
  }

  /** The unfinished promotions to the Main Radar whose entry was last decided, since their own
    * synchronisation, with a universe that lacks the identity. */
  function Strayed(m: Machine, e: F.Event): set<OpId> {
    set id | id in IncompleteIds(m.s) && m.s.journal[id].target.ToMainRadar? &&
      var says := Membership(m.s.followUp, e, m.s.journal[id].identity);
      if says.Some? then !says.value else id in m.strayed
  }

  /** The inbox after a review: tokens seen for the first time get a row. A review takes no
    * lifecycle lock, so it may come between any two writes of a cycle. */
  function ReviewedInbox(inbox: map<Identity, InboxRow>, seen: set<Identity>): map<Identity, InboxRow> {
    map id | id in inbox.Keys + seen :: if id in inbox then inbox[id] else InboxRow(InNew, false, false, [])
  }

  /** The unfinished operations whose identity got its inbox row from a review, and no status
    * of their own since. */
  function Late(m: Machine, seen: set<Identity>): set<OpId> {
    set id | id in IncompleteIds(m.s) && (id in m.late || (m.s.journal[id].identity in seen && m.s.journal[id].identity !in m.s.inbox))
  }

  /** Nobody removes or disables the target entry of an operation that is not committed. */
  predicate KeepsTargets(s: Stores, u: U.UniverseStore) {
    forall id :: id in IncompleteIds(s) && s.journal[id].target.ToMainRadar? ==>
      s.journal[id].identity in Enabled(s.universe) ==> s.journal[id].identity in Enabled(u)
  }

  /** When a cycle may plan a promotion: the entry it read last meets the policy. */
  predicate MayPromote(m: Machine, identity: Identity, now: Time, cycle: nat, scan: nat, read: nat) {
    && read <= |m.events|
    && var basket := F.StoreAfter(m.events[..read]);
       && identity in basket.entries
       && UnmetForMainRadar(basket.entries[identity], cycle, scan, now,
                            if identity in basket.manual then Some(basket.manual[identity].verdict) else None) == {}
  }

  predicate Allowed(m: Machine, move: Move) {
    match move
    case StartCycle(_) => m.phase.Down?
    case FinishRecovery(_) => m.phase.Recovering? && m.todo == []
    case BeginFollowUp(id, transition, identity, c, validatedSnapshot, _, _, _, _) =>
      && m.phase.Promoting? && m.todo == [] && Fresh(m.s, id, transition)
      && UnmetForFollowUp(c, validatedSnapshot, false, false) == {} && c.o.newEmerging
      && (identity in m.s.inbox ==> !m.s.inbox[identity].archived && !m.s.inbox[identity].rejected)
    case BeginMainRadar(id, transition, identity, now, cycle, scan, read) =>
      m.phase.Promoting? && m.todo == [] && Fresh(m.s, id, transition) && MayPromote(m, identity, now, cycle, scan, read)
    case WriteNext => m.todo != []
    case Fail => !m.phase.Down?
    case FinishCycle => m.phase.Promoting? && m.todo == []
    case Basket(_) => true
    case Review(_) => true
    case Manage(mutation, now, actor) =>
      var u := U.Mutated(m.s.universe, mutation, now, actor);
      u.Ok? && KeepsTargets(m.s, u.value)
  }

  function Stopped(m: Machine): Machine {
    m.(phase := Down, todo := [])
  }

  /** A throwing write ends the cycle, unless it finds the target already in the universe. */
  function AfterThrow(m: Machine): Machine
    requires m.todo != []
  {
    var w := m.todo[0];
    if w.AddTarget? && w.id in m.s.journal && Addition(m.s, w.identity, w.name, w.symbol, w.at) == Err(U.DuplicateIdentity)
       && w.identity in Enabled(m.s.universe)
    then m.(todo := ReconcileWrites(w.id, m.s.journal[w.id], Enabled(m.s.universe), w.at))
    else Stopped(m)
  }

  function AfterWrite(m: Machine): Machine
    requires m.todo != []
  {
    var w := m.todo[0];
    var next := Do(m.s, w);
    if next.None? then AfterThrow(m)
    else Machine(next.value, m.phase, m.todo[1..], m.touched + Touches(w), m.events + BasketEvents(m.s, w),
                 m.strayed - (if w.SyncNow? || w.SyncWith? then {w.id} else {}), m.late - (if w.SetInbox? then {w.id} else {}))
  }

  function Next(m: Machine, move: Move): Machine
    requires Allowed(m, move)
  {
    match move
    case StartCycle(now) => m.(phase := Recovering, todo := RecoveryWrites(m.s, now))
    case FinishRecovery(seen) => m.(phase := Promoting, todo := [RefreshInbox(seen, m.s.followUp.entries.Keys, Enabled(m.s.universe))])
    case BeginFollowUp(id, transition, identity, c, _, now, at, run, universeRead) =>
      var op := Operation(identity, ToFollowUp, PlanCreated, Transition(transition, identity, InFollowUp, now, false));
      m.(todo := ToFollowUpWrites(id, op, c.o, at, run, universeRead))
    case BeginMainRadar(id, transition, identity, now, _, _, read) =>
      var op := Operation(identity, ToMainRadar, PlanCreated, Transition(transition, identity, InMainRadar, now, false));
      var e := F.StoreAfter(m.events[..read]).entries[identity];
      m.(todo := ToMainRadarWrites(id, op, e.name, e.symbol, now))
    case WriteNext => AfterWrite(m)
    case Fail => Stopped(m)
    case FinishCycle => Stopped(m)
    case Basket(e) => m.(s := m.s.(followUp := F.StoreStep(m.s.followUp, e)), events := m.events + [e], strayed := Strayed(m, e))
    case Review(seen) => m.(s := m.s.(inbox := ReviewedInbox(m.s.inbox, seen)), late := Late(m, seen))
    case Manage(mutation, now, actor) => m.(s := m.s.(universe := U.Mutated(m.s.universe, mutation, now, actor).value))
  }

  const INITIAL_FOLLOW_UP: F.Store := F.Store(map[], map[])

  function Initial(universe: U.Snapshot): Machine {
    Machine(Stores(map[], INITIAL_FOLLOW_UP, U.UniverseStore(universe, [], []), map[], []), Down, [], {}, [], {}, {})
  }

  /** A run from empty stores and any universe: each machine allows its move and the move leads
    * to the next machine. */
  ghost predicate Run(ms: seq<Machine>, moves: seq<Move>) {
    && |ms| == |moves| + 1
    && ms[0] == Initial(ms[0].s.universe.current)
    && forall k :: 0 <= k < |moves| ==> Allowed(ms[k], moves[k]) && ms[k + 1] == Next(ms[k], moves[k])
  }
}
