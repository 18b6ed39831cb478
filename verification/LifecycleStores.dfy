/** The lifecycle stores as the program updates them: one write after the other, each of which
  * may be the one at which the process fails.
  */
module LifecycleStores {
  import opened Common
  import opened Lifecycle
  import opened LifecycleSafety
  import opened LifecycleRecovery
  import F = FollowUp
  import U = Universe

  /** The stores have been taken from `s` to `s'` by the first writes of a list, and what is
    * left of the list. */
  predicate Reached(s: Stores, ws: seq<Write>, done: seq<Write>, rest: seq<Write>, s': Stores) {
    ws == done + rest && Written(s, done) == Some(s')
  }

  lemma ReachedNext(s: Stores, ws: seq<Write>, done: seq<Write>, more: seq<Write>, rest: seq<Write>, s': Stores, s'': Stores)
    requires Reached(s, ws, done, more + rest, s') && Written(s', more) == Some(s'')
    ensures Reached(s, ws, done + more, rest, s'')
  {
    WrittenInTwo(s, done, more);
    assert done + (more + rest) == done + more + rest;
  }

  /** The first writes of a list, and no more, have been made when they spent the budget. */
  predicate SpentOn(s: Stores, ws: seq<Write>, before: nat, after: nat, s': Stores) {
    && after <= before && before - after <= |ws|
    && (after > 0 ==> before - after == |ws|)
    && Written(s, ws[..before - after]) == Some(s')
  }

  lemma FailedHere(s: Stores, ws: seq<Write>, done: seq<Write>, rest: seq<Write>, s': Stores)
    requires Reached(s, ws, done, rest, s')
    ensures SpentOn(s, ws, |done|, 0, s')
  {
    assert ws[..|done|] == done;
  }

  lemma SpentInParts(s: Stores, ws: seq<Write>, done: seq<Write>, rest: seq<Write>, at: Stores, before: nat, after: nat, s': Stores)
    requires Reached(s, ws, done, rest, at) && SpentOn(at, rest, before, after, s')
    ensures SpentOn(s, ws, |done| + before, after, s')
  {
    WrittenInTwo(s, done, rest[..before - after]);
    assert ws[..|done| + before - after] == done + rest[..before - after];
  }

  lemma SpentOnFirst(s: Stores, ws: seq<Write>, rest: seq<Write>, before: nat, s': Stores)
    requires SpentOn(s, ws, before, 0, s')
    ensures SpentOn(s, ws + rest, before, 0, s')
  {
    assert (ws + rest)[..before] == ws[..before];
  }

  /** The operations that a recovery writes for. */
  function Recovers(s: Stores, ids: set<OpId>, now: Time): set<OpId> {
    set id | id in ids && id in s.journal && RecoverOne(s, id, now) != []
  }

  /** What recovery reads of the given operations is the same. */
  predicate SameFor(s: Stores, s': Stores, ids: set<OpId>) {
    && s'.universe == s.universe && s'.followUp.entries.Keys == s.followUp.entries.Keys
    && forall id :: id in ids ==> id in s.journal && id in s'.journal && s'.journal[id] == s.journal[id]
  }

  lemma RecoverOneAgain(s: Stores, s': Stores, id: OpId, now: Time)
    requires SameFor(s, s', {id})
    ensures RecoverOne(s', id, now) == RecoverOne(s, id, now)
  {
  }

  /** Recovery writes only the entry of its own operation in the journal, never the universe,
    * and neither adds to the basket nor drops from it. */
  lemma {:induction false} RecoveryFrame(s: Stores, ws: seq<Write>, id: OpId, op: Operation, enabled: set<Identity>, now: Time, s': Stores)
    requires AllRecoveryWrites(ws, id, op, enabled, now) && Written(s, ws) == Some(s')
    ensures SameFor(s, s', s.journal.Keys - {id})
    decreases |ws|
  {
    if ws != [] {
      RecoveryFrame(Do(s, ws[0]).value, ws[1..], id, op, enabled, now, s');
    }
  }

  lemma RecoverOneFrame(s: Stores, id: OpId, now: Time, s': Stores)
    requires Incomplete(s, id) && Written(s, RecoverOne(s, id, now)) == Some(s')
    ensures SameFor(s, s', s.journal.Keys - {id})
  {
    if InTarget(s, s.journal[id].identity, s.journal[id].target) { RecoverOneWrites(s, id, now); }
    RecoveryFrame(s, RecoverOne(s, id, now), id, s.journal[id], Enabled(s.universe), now, s');
  }

  /** A recovery that has still to make the writes for some operations. */
  predicate HasStill(s: Stores, ids: set<OpId>, done: seq<Write>, now: Time, at: Stores) {
    && ids <= IncompleteIds(s)
    && Reached(s, RecoveryWrites(s, now), done, RecoverEach(s, ids, now), at)
    && SameFor(s, at, ids)
  }

  lemma StartsRecovering(s: Stores, now: Time)
    ensures HasStill(s, IncompleteIds(s), [], now, s)
  {
  }

  lemma NextToRecover(s: Stores, ids: set<OpId>, done: seq<Write>, now: Time, at: Stores)
    requires HasStill(s, ids, done, now, at) && ids != {}
    ensures Incomplete(at, Least(ids)) && RecoverOne(at, Least(ids), now) == RecoverOne(s, Least(ids), now)
  {
    RecoverOneAgain(s, at, Least(ids), now);
  }

  lemma RecoveredIn(s: Stores, ids: set<OpId>, done: seq<Write>, now: Time, at: Stores, before: nat, after: nat, s': Stores)
    requires HasStill(s, ids, done, now, at) && ids != {}
    requires var one := RecoverOne(at, Least(ids), now); before >= |one| && SpentOn(at, one, before, after, s')
    ensures HasStill(s, ids - {Least(ids)}, done + RecoverOne(s, Least(ids), now), now, s')
    ensures after == before - |RecoverOne(s, Least(ids), now)|
  {
    var id := Least(ids);
    NextToRecover(s, ids, done, now, at);
    var one := RecoverOne(s, id, now);
    assert one[..|one|] == one;
    RecoverOneFrame(at, id, now, s');
    ReachedNext(s, RecoveryWrites(s, now), done, one, RecoverEach(s, ids - {id}, now), at, s');
  }

  lemma StoppedIn(s: Stores, ids: set<OpId>, done: seq<Write>, now: Time, at: Stores, before: nat, after: nat, s': Stores)
    requires HasStill(s, ids, done, now, at) && ids != {}
    requires var one := RecoverOne(at, Least(ids), now); before < |one| && SpentOn(at, one, before, after, s')
    ensures after == 0 && SpentOn(s, RecoveryWrites(s, now), |done| + before, 0, s') && |done| + before < |RecoveryWrites(s, now)|
  {
    NextToRecover(s, ids, done, now, at);
    var one, rest := RecoverOne(s, Least(ids), now), RecoverEach(s, ids - {Least(ids)}, now);
    SpentOnFirst(at, one, rest, before, s');
    SpentInParts(s, RecoveryWrites(s, now), done, one + rest, at, before, 0, s');
  }

  lemma RecoveredAll(s: Stores, done: seq<Write>, now: Time, after: nat, s': Stores)
    requires HasStill(s, {}, done, now, s')
    ensures |done| == |RecoveryWrites(s, now)| && SpentOn(s, RecoveryWrites(s, now), |done| + after, after, s')
    ensures Recoverable(s) ==> s' == RecoveredStores(s, now)
  {
    assert done == RecoveryWrites(s, now) && done[..|done|] == done;
    if Recoverable(s) { RecoveryReachesOutcome(s, now); }
  }

  lemma NoneRecovered(s: Stores, all: set<OpId>, now: Time)
    ensures Recovers(s, all - all, now) == {} && all - {} == all
  {
  }

  lemma OneMoreRecovered(s: Stores, all: set<OpId>, ids: set<OpId>, id: OpId, now: Time)
    requires ids <= all <= s.journal.Keys && id in ids
    ensures |Recovers(s, all - (ids - {id}), now)| == |Recovers(s, all - ids, now)| + if RecoverOne(s, id, now) != [] then 1 else 0
  {
    assert Recovers(s, all - (ids - {id}), now) == Recovers(s, all - ids, now) + (if RecoverOne(s, id, now) != [] then {id} else {});
  }

  /** The journal has no operation for the same transition. */
  predicate IsNew(s: Stores, op: Operation) {
    forall i :: i in s.journal ==> s.journal[i].transition.id != op.transition.id
  }

  datatype Outcome = Added | AlreadyThere | Refused

  /** What the universe answers to the target write of a promotion to the Main Radar. */
  function TargetOutcome(s: Stores, identity: Identity, name: Option<string>, symbol: Option<string>, now: Time): Outcome {
    var added := Addition(s, identity, name, symbol, now);
    if added.Ok? then Added
    else if added.error.DuplicateIdentity? && identity in Enabled(s.universe) then AlreadyThere
    else Refused
  }

  function TargetPart(id: OpId, op: Operation, enabled: set<Identity>, now: Time): seq<Write> {
    [Advance(id, TargetStoreApplied)] + SyncPart(id, op, enabled, now)
  }

  function AdditionPart(id: OpId, op: Operation, now: Time): seq<Write> {
    [Advance(id, TargetStoreApplied)] + ([SyncNow(id, now)] + (Step(id, op.stage, FollowUpSynced) + InboxPart(id, op)))
  }

  lemma SpentNext(s: Stores, w: Write, s1: Stores, rest: seq<Write>, before: nat, after: nat, s': Stores)
    requires Do(s, w) == Some(s1) && SpentOn(s1, rest, before, after, s')
    ensures SpentOn(s, [w] + rest, before + 1, after, s')
  {
    assert ([w] + rest)[..before + 1 - after] == [w] + rest[..before - after];
    assert ([w] + rest[..before - after])[1..] == rest[..before - after];
  }

  /** The current members of the universe are those it has after the stage is recorded. */
  lemma SyncIsSyncNow(s: Stores, id: OpId, op: Operation, now: Time, before: nat, after: nat, s': Stores)
    requires SpentOn(s, TargetPart(id, op, Enabled(s.universe), now), before, after, s')
    ensures SpentOn(s, AdditionPart(id, op, now), before, after, s')
    ensures |AdditionPart(id, op, now)| == |TargetPart(id, op, Enabled(s.universe), now)|
  {
    var stage, rest, n := Advance(id, TargetStoreApplied), Step(id, op.stage, FollowUpSynced) + InboxPart(id, op), before - after;
    var sync, syncNow := SyncWith(id, Enabled(s.universe), now), SyncNow(id, now);
    if n >= 2 {
      assert TargetPart(id, op, Enabled(s.universe), now)[..n] == [stage, sync] + rest[..n - 2];
      assert AdditionPart(id, op, now)[..n] == [stage, syncNow] + rest[..n - 2];
      WrittenInTwo(s, [stage, sync], rest[..n - 2]);
      WrittenInTwo(s, [stage, syncNow], rest[..n - 2]);
      TwoWrites(s, stage, sync);
      TwoWrites(s, stage, syncNow);
    } else {
      assert TargetPart(id, op, Enabled(s.universe), now)[..n] == AdditionPart(id, op, now)[..n];
    }
  }

  lemma AddedAndFinished(s: Stores, w: Write, s1: Stores, id: OpId, op: Operation, now: Time, before: nat, after: nat, s': Stores)
    requires Do(s, w) == Some(s1) && SpentOn(s1, TargetPart(id, op, Enabled(s1.universe), now), before, after, s')
    ensures SpentOn(s, [w] + AdditionPart(id, op, now), before + 1, after, s')
    ensures |AdditionPart(id, op, now)| == |TargetPart(id, op, Enabled(s1.universe), now)|
  {
    SyncIsSyncNow(s1, id, op, now, before, after, s');
    SpentNext(s, w, s1, AdditionPart(id, op, now), before, after, s');
  }

  lemma TwoWrites(s: Stores, v: Write, w: Write)
    ensures Written(s, [v, w]) == if Do(s, v).None? then None else Do(Do(s, v).value, w)
  {
    assert [v, w][1..] == [w] && [w][1..] == [];
    if Do(s, v).Some? { assert Written(Do(s, v).value, [w]) == Do(Do(s, v).value, w); }
  }

  function Reconciled(op: Operation): Operation {
    op.(transition := op.transition.(reconciled := true))
  }

  /** The writes of a planned promotion to the Main Radar that nothing interrupts. */
  function TargetWrites(s: Stores, id: OpId, op: Operation, name: Option<string>, symbol: Option<string>, now: Time): seq<Write> {
    match TargetOutcome(s, op.identity, name, symbol, now)
    case Added => [AddTarget(id, op.identity, name, symbol, now)] + AdditionPart(id, op, now)
    case AlreadyThere => TargetPart(id, Reconciled(op), Enabled(s.universe), now)
    case Refused => []
  }

  lemma AddedWrites(s: Stores, s1: Stores, id: OpId, op: Operation, name: Option<string>, symbol: Option<string>, now: Time, before: nat, after: nat, s': Stores)
    requires Do(s, AddTarget(id, op.identity, name, symbol, now)) == Some(s1)
    requires SpentOn(s1, TargetPart(id, op, Enabled(s1.universe), now), before, after, s')
    ensures TargetOutcome(s, op.identity, name, symbol, now).Added?
    ensures SpentOn(s, TargetWrites(s, id, op, name, symbol, now), before + 1, after, s')
    ensures |TargetWrites(s, id, op, name, symbol, now)| == |TargetPart(id, op, Enabled(s1.universe), now)| + 1
  {
    AddedAndFinished(s, AddTarget(id, op.identity, name, symbol, now), s1, id, op, now, before, after, s');
  }

  lemma NotAddedWrites(s: Stores, id: OpId, op: Operation, name: Option<string>, symbol: Option<string>, now: Time, budget: nat)
    requires !TargetOutcome(s, op.identity, name, symbol, now).Added? || budget == 0
    ensures TargetOutcome(s, op.identity, name, symbol, now).AlreadyThere? ==>
      TargetWrites(s, id, op, name, symbol, now) == TargetPart(id, Reconciled(op), Enabled(s.universe), now)
    ensures TargetOutcome(s, op.identity, name, symbol, now).Refused? ==> TargetWrites(s, id, op, name, symbol, now) == []
    ensures !TargetOutcome(s, op.identity, name, symbol, now).Refused? ==> TargetWrites(s, id, op, name, symbol, now) != []
  {
  }

  /** They are the writes that the machine makes: those of the promotion, or those of the
    * reconciliation, or none when the target write throws and the cycle stops. */
  lemma TargetWritesAreTheMachines(m: Machine, id: OpId, op: Operation, name: Option<string>, symbol: Option<string>, now: Time)
    requires op.stage.PlanCreated? && op.target.ToMainRadar? && id in m.s.journal && m.s.journal[id] == op
    requires m.todo == ToMainRadarWrites(id, op, name, symbol, now)[1..]
    ensures var ws := TargetWrites(m.s, id, op, name, symbol, now);
      match TargetOutcome(m.s, op.identity, name, symbol, now)
      case Added => ws == m.todo
      case AlreadyThere => ws == AfterWrite(m).todo && AfterWrite(m).s == m.s
      case Refused => AfterWrite(m) == Stopped(m)
  {
    match TargetOutcome(m.s, op.identity, name, symbol, now)
    case Added => assert AdditionPart(id, op, now) == m.todo[1..];
    case AlreadyThere => assert ReconcileWrites(id, op, Enabled(m.s.universe), now) == TargetPart(id, Reconciled(op), Enabled(m.s.universe), now);
    case Refused =>
  }

  class PromotionStores {
    var journal: map<OpId, Operation>
    var followUp: F.Store
    var universe: U.UniverseStore
    var inbox: map<Identity, InboxRow>
    var audit: seq<Transition>
    /** How many writes are made before the process fails. */
    var budget: nat

    ghost function State(): Stores
      reads this
    {
      Stores(journal, followUp, universe, inbox, audit)
    }

    constructor (universe: U.Snapshot, budget: nat)
      ensures State() == Initial(universe).s && this.budget == budget
    {
      journal, followUp, inbox, audit := map[], F.Store(map[], map[]), map[], [];
      this.universe := U.UniverseStore(universe, [], []);
      this.budget := budget;
    }

    // ----- Single writes -----

    /** Plans an operation, unless its transition has been planned before. */
    method CreateOperation(id: OpId, op: Operation) returns (ok: bool, created: OpId)
      modifies this
      ensures ok <==> old(budget) > 0
      ensures budget == old(budget) - if ok then 1 else 0
      ensures ok && IsNew(old(State()), op) ==> created == id && Do(old(State()), Plan(id, op)) == Some(State())
      ensures !ok || !IsNew(old(State()), op) ==> State() == old(State())
      ensures ok ==> created in journal && journal[created].transition.id == op.transition.id
    {
      if budget == 0 { return false, id; }
      budget := budget - 1;
      var existing := set i | i in journal && journal[i].transition.id == op.transition.id;
      if existing != {} { return true, Least(existing); }
      assert forall i :: i in journal ==> i !in existing;
      journal := journal[id := op];
      return true, id;
    }

    method UpdateStage(id: OpId, stage: Stage) returns (ok: bool)
      modifies this
      ensures ok <==> old(budget) > 0 && CanAdvance(old(State()), id, stage)
      ensures ok ==> budget == old(budget) - 1 && Do(old(State()), Advance(id, stage)) == Some(State())
      ensures !ok ==> budget == old(budget) && State() == old(State())
    {
      if budget == 0 || id !in journal || Rank(stage) < Rank(journal[id].stage) { return false; }
      budget := budget - 1;
      journal := journal[id := journal[id].(stage := stage)];
      return true;
    }

    method IngestCandidate(id: OpId, identity: Identity, o: F.Observation, at: Time, run: nat, enabled: set<Identity>) returns (ok: bool)
      modifies this
      ensures ok <==> old(budget) > 0
      ensures ok ==> budget == old(budget) - 1 && Do(old(State()), IngestTarget(id, identity, o, at, run, enabled)) == Some(State())
      ensures !ok ==> budget == old(budget) && State() == old(State())
    {
      if budget == 0 { return false; }
      budget := budget - 1;
      followUp := F.Ingest(followUp, map[identity := o], at, run, enabled);
      return true;
    }

    /** Adds the identity to the universe; `duplicate` tells that it was refused as one. */
    method AddToUniverse(id: OpId, identity: Identity, name: Option<string>, symbol: Option<string>, at: Time) returns (ok: bool, duplicate: bool)
      modifies this
      ensures ok <==> old(budget) > 0 && Addition(old(State()), identity, name, symbol, at).Ok?
      ensures ok ==> budget == old(budget) - 1 && Do(old(State()), AddTarget(id, identity, name, symbol, at)) == Some(State())
      ensures !ok ==> budget == old(budget) && State() == old(State())
      ensures duplicate <==> old(budget) > 0 && Addition(old(State()), identity, name, symbol, at) == Err(U.DuplicateIdentity)
    {
      if budget == 0 { return false, false; }
      var next := U.Mutated(universe, U.Add(identity, None, name, symbol, Some(PROMOTION_NOTE)), at, SYSTEM_ACTOR);
      if next.Err? { return false, next.error.DuplicateIdentity?; }
      budget := budget - 1;
      universe := next.value;
      return true, false;
    }

    method SynchronizeMembership(id: OpId, enabled: set<Identity>, at: Time) returns (ok: bool)
      modifies this
      ensures ok <==> old(budget) > 0
      ensures ok ==> budget == old(budget) - 1 && Do(old(State()), SyncWith(id, enabled, at)) == Some(State())
      ensures ok && enabled == Enabled(old(universe)) ==> Do(old(State()), SyncNow(id, at)) == Some(State())
      ensures !ok ==> budget == old(budget) && State() == old(State())
    {
      if budget == 0 { return false; }
      budget := budget - 1;
      followUp := F.Sync(followUp, enabled, at);
      return true;
    }

    method SetInboxLifecycleStatus(id: OpId, identity: Identity, target: Target, transition: TransitionId) returns (ok: bool)
      modifies this
      ensures ok <==> old(budget) > 0
      ensures ok ==> budget == old(budget) - 1 && Do(old(State()), SetInbox(id, identity, target, transition)) == Some(State())
      ensures !ok ==> budget == old(budget) && State() == old(State())
    {
      if budget == 0 { return false; }
      budget := budget - 1;
      if identity in inbox && inbox[identity].status != LayerOf(target) {
        var row := inbox[identity];
        inbox := inbox[identity := row.(status := LayerOf(target), transitions := U.Take([transition] + row.transitions, MAX_ROW_TRANSITIONS))];
      }
      return true;
    }

    method AppendLifecycleAudit(id: OpId, t: Transition) returns (ok: bool)
      modifies this
      ensures ok <==> old(budget) > 0
      ensures ok ==> budget == old(budget) - 1 && Do(old(State()), AppendAudit(id, t)) == Some(State())
      ensures !ok ==> budget == old(budget) && State() == old(State())
    {
      if budget == 0 { return false; }
      budget := budget - 1;
      var seen, k := false, 0;
      while k < |audit| && !seen
        invariant 0 <= k <= |audit|
        invariant seen <==> exists i :: 0 <= i < k && audit[i].id == t.id
      {
        seen := audit[k].id == t.id;
        k := k + 1;
      }
      if !seen {
        audit := U.Take([t] + audit, MAX_AUDIT);
      }
      return true;
    }

    // ----- Recovery -----

    /** Records a stage unless the one already reached is as late. */
    method AdvanceFrom(id: OpId, current: Stage, stage: Stage) returns (ok: bool, reached: Stage)
      requires id in journal && journal[id].stage == current
      modifies this
      ensures var step := Step(id, current, stage);
        && (ok <==> old(budget) >= |step|)
        && (ok ==> budget == old(budget) - |step| && Written(old(State()), step) == Some(State()))
        && (ok ==> id in journal && journal[id].stage == reached && Rank(reached) == Max(Rank(current), Rank(stage)))
        && (!ok ==> budget == 0 && State() == old(State()))
    {
      if Rank(stage) <= Rank(current) { return true, current; }
      ok := UpdateStage(id, stage);
      reached := stage;
    }

    /** The writes from the inbox on, after which the operation is committed. */
    method FinishOperation(id: OpId, op: Operation, stage: Stage) returns (ok: bool)
      requires id in journal && journal[id].stage == stage && !stage.Committed?
      requires stage == op.stage || Rank(op.stage) <= Rank(stage) < Rank(NewInboxApplied)
      modifies this
      ensures ok <==> old(budget) >= |InboxPart(id, op)|
      ensures SpentOn(old(State()), InboxPart(id, op), old(budget), budget, State())
    {
      ghost var s, rest := State(), Step(id, op.stage, NewInboxApplied) + AuditPart(id, op);
      ok := SetInboxLifecycleStatus(id, op.identity, op.target, op.transition.id);
      if !ok { return; }
      ghost var s1, before := State(), budget;
      ok := AdvanceAndAudit(id, op, stage);
      SpentNext(s, SetInbox(id, op.identity, op.target, op.transition.id), s1, rest, before, budget, State());
    }

    method AdvanceAndAudit(id: OpId, op: Operation, stage: Stage) returns (ok: bool)
      requires id in journal && journal[id].stage == stage && !stage.Committed?
      requires stage == op.stage || Rank(op.stage) <= Rank(stage) < Rank(NewInboxApplied)
      modifies this
      ensures ok <==> old(budget) >= |Step(id, op.stage, NewInboxApplied) + AuditPart(id, op)|
      ensures SpentOn(old(State()), Step(id, op.stage, NewInboxApplied) + AuditPart(id, op), old(budget), budget, State())
    {
      ghost var s, step := State(), Step(id, op.stage, NewInboxApplied);
      var current;
      ok, current := AdvanceFrom(id, stage, NewInboxApplied);
      if !ok { return; }
      ghost var s1, before := State(), budget;
      ok := FinishAudit(id, op, current);
      SpentInParts(s, step + AuditPart(id, op), step, AuditPart(id, op), s1, before, budget, State());
    }

    method FinishAudit(id: OpId, op: Operation, stage: Stage) returns (ok: bool)
      requires id in journal && journal[id].stage == stage && !stage.Committed?
      requires stage == op.stage || Rank(op.stage) <= Rank(stage) < Rank(AuditApplied)
      modifies this
      ensures ok <==> old(budget) >= |AuditPart(id, op)|
      ensures SpentOn(old(State()), AuditPart(id, op), old(budget), budget, State())
    {
      ghost var s, ws := State(), AuditPart(id, op);
      var current := stage;
      ok := AppendLifecycleAudit(id, op.transition);
      ghost var done, at := [AppendAudit(id, op.transition)], State();
      if !ok { FailedHere(s, ws, [], ws, at); return; }
      ReachedNext(s, ws, [], done, Step(id, op.stage, AuditApplied) + Step(id, op.stage, Committed), s, at);
      ok, current := AdvanceFrom(id, current, AuditApplied);
      if !ok { FailedHere(s, ws, done, Step(id, op.stage, AuditApplied) + Step(id, op.stage, Committed), at); return; }
      ReachedNext(s, ws, done, Step(id, op.stage, AuditApplied), Step(id, op.stage, Committed), at, State());
      done, at := done + Step(id, op.stage, AuditApplied), State();
      ok, current := AdvanceFrom(id, current, Committed);
      if !ok { FailedHere(s, ws, done, Step(id, op.stage, Committed), at); return; }
      assert Step(id, op.stage, Committed) + [] == Step(id, op.stage, Committed);
      ReachedNext(s, ws, done, Step(id, op.stage, Committed), [], at, State());
      assert ws[..|ws|] == ws;
    }

    /** Recovery of one operation makes the writes that belong to it, up to the failure. */
    method RecoverOperation(id: OpId, now: Time) returns (ok: bool)
      requires id in journal && !journal[id].stage.Committed?
      modifies this
      ensures ok <==> old(budget) >= |RecoverOne(old(State()), id, now)|
      ensures SpentOn(old(State()), RecoverOne(old(State()), id, now), old(budget), budget, State())
    {
      var op, enabled := journal[id], Enabled(universe);
      var inFollowUp := op.identity in followUp.entries;
      var applied := if op.target.ToFollowUp? then inFollowUp else op.identity in enabled;
      var current := op.stage;
      ghost var s, ws := State(), RecoverOne(State(), id, now);
      if !applied {
        ok := true;
        if op.stage.PlanCreated? {
          ok, current := AdvanceFrom(id, current, Committed);
        }
        return;
      }
      RecoveryInParts(s, id, now);
      ghost var rest := if op.target.ToMainRadar? then SyncPart(id, op, enabled, now) else InboxPart(id, op);
      ok, current := AdvanceFrom(id, current, TargetStoreApplied);
      ghost var done, at := Step(id, op.stage, TargetStoreApplied), State();
      if !ok { FailedHere(s, ws, [], ws, at); return; }
      ghost var before := budget;
      if op.target.ToMainRadar? {
        ok := SynchronizeAndFinish(id, op, current, enabled, now);
      } else {
        ok := FinishOperation(id, op, current);
      }
      SpentInParts(s, ws, done, rest, at, before, budget, State());
    }

    method SynchronizeAndFinish(id: OpId, op: Operation, stage: Stage, enabled: set<Identity>, now: Time) returns (ok: bool)
      requires id in journal && journal[id].stage == stage && !stage.Committed?
      requires stage == op.stage || Rank(op.stage) <= Rank(stage) < Rank(FollowUpSynced)
      modifies this
      ensures ok <==> old(budget) >= |SyncPart(id, op, enabled, now)|
      ensures SpentOn(old(State()), SyncPart(id, op, enabled, now), old(budget), budget, State())
    {
      ghost var s, ws := State(), SyncPart(id, op, enabled, now);
      var current := stage;
      ok := SynchronizeMembership(id, enabled, now);
      ghost var done, at := [SyncWith(id, enabled, now)], State();
      if !ok { FailedHere(s, ws, [], ws, at); return; }
      ReachedNext(s, ws, [], done, Step(id, op.stage, FollowUpSynced) + InboxPart(id, op), s, at);
      ok, current := AdvanceFrom(id, current, FollowUpSynced);
      if !ok { FailedHere(s, ws, done, Step(id, op.stage, FollowUpSynced) + InboxPart(id, op), at); return; }
      ReachedNext(s, ws, done, Step(id, op.stage, FollowUpSynced), InboxPart(id, op), at, State());
      done, at := done + Step(id, op.stage, FollowUpSynced), State();
      ghost var before := budget;
      ok := FinishOperation(id, op, current);
      SpentInParts(s, ws, done, InboxPart(id, op), at, before, budget, State());
    }

    /** Recovery of every operation that is not committed. When it completes over stores that a
      * run can leave, they are those of one uninterrupted recovery. */
    method Recover(now: Time) returns (ok: bool, recovered: nat)
      modifies this
      ensures ok <==> old(budget) >= |RecoveryWrites(old(State()), now)|
      ensures SpentOn(old(State()), RecoveryWrites(old(State()), now), old(budget), budget, State())
      ensures ok ==> recovered == |Recovers(old(State()), IncompleteIds(old(State())), now)|
      ensures ok && Recoverable(old(State())) ==> State() == RecoveredStores(old(State()), now)
    {
      ghost var s, all, done := State(), IncompleteIds(State()), [];
      var ids := set id | id in journal && !journal[id].stage.Committed?;
      recovered, ok := 0, true;
      StartsRecovering(s, now);
      NoneRecovered(s, all, now);
      while ids != {}
        invariant ok && HasStill(s, ids, done, now, State())
        invariant old(budget) == |done| + budget
        invariant recovered == |Recovers(s, all - ids, now)|
        decreases ids
      {
        var id, due := Least(ids), false;
        ok, due := RecoverNext(s, ids, done, now);
        if !ok { return; }
        OneMoreRecovered(s, all, ids, id, now);
        done := done + RecoverOne(s, id, now);
        recovered := if due then recovered + 1 else recovered;
        ids := ids - {id};
      }
      RecoveredAll(s, done, now, budget, State());
    }

    method RecoverNext(ghost s: Stores, ids: set<OpId>, ghost done: seq<Write>, now: Time) returns (ok: bool, due: bool)
      requires ids != {} && HasStill(s, ids, done, now, State())
      modifies this
      ensures ok ==> HasStill(s, ids - {Least(ids)}, done + RecoverOne(s, Least(ids), now), now, State())
      ensures ok ==> budget == old(budget) - |RecoverOne(s, Least(ids), now)| && (due <==> RecoverOne(s, Least(ids), now) != [])
      ensures !ok ==> budget == 0 && |done| + old(budget) < |RecoveryWrites(s, now)|
      ensures !ok ==> SpentOn(s, RecoveryWrites(s, now), |done| + old(budget), 0, State())
    {
      ghost var at, before := State(), budget;
      NextToRecover(s, ids, done, now, at);
      due := RecoveryIsDue(Least(ids));
      ok := RecoverOperation(Least(ids), now);
      if ok {
        RecoveredIn(s, ids, done, now, at, before, budget, State());
      } else {
        StoppedIn(s, ids, done, now, at, before, budget, State());
      }
    }

    /** Whether a recovery of the operation writes anything. */
    method RecoveryIsDue(id: OpId) returns (due: bool)
      requires id in journal
      ensures forall now :: due <==> RecoverOne(State(), id, now) != []
    {
      var op := journal[id];
      var applied := if op.target.ToFollowUp? then op.identity in followUp.entries else op.identity in Enabled(universe);
      due := applied || op.stage.PlanCreated?;
    }

    // ----- Promotions -----

    method PromoteToFollowUp(id: OpId, op: Operation, o: F.Observation, at: Time, run: nat, enabled: set<Identity>) returns (ok: bool)
      requires op.stage.PlanCreated? && op.target.ToFollowUp? && IsNew(State(), op)
      modifies this
      ensures ok <==> old(budget) >= |ToFollowUpWrites(id, op, o, at, run, enabled)|
      ensures SpentOn(old(State()), ToFollowUpWrites(id, op, o, at, run, enabled), old(budget), budget, State())
    {
      ghost var s, ingest := State(), IngestTarget(id, op.identity, o, at, run, enabled);
      ghost var rest := [Advance(id, TargetStoreApplied)] + InboxPart(id, op);
      assert ToFollowUpWrites(id, op, o, at, run, enabled) == [Plan(id, op)] + ([ingest] + rest);
      var planned;
      ok, planned := CreateOperation(id, op);
      if !ok { return; }
      ghost var s1, before := State(), budget;
      ok := IngestAndFinish(planned, op, o, at, run, enabled);
      SpentNext(s, Plan(id, op), s1, [ingest] + rest, before, budget, State());
    }

    method IngestAndFinish(id: OpId, op: Operation, o: F.Observation, at: Time, run: nat, enabled: set<Identity>) returns (ok: bool)
      requires op.stage.PlanCreated? && id in journal && journal[id] == op
      modifies this
      ensures var ws := [IngestTarget(id, op.identity, o, at, run, enabled)] + ([Advance(id, TargetStoreApplied)] + InboxPart(id, op));
        (ok <==> old(budget) >= |ws|) && SpentOn(old(State()), ws, old(budget), budget, State())
    {
      ghost var s := State();
      ok := IngestCandidate(id, op.identity, o, at, run, enabled);
      if !ok { return; }
      ghost var s1, left := State(), budget;
      ok := UpdateStage(id, TargetStoreApplied);
      ghost var s2, before := State(), budget;
      if ok {
        ok := FinishOperation(id, op, TargetStoreApplied);
        SpentNext(s1, Advance(id, TargetStoreApplied), s2, InboxPart(id, op), before, budget, State());
      }
      SpentNext(s, IngestTarget(id, op.identity, o, at, run, enabled), s1, [Advance(id, TargetStoreApplied)] + InboxPart(id, op), left, budget, State());
    }

    /** A promotion to the Main Radar. A duplicate that the universe holds enabled is reconciled;
      * any other refusal by the universe ends the cycle with only the plan written. */
    method PromoteToMainRadar(id: OpId, op: Operation, name: Option<string>, symbol: Option<string>, now: Time) returns (ok: bool)
      requires op.stage.PlanCreated? && op.target.ToMainRadar? && IsNew(State(), op)
      modifies this
      ensures var ws := [Plan(id, op)] + TargetWrites(old(State()), id, op, name, symbol, now);
        && (ok <==> !TargetOutcome(old(State()), op.identity, name, symbol, now).Refused? && old(budget) >= |ws|)
        && SpentOn(old(State()), ws, old(budget), budget, State())
    {
      ghost var s := State();
      var planned;
      ok, planned := CreateOperation(id, op);
      if !ok { return; }
      ghost var s1, before := State(), budget;
      ok := ApplyToTarget(planned, op, name, symbol, now);
      SpentNext(s, Plan(id, op), s1, TargetWrites(s1, id, op, name, symbol, now), before, budget, State());
    }

    method ApplyToTarget(id: OpId, op: Operation, name: Option<string>, symbol: Option<string>, now: Time) returns (ok: bool)
      requires op.stage.PlanCreated? && op.target.ToMainRadar? && id in journal && journal[id] == op
      modifies this
      ensures var ws := TargetWrites(old(State()), id, op, name, symbol, now);
        && (ok <==> !TargetOutcome(old(State()), op.identity, name, symbol, now).Refused? && old(budget) >= |ws|)
        && SpentOn(old(State()), ws, old(budget), budget, State())
    {
      ghost var s := State();
      var duplicate;
      ok, duplicate := AddToUniverse(id, op.identity, name, symbol, now);
      if ok {
        ghost var s1, before := State(), budget;
        ok := FinishFromTarget(id, op, now);
        AddedWrites(s, s1, id, op, name, symbol, now, before, budget, State());
      } else {
        NotAddedWrites(s, id, op, name, symbol, now, budget);
        if duplicate && op.identity in Enabled(universe) { ok := FinishFromTarget(id, Reconciled(op), now); }
      }
    }

    /** The writes that follow when the universe holds the identity. */
    method FinishFromTarget(id: OpId, op: Operation, now: Time) returns (ok: bool)
      requires op.stage.PlanCreated? && id in journal && journal[id].stage.PlanCreated?
      modifies this
      ensures ok <==> old(budget) >= |TargetPart(id, op, Enabled(old(universe)), now)|
      ensures SpentOn(old(State()), TargetPart(id, op, Enabled(old(universe)), now), old(budget), budget, State())
    {
      ghost var s, start := State(), budget;
      ok := UpdateStage(id, TargetStoreApplied);
      if !ok { return; }
      ghost var s1, before := State(), budget;
      ok := SynchronizeAndFinish(id, op, TargetStoreApplied, Enabled(universe), now);
      SpentNext(s, Advance(id, TargetStoreApplied), s1, SyncPart(id, op, Enabled(s.universe), now), before, budget, State());
    }
  }
}