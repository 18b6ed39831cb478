/** Recovery can be interrupted after any write and started again at the same moment: the
  * stores end as if it had run once without interruption.
  */
module LifecycleRecovery {
  import opened Common
  import opened Lifecycle
  import opened LifecycleSafety
  import F = FollowUp
  import U = Universe

  /** The stores after a list of writes, or nothing when one of them throws. */
  function Written(s: Stores, ws: seq<Write>): Option<Stores>
    decreases |ws|
  {
    if ws == [] then Some(s)
    else
      var next := Do(s, ws[0]);
      if next.None? then None else Written(next.value, ws[1..])
  }

  lemma {:induction false} WrittenInTwo(s: Stores, a: seq<Write>, b: seq<Write>)
    ensures Written(s, a + b) == if Written(s, a).None? then None else Written(Written(s, a).value, b)
    decreases |a|
  {
    if a == [] {
      assert a + b == b;
    } else {
      assert (a + b)[1..] == a[1..] + b;
      if Do(s, a[0]).Some? { WrittenInTwo(Do(s, a[0]).value, a[1..], b); }
    }
  }

  /** What one completed recovery makes of the stores, in one step: an operation that reached
    * its target is applied to every store, one that did not is only marked. */
  function Recovered(s: Stores, id: OpId, now: Time): Stores
    requires id in s.journal
  {
    var op := s.journal[id];
    var journal := s.journal[id := op.(stage := Committed)];
    if !InTarget(s, op.identity, op.target) then s.(journal := journal)
    else s.(journal := journal,
            followUp := if op.target.ToMainRadar? then F.Sync(s.followUp, Enabled(s.universe), now) else s.followUp,
            inbox := SetInboxStatus(s.inbox, op.identity, op.target, op.transition.id),
            audit := AppendTransition(s.audit, op.transition))
  }

  function RecoveredStores(s: Stores, now: Time): Stores {
    if IncompleteIds(s) == {} then s else Recovered(s, Least(IncompleteIds(s)), now)
  }

  /** The writes recovery makes for an operation. */
  predicate RecoveryWrite(w: Write, id: OpId, op: Operation, enabled: set<Identity>, now: Time) {
    match w
    case Advance(i, _) => i == id
    case SyncWith(i, given, at) => i == id && op.target.ToMainRadar? && given == enabled && at == now
    case SetInbox(i, identity, target, transition) => i == id && identity == op.identity && target == op.target && transition == op.transition.id
    case AppendAudit(i, t) => i == id && t == op.transition
    case _ => false
  }

  predicate AllRecoveryWrites(ws: seq<Write>, id: OpId, op: Operation, enabled: set<Identity>, now: Time) {
    forall k :: 0 <= k < |ws| ==> RecoveryWrite(ws[k], id, op, enabled, now)
  }

  lemma AppendTwice(audit: seq<Transition>, t: Transition)
    ensures AppendTransition(AppendTransition(audit, t), t) == AppendTransition(audit, t)
  {
    if !Audited(audit, t.id) { assert AppendTransition(audit, t)[0] == t; }
  }

  /** A write of recovery other than its last leaves the outcome as it was; repeating it, even
    * after further writes of recovery, changes nothing. */
  lemma OneWriteKeepsOutcome(s: Stores, w: Write, id: OpId, now: Time)
    requires Incomplete(s, id) && InTarget(s, s.journal[id].identity, s.journal[id].target)
    requires RecoveryWrite(w, id, s.journal[id], Enabled(s.universe), now)
    requires w.Advance? ==> !w.stage.Committed? && CanAdvance(s, id, w.stage)
    ensures Do(s, w).Some?
    ensures var s' := Do(s, w).value;
      && s'.universe == s.universe
      && s'.journal == s.journal[id := s.journal[id].(stage := if w.Advance? then w.stage else s.journal[id].stage)]
      && InTarget(s', s.journal[id].identity, s.journal[id].target)
      && Recovered(s', id, now) == Recovered(s, id, now)
      && (!w.Advance? ==> Do(s', w) == Some(s'))
  {
    var op := s.journal[id];
    match w
    case SyncWith(_, enabled, at) => F.SyncIsIdempotent(s.followUp, enabled, at);
    case AppendAudit(_, t) => AppendTwice(s.audit, t);
    case Advance(_, stage) => assert s.journal[id := op.(stage := stage)][id := op.(stage := Committed)] == s.journal[id := op.(stage := Committed)];
    case _ =>
  }

  lemma RepeatStaysHarmless(s: Stores, w: Write, v: Write, id: OpId, now: Time)
    requires Incomplete(s, id) && Do(s, w).Some?
    requires RecoveryWrite(w, id, s.journal[id], Enabled(s.universe), now) && RecoveryWrite(v, id, s.journal[id], Enabled(s.universe), now)
    requires !v.Advance? && Do(s, v) == Some(s)
    ensures Do(Do(s, w).value, v) == Do(s, w)
  {
    match w
    case SyncWith(_, enabled, at) => F.SyncIsIdempotent(s.followUp, enabled, at);
    case AppendAudit(_, t) => AppendTwice(s.audit, t);
    case _ =>
  }

  /** Any number of writes of recovery but its last leave the outcome as it was. */
  lemma {:induction false} PrefixKeepsOutcome(s: Stores, ws: seq<Write>, k: nat, id: OpId, now: Time)
    requires Incomplete(s, id) && InTarget(s, s.journal[id].identity, s.journal[id].target)
    requires Rises(ws, id, Rank(s.journal[id].stage)) && AllRecoveryWrites(ws, id, s.journal[id], Enabled(s.universe), now)
    requires k < |ws|
    ensures Written(s, ws[..k]).Some?
    ensures var s' := Written(s, ws[..k]).value;
      && s'.universe == s.universe && Incomplete(s', id)
      && s'.journal == s.journal[id := s.journal[id].(stage := s'.journal[id].stage)]
      && Rises(ws[k..], id, Rank(s'.journal[id].stage))
      && InTarget(s', s.journal[id].identity, s.journal[id].target)
      && Recovered(s', id, now) == Recovered(s, id, now)
      && forall i :: 0 <= i < k && !ws[i].Advance? ==> Do(s', ws[i]) == Some(s')
    decreases k
  {
    if k == 0 {
      assert ws[0..] == ws;
    } else {
      var front, w := ws[..k - 1], ws[k - 1];
      PrefixKeepsOutcome(s, ws, k - 1, id, now);
      var before := Written(s, front).value;
      assert ws[k - 1..][0] == w && ws[k - 1..][1..] == ws[k..];
      assert RecoveryWrite(w, id, before.journal[id], Enabled(before.universe), now);
      OneWriteKeepsOutcome(before, w, id, now);
      WrittenInTwo(s, front, [w]);
      assert ws[..k] == front + [w];
      forall i | 0 <= i < k - 1 && !ws[i].Advance? ensures Do(Do(before, w).value, ws[i]) == Do(before, w) {
        RepeatStaysHarmless(before, w, ws[i], id, now);
      }
    }
  }

  lemma RisesEndsWithCommit(ws: seq<Write>, id: OpId, rank: nat)
    requires Rises(ws, id, rank) && |ws| == 1
    ensures ws == [Advance(id, Committed)]
  {
    assert ws == [ws[0]] && ws[1..] == [];
  }

  lemma RecoverOneWrites(s: Stores, id: OpId, now: Time)
    requires Incomplete(s, id) && InTarget(s, s.journal[id].identity, s.journal[id].target)
    ensures var op, ws := s.journal[id], RecoverOne(s, id, now);
      && AllRecoveryWrites(ws, id, op, Enabled(s.universe), now)
      && AppendAudit(id, op.transition) in ws
      && SetInbox(id, op.identity, op.target, op.transition.id) in ws
      && (op.target.ToMainRadar? ==> SyncWith(id, Enabled(s.universe), now) in ws)
  {
    var op, enabled := s.journal[id], Enabled(s.universe);
    RecoveryInParts(s, id, now);
    var audit, inbox, sync := AuditPart(id, op), InboxPart(id, op), SyncPart(id, op, enabled, now);
    assert audit[0] == AppendAudit(id, op.transition);
    assert AllRecoveryWrites(audit, id, op, enabled, now);
    assert forall w :: w in audit ==> w in inbox;
    assert inbox[0] in inbox;
    assert AllRecoveryWrites(inbox, id, op, enabled, now);
    if op.target.ToMainRadar? {
      assert forall w :: w in inbox ==> w in sync;
      assert sync[0] in sync;
      assert AllRecoveryWrites(sync, id, op, enabled, now);
    }
  }

  /** The outcome is reached when the writes that lead to it change nothing any more. */
  lemma NothingLeftToDo(s: Stores, id: OpId, now: Time)
    requires Incomplete(s, id) && InTarget(s, s.journal[id].identity, s.journal[id].target)
    requires var op := s.journal[id];
      && Do(s, AppendAudit(id, op.transition)) == Some(s)
      && Do(s, SetInbox(id, op.identity, op.target, op.transition.id)) == Some(s)
      && (op.target.ToMainRadar? ==> Do(s, SyncWith(id, Enabled(s.universe), now)) == Some(s))
    ensures Do(s, Advance(id, Committed)) == Some(Recovered(s, id, now))
  {
  }

  /** An uninterrupted recovery of an operation that reached its target. */
  lemma RecoverOneReachesOutcome(s: Stores, id: OpId, now: Time)
    requires Incomplete(s, id) && InTarget(s, s.journal[id].identity, s.journal[id].target)
    ensures Written(s, RecoverOne(s, id, now)) == Some(Recovered(s, id, now))
  {
    var op, ws := s.journal[id], RecoverOne(s, id, now);
    RecoverOneIsInOrder(s, id, now, NONE);
    RecoverOneWrites(s, id, now);
    var k := |ws| - 1;
    PrefixKeepsOutcome(s, ws, k, id, now);
    var before := Written(s, ws[..k]).value;
    RisesEndsWithCommit(ws[k..], id, Rank(before.journal[id].stage));
    assert ws[k] == ws[k..][0] == Advance(id, Committed);
    assert forall w :: w in ws && !w.Advance? ==> Do(before, w) == Some(before);
    NothingLeftToDo(before, id, now);
    assert ws == ws[..k] + [Advance(id, Committed)];
    WrittenInTwo(s, ws[..k], [Advance(id, Committed)]);
  }

  /** What every reachable journal offers recovery. */
  ghost predicate Recoverable(s: Stores) {
    OneIncomplete(s) && forall id :: Incomplete(s, id) ==>
      InTarget(s, s.journal[id].identity, s.journal[id].target) || s.journal[id].stage.PlanCreated?
  }

  lemma ReachableIsRecoverable(ms: seq<Machine>, moves: seq<Move>, k: nat)
    requires Run(ms, moves) && k <= |moves|
    ensures Recoverable(ms[k].s)
  {
    RunsAreSafe(ms, moves, k);
  }

  lemma OnlyIncomplete(s: Stores, id: OpId)
    requires OneIncomplete(s) && Incomplete(s, id)
    ensures IncompleteIds(s) == {id}
  {
    assert forall i :: i in IncompleteIds(s) <==> Incomplete(s, i);
  }

  /** A recovery that is not interrupted never throws and reaches the outcome, in which every
    * operation is committed and those that had reached their target are fully applied. */
  lemma RecoveryReachesOutcome(s: Stores, now: Time)
    requires Recoverable(s)
    ensures Written(s, RecoveryWrites(s, now)) == Some(RecoveredStores(s, now))
    ensures NoneIncomplete(RecoveredStores(s, now))
    ensures forall id :: Incomplete(s, id) && InTarget(s, s.journal[id].identity, s.journal[id].target) ==>
      FullyApplied(RecoveredStores(s, now), s.journal[id])
  {
    assert forall id :: id in IncompleteIds(s) <==> Incomplete(s, id);
    if id :| Incomplete(s, id) {
      RecoveryOfOne(s, id, now);
      OnlyIncomplete(s, id);
      var op, after := s.journal[id], RecoveredStores(s, now);
      assert forall i :: Incomplete(after, i) ==> Incomplete(s, i) && i != id;
      if InTarget(s, op.identity, op.target) {
        RecoverOneReachesOutcome(s, id, now);
        assert Audited(after.audit, op.transition.id) by {
          if !Audited(s.audit, op.transition.id) { assert after.audit[0] == op.transition; }
        }
      }
    }
  }

  lemma InterruptionOfOne(s: Stores, id: OpId, now: Time, k: nat)
    requires Recoverable(s) && Incomplete(s, id) && k < |RecoverOne(s, id, now)|
    ensures Written(s, RecoverOne(s, id, now)[..k]).Some?
    ensures var s' := Written(s, RecoverOne(s, id, now)[..k]).value;
      Recoverable(s') && Incomplete(s', id) && Recovered(s', id, now) == Recovered(s, id, now)
  {
    var ws := RecoverOne(s, id, now);
    if InTarget(s, s.journal[id].identity, s.journal[id].target) {
      RecoverOneIsInOrder(s, id, now, NONE);
      RecoverOneWrites(s, id, now);
      PrefixKeepsOutcome(s, ws, k, id, now);
      assert forall i :: Incomplete(Written(s, ws[..k]).value, i) ==> Incomplete(s, i) || i == id;
    } else {
      assert ws[..k] == [];
    }
  }

  lemma NoneLeft(s: Stores, now: Time)
    requires NoneIncomplete(s)
    ensures RecoveryWrites(s, now) == [] && RecoveredStores(s, now) == s && Recoverable(s)
  {
    assert forall id :: id in IncompleteIds(s) ==> Incomplete(s, id);
    assert IncompleteIds(s) == {};
  }

  /** Interrupted after any number of its writes, recovery can still reach the same outcome. */
  lemma InterruptionKeepsOutcome(s: Stores, now: Time, k: nat)
    requires Recoverable(s) && k <= |RecoveryWrites(s, now)|
    ensures Written(s, RecoveryWrites(s, now)[..k]).Some?
    ensures var s' := Written(s, RecoveryWrites(s, now)[..k]).value;
      Recoverable(s') && RecoveredStores(s', now) == RecoveredStores(s, now)
  {
    var ws := RecoveryWrites(s, now);
    if k == |ws| {
      RecoveryReachesOutcome(s, now);
      assert ws[..k] == ws;
      NoneLeft(RecoveredStores(s, now), now);
    } else if id :| Incomplete(s, id) {
      RecoveryOfOne(s, id, now);
      InterruptionOfOne(s, id, now, k);
      OnlyIncomplete(s, id);
      OnlyIncomplete(Written(s, ws[..k]).value, id);
    } else {
      NoneLeft(s, now);
      assert false;
    }
  }

  /** Why the target entry of an unfinished operation has to stay: recovery does nothing for the
    * operation, and leaves it unfinished, exactly when its entry is gone after its first stage. */
  lemma WithdrawnTargetStaysUnfinished(s: Stores, id: OpId, now: Time)
    requires OneIncomplete(s) && Incomplete(s, id)
    ensures RecoveryWrites(s, now) == []
       <==> !InTarget(s, s.journal[id].identity, s.journal[id].target) && !s.journal[id].stage.PlanCreated?
  {
    RecoveryOfOne(s, id, now);
    if InTarget(s, s.journal[id].identity, s.journal[id].target) { RecoverOneIsInOrder(s, id, now, NONE); }
  }

  /** The stores after recoveries that are interrupted one after the other, each after the
    * given number of its writes. */
  function AfterInterruptions(s: Stores, now: Time, cuts: seq<nat>): Stores
    decreases |cuts|
  {
    if cuts == [] then s
    else
      var ws := RecoveryWrites(s, now);
      var cut := Written(s, ws[..Min(cuts[0], |ws|)]);
      AfterInterruptions(if cut.Some? then cut.value else s, now, cuts[1..])
  }

  /** Recovery is restartable: after any interruptions, wherever they fall, the recovery that
    * completes leaves exactly the stores of one uninterrupted recovery. */
  lemma {:induction false} RecoveryIsRestartable(s: Stores, now: Time, cuts: seq<nat>)
    requires Recoverable(s)
    ensures var s' := AfterInterruptions(s, now, cuts);
      Recoverable(s') && Written(s', RecoveryWrites(s', now)) == Written(s, RecoveryWrites(s, now)) == Some(RecoveredStores(s, now))
    decreases |cuts|
  {
    RecoveryReachesOutcome(s, now);
    if cuts != [] {
      var ws := RecoveryWrites(s, now);
      var k := Min(cuts[0], |ws|);
      InterruptionKeepsOutcome(s, now, k);
      var s' := Written(s, ws[..k]).value;
      RecoveryIsRestartable(s', now, cuts[1..]);
      RecoveryReachesOutcome(s', now);
    }
  }
}
