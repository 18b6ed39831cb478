/** The promotions of a cycle, entry by entry, as moves of the lifecycle machine. */
module LifecycleCycles {
  import opened Common
  import opened Lifecycle
  import opened LifecycleSafety
  import opened LifecycleRuns
  import opened LifecycleSeasoning
  import opened LifecycleWitness
  import F = FollowUp
  import U = Universe

  lemma {:induction false} UnusedNumber(used: set<nat>) returns (n: nat)
    ensures forall k :: k in used ==> k < n
  {
    if used == {} {
      n := 0;
    } else {
      var k :| k in used;
      n := UnusedNumber(used - {k});
      if n <= k { n := k + 1; }
      assert forall i :: i in used ==> i == k || i in used - {k};
    }
  }

  /** The transition ids that any store knows. */
  function KnownTransitions(s: Stores): set<TransitionId> {
    (set id | id in s.journal :: s.journal[id].transition.id)
    + (set k | 0 <= k < |s.audit| :: s.audit[k].id)
    + (set identity, t | identity in s.inbox && t in s.inbox[identity].transitions :: t)
  }

  lemma FreshIds(s: Stores) returns (id: OpId, transition: TransitionId)
    ensures Fresh(s, id, transition)
  {
    id := UnusedNumber(s.journal.Keys);
    transition := UnusedNumber(KnownTransitions(s));
    assert id !in s.journal;
    forall k | k in s.journal ensures s.journal[k].transition.id != transition {
      assert s.journal[k].transition.id in KnownTransitions(s);
    }
    forall k | 0 <= k < |s.audit| ensures s.audit[k].id != transition {
      assert s.audit[k].id in KnownTransitions(s);
    }
    forall identity | identity in s.inbox ensures transition !in s.inbox[identity].transitions {
      assert forall t :: t in s.inbox[identity].transitions ==> t in KnownTransitions(s);
    }
  }

  /** When a cycle comes to an entry: the policy is met by what it has read of the basket. */
  predicate MeetsPolicy(m: Machine, e: Eligible, now: Time, cycle: nat, scan: nat, read: nat) {
    MayPromote(m, e.identity, now, cycle, scan, read) && ReadsAs(m, read, e.identity, e.name, e.symbol)
  }

  lemma StaysEligible(m: Machine, m': Machine, e: Eligible, now: Time, cycle: nat, scan: nat, read: nat)
    requires MeetsPolicy(m, e, now, cycle, scan, read) && m.events <= m'.events
    ensures MeetsPolicy(m', e, now, cycle, scan, read)
  {
    assert m'.events[..read] == m.events[..read];
  }

  ghost predicate IsPromoting(m: Machine) {
    ReachableMachine(m) && m.phase.Promoting? && m.todo == []
  }

  /** The machine plans the entry and is left alone: it comes to the next entry with the identity
    * added, or it is stopped with the universe as it was. */
  lemma PromotesOne(m: Machine, e: Eligible, now: Time, cycle: nat, scan: nat, read: nat) returns (m': Machine)
    requires IsPromoting(m) && MeetsPolicy(m, e, now, cycle, scan, read) && e.identity !in Enabled(m.s.universe)
    ensures ReachableMachine(m') && m.events <= m'.events && m'.s.universe == AfterFirst(m.s.universe, e, now)
    ensures if Takes(m.s.universe, e.identity, e.name, e.symbol) then IsPromoting(m') else m'.phase.Down?
  {
    var id, transition := FreshIds(m.s);
    var planned := PlansAnyPromotion(m, BeginMainRadar(id, transition, e.identity, now, cycle, scan, read), e.name, e.symbol);
    AdditionSucceedsExactly(planned.s, e.identity, e.name, e.symbol, now);
    if Takes(m.s.universe, e.identity, e.name, e.symbol) {
      var added := WritesTheUniverse(planned, id, e.identity, e.name, e.symbol, now);
      var last := ComesToTheCommit(added, id);
      CommitsNext(last, id);
      m' := Next(last, WriteNext);
    } else {
      m' := StopsAtRefusal(planned, id, e, now);
    }
  }

  lemma StopsAtRefusal(m: Machine, id: OpId, e: Eligible, now: Time) returns (m': Machine)
    requires IsPlanned(m, id, e.identity, e.name, e.symbol, now)
    requires e.identity !in Enabled(m.s.universe) && !Takes(m.s.universe, e.identity, e.name, e.symbol)
    ensures ReachableMachine(m') && m' == Stopped(m)
  {
    OnlyOneAddition(id, m.s.journal[id], e.name, e.symbol, now);
    assert m.todo[0] == AddTarget(id, e.identity, e.name, e.symbol, now);
    ReachableIsSafe(m);
    RefusedPromotionIsAbandoned(m, id, now);
    MovesReachable(m, WriteNext);
    m' := Next(m, WriteNext);
  }

  /** From any promoting machine of any run, the entries of an order, planned one after the other
    * and left alone, lead to a machine of a run with the universe of the loop, stopped exactly
    * when the loop is. */
  lemma {:induction false} CycleFollowsTheLoop(m: Machine, order: seq<Eligible>, now: Time, cycle: nat, scan: nat, read: nat)
    returns (m': Machine)
    requires IsPromoting(m) && forall k :: 0 <= k < |order| ==> MeetsPolicy(m, order[k], now, cycle, scan, read)
    ensures var l := PromoteInOrder(m.s.universe, order, now);
      && ReachableMachine(m') && m'.s.universe == l.universe && m.events <= m'.events
      && (if l.stopped then m'.phase.Down? else IsPromoting(m'))
    decreases |order|
  {
    m' := m;
    if order != [] {
      var e := order[0];
      AddsExactlyWhatItTakes(m.s.universe, e, now);
      if e.identity !in Enabled(m.s.universe) { m' := PromotesOne(m, e, now, cycle, scan, read); }
      if m'.phase.Promoting? {
        var next := m';
        forall k | 0 <= k < |order[1..]| ensures MeetsPolicy(next, order[1..][k], now, cycle, scan, read) {
          StaysEligible(m, next, order[k + 1], now, cycle, scan, read);
        }
        m' := CycleFollowsTheLoop(next, order[1..], now, cycle, scan, read);
      }
    }
  }
}
