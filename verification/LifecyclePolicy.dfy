/** What the policies of the two promotions ask for, and what every promotion of a run has met. */
module LifecyclePolicy {
  import opened Common
  import opened Lifecycle
  import opened LifecycleSafety
  import opened LifecycleSeasoning
  import opened FollowUpHistory
  import F = FollowUp

  /** A candidate may be promoted to the basket exactly when it is a valid token of a validated
    * snapshot, has a name or a symbol, passes the basic filters, carries no critical risk, and
    * is in neither layer yet. */
  lemma FollowUpPolicyExactly(c: PromotionCandidate, validatedSnapshot: bool, inFollowUp: bool, inMainRadar: bool)
    ensures UnmetForFollowUp(c, validatedSnapshot, inFollowUp, inMainRadar) == {}
       <==> c.identityValid && validatedSnapshot && (c.o.name.Some? || c.o.symbol.Some?) && c.o.passed
            && !c.critical && !inFollowUp && !inMainRadar
    ensures var unmet := UnmetForFollowUp(c, validatedSnapshot, inFollowUp, inMainRadar);
      && (IdentityValid in unmet <==> !c.identityValid) && (ValidatedSnapshot in unmet <==> !validatedSnapshot)
      && (BasicDataAvailable in unmet <==> c.o.name.None? && c.o.symbol.None?)
      && (BasicFiltersPassed in unmet <==> !c.o.passed) && (NoCriticalIdentityOrContractRisk in unmet <==> c.critical)
      && (NoExistingDuplicate in unmet <==> inFollowUp || inMainRadar)
  {
    var unmet := UnmetForFollowUp(c, validatedSnapshot, inFollowUp, inMainRadar);
    assert unmet == {} <==> forall x :: x !in unmet;
    NoOtherConditions(unmet);
  }

  lemma NoOtherConditions(unmet: set<Condition>)
    ensures unmet == {} <==> forall x :: x !in unmet
  {
  }

  /** What the promotion to the Main Radar asks of an entry and of the owner's verdict. */
  predicate Qualifies(e: F.Entry, cycle: nat, scan: nat, now: Time, manual: Option<F.Verdict>) {
    && e.status.Candidate? && e.completed == [1, 3, 7, 14, 30] && e.passed
    && (e.run == cycle || e.run == scan) && e.lastChecked.Some? && e.lastChecked.value <= now
    && e.security.level.Checked?
    && (match manual
        case Some(verdict) => verdict.Verified?
        case None => e.security.missing == 0)
  }

  /** A well scheduled entry meets the policy exactly when it qualifies: a verdict of the owner
    * other than a verification holds it back whatever the entry says, a verification lets it
    * through, and without a verdict nothing may be missing. */
  lemma MainRadarPolicyExactly(e: F.Entry, cycle: nat, scan: nat, now: Time, manual: Option<F.Verdict>)
    requires F.EntryOk(e)
    ensures UnmetForMainRadar(e, cycle, scan, now, manual) == {} <==> Qualifies(e, cycle, scan, now, manual)
  {
    UnmetExactly(e, cycle, scan, now, manual);
    NoOtherConditions(UnmetForMainRadar(e, cycle, scan, now, manual));
    AllCheckpointsExactly(e);
  }

  lemma AllCheckpointsExactly(e: F.Entry)
    requires F.EntryOk(e)
    ensures (forall k :: 0 <= k < |F.CHECKPOINTS| ==> F.CHECKPOINTS[k] in e.completed) <==> e.completed == [1, 3, 7, 14, 30]
  {
    if forall k :: 0 <= k < |F.CHECKPOINTS| ==> F.CHECKPOINTS[k] in e.completed {
      assert F.CHECKPOINTS[4] == 30;
      F.HasDay30(e);
    }
  }

  lemma UnmetExactly(e: F.Entry, cycle: nat, scan: nat, now: Time, manual: Option<F.Verdict>)
    ensures var unmet := UnmetForMainRadar(e, cycle, scan, now, manual);
      && (FreshDataCurrentCycle in unmet <==> !(e.lastChecked.Some? && e.lastChecked.value <= now && (e.run == cycle || e.run == scan)))
      && (PromotionResolverReady in unmet <==>
            !(e.status.Candidate? && forall k :: 0 <= k < |F.CHECKPOINTS| ==> F.CHECKPOINTS[k] in e.completed))
      && (BasicFiltersPassed in unmet <==> !e.passed) && (NoCriticalRisk in unmet <==> e.security.level.CriticalRisk?)
      && (SecurityChecked in unmet <==> !e.security.level.Checked?)
      && (ManualVerificationAllows in unmet <==>
            if manual.Some? then !manual.value.Verified?
            else e.security.level.ManualVerificationRequired? || e.security.level.PartiallyChecked? || e.security.missing > 0)
      && unmet <= {FreshDataCurrentCycle, PromotionResolverReady, BasicFiltersPassed, NoCriticalRisk, SecurityChecked, ManualVerificationAllows}
  {
  }

  // ----- Runs -----

  /** What was known of an identity, in the events alone, when a cycle read the basket. */
  ghost predicate WasQualified(events: seq<F.Event>, identity: Identity, cycle: nat, scan: nat, now: Time) {
    && (LatestVerdict(events, identity).Some? ==> LatestVerdict(events, identity).value.verdict.Verified?)
    && CheckedAt(events, identity).Some? && CheckedAt(events, identity).value <= now
    && LatestNews(events, identity).Some? && LatestNews(events, identity).value.o.passed
    && (LatestNews(events, identity).value.run == cycle || LatestNews(events, identity).value.run == scan)
    && (exists security: F.Security :: IsSecurity(events, identity, security) && security.level.Checked?
          && (LatestVerdict(events, identity).None? ==> security.missing == 0))
  }

  /** At every promotion to the Main Radar of every run the owner's last verdict, if one is
    * remembered, is a verification; the identity was checked, no later than the promotion; its
    * latest news passed the filters and came from the cycle or its scan; and its security was
    * found checked, with nothing missing unless the owner has verified it. */
  lemma PromotionsWereQualified(ms: seq<Machine>, moves: seq<Move>, k: nat)
    requires Run(ms, moves) && k < |moves| && moves[k].BeginMainRadar?
    ensures var b := moves[k];
      b.read <= |ms[k].events| && WasQualified(ms[k].events[..b.read], b.identity, b.cycle, b.scan, b.now)
  {
    var b, seen := moves[k], ms[k].events[..moves[k].read];
    assert Allowed(ms[k], b);
    ReadMeansQualified(seen, b.identity, b.cycle, b.scan, b.now);
  }

  function VerdictIn(basket: F.Store, identity: Identity): Option<F.Verdict> {
    if identity in basket.manual then Some(basket.manual[identity].verdict) else None
  }

  lemma ReadMeansQualified(seen: seq<F.Event>, identity: Identity, cycle: nat, scan: nat, now: Time)
    requires var basket := F.StoreAfter(seen);
      identity in basket.entries && UnmetForMainRadar(basket.entries[identity], cycle, scan, now, VerdictIn(basket, identity)) == {}
    ensures WasQualified(seen, identity, cycle, scan, now)
  {
    var basket := F.StoreAfter(seen);
    F.ReachableStoresAreOk(seen);
    EntriesTellHistory(seen, identity);
    MainRadarPolicyExactly(basket.entries[identity], cycle, scan, now, VerdictIn(basket, identity));
    assert IsSecurity(seen, identity, basket.entries[identity].security);
  }

  /** And an entry that has been rechecked through its schedule, is a candidate, and was so
    * qualified when the cycle read it, is never held back by the policy. */
  lemma QualifiedIsNeverHeldBack(m: Machine, identity: Identity, cycle: nat, scan: nat, now: Time, read: nat)
    requires read <= |m.events| && identity in F.StoreAfter(m.events[..read]).entries
    requires var e := F.StoreAfter(m.events[..read]).entries[identity]; e.status.Candidate? && e.completed == [1, 3, 7, 14, 30]
    requires WasQualified(m.events[..read], identity, cycle, scan, now)
    ensures MayPromote(m, identity, now, cycle, scan, read)
  {
    var seen := m.events[..read];
    var basket := F.StoreAfter(seen);
    F.ReachableStoresAreOk(seen);
    EntriesTellHistory(seen, identity);
    var security: F.Security :| IsSecurity(seen, identity, security) && security.level.Checked?
                                && (LatestVerdict(seen, identity).None? ==> security.missing == 0);
    SecurityIsOne(seen, identity, security, basket.entries[identity].security);
    MainRadarPolicyExactly(basket.entries[identity], cycle, scan, now, VerdictIn(basket, identity));
  }

  /** The events leave no doubt about the security of an identity. */
  lemma {:induction false} SecurityIsOne(events: seq<F.Event>, identity: Identity, a: F.Security, b: F.Security)
    requires IsSecurity(events, identity, a) && IsSecurity(events, identity, b)
    ensures a == b
  {
    var front, e := events[..|events| - 1], events[|events| - 1];
    if SeenAt(front, identity).Some? && !(e.WasRechecked? && e.id == identity) && !(e.OwnerVerified? && e.id == identity) {
      SecurityIsOne(front, identity, a, b);
    }
  }

  /** A rejected token is not promoted, whatever its entry says: such an entry, and the verdict
    * that holds it back. */
  lemma RejectionHoldsBack(e: F.Entry, cycle: nat, scan: nat, now: Time, verdict: F.Verdict)
    requires !verdict.Verified?
    ensures ManualVerificationAllows in UnmetForMainRadar(e, cycle, scan, now, Some(verdict))
  {
    UnmetExactly(e, cycle, scan, now, Some(verdict));
  }

  /** At every promotion to the basket of every run the candidate met its policy and was not
    * set aside in the inbox. */
  lemma BasketPromotionsMetPolicy(ms: seq<Machine>, moves: seq<Move>, k: nat)
    requires Run(ms, moves) && k < |moves| && moves[k].BeginFollowUp?
    ensures var b := moves[k];
      && b.c.identityValid && b.validatedSnapshot && (b.c.o.name.Some? || b.c.o.symbol.Some?) && b.c.o.passed && !b.c.critical
      && b.c.o.newEmerging
      && (b.identity in ms[k].s.inbox ==> !ms[k].s.inbox[b.identity].archived && !ms[k].s.inbox[b.identity].rejected)
  {
    assert Allowed(ms[k], moves[k]);
    FollowUpPolicyExactly(moves[k].c, moves[k].validatedSnapshot, false, false);
  }
}
