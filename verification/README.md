# Promotion lifecycle, analysis queue, follow-up basket and address universe

A Dafny model of the stateful core of a token radar. Tokens are discovered (New), watched in a
follow-up basket, and promoted to a managed universe of established addresses (Main Radar). A job
queue with leases, rate limits and a circuit breaker feeds an AI provider. The model is about what
holds over whole runs: failures between any two writes, many workers interleaving, clocks that only
go forward, batches in any order.

| File | What it models |
|---|---|
| `Common.dfy` | Option, Result, times in milliseconds |
| `Lifecycle.dfy` | the five stores of a promotion, each write, the write lists of promotion and recovery, and a machine whose moves are single writes, failures, and what other processes do |
| `LifecycleSafety.dfy` | the invariant of that machine |
| `LifecycleRuns.dfy` | write order, crash atomicity and the audit over every run |
| `LifecycleRecovery.dfy` | recovery interrupted anywhere and restarted |
| `LifecyclePlans.dfy` | what the single writes, plans and transitions of that machine are |
| `LifecyclePolicy.dfy` | the two promotion policies, and what every promotion of a run has met |
| `LifecycleSeasoning.dfy` | thirty days in the basket before the Main Radar; promotions that the universe refuses |
| `LifecycleWitness.dfy` | runs that complete a promotion, have it refused, or have it disturbed |
| `LifecycleCycles.dfy` | the promotions of a cycle as moves of the machine |
| `LifecycleStores.dfy` | the stores as a class that is updated in place and may fail at any write |
| `JobTable.dfy`, `JobTheorems.dfy` | the rows of the queue, the transactions, and theorems over every run of them |
| `JobHistory.dfy` | what the rows tell about the transactions before: leases, statuses, times, results, retry delays |
| `QueueStore.dfy` | the queue store as a class, one method for each transaction |
| `RateLimits.dfy` | the request log and its sliding windows |
| `RateTheorems.dfy` | the six limits counted from the accepted requests |
| `CircuitBreaker.dfy` | the breaker row and the history it stands for |
| `AnalysisBudget.dfy` | the slots and the usage of the hourly and daily budget |
| `WorkerCycle.dfy` | one worker cycle with concurrent consumers |
| `WorkerCounts.dfy` | its counters and status told from the turns taken |
| `FollowUp.dfy`, `FollowUpBatch.dfy` | the checkpoint schedule, the entry operations, the cut, scans and recheck batches |
| `FollowUpHistory.dfy` | what an entry tells about the scans, rechecks and verdicts before |
| `FollowUpAudit.dfy` | the audit log of the basket and the verdicts read from it |
| `Universe.dfy`, `UniverseHistory.dfy` | the versioned universe, its history, audit and differences |
| `UniverseEdits.dfy` | what each mutation makes of the entries, and why it is refused |
| `Base58.dfy` | the base-58 check of an address, and the encoding it inverts |
| `CanonicalJson.dfy` | the key-sorting printer behind every checksum, and a reader of RFC 8259 for its texts |

The code updates its stores, rows and counters step by step; those parts are classes whose methods
are proved equal to specification functions (`Apply`, `Do`, `Step`, `Next`, `Mutated`), and the
theorems are about those functions. What the functions themselves do is stated a second time without
them: counters are counted from the turns, row times and results are those of the last transaction to
write them, limits are counted in the accepted requests, an entry tells the news of its identity, and
a printed text is read back by an independent reader. Schedules, policies, differences and the printer
are pure in the code and pure here.

Results that contradict what one may expect of the code:

- The address of the all-zero key (32 times `1`) decodes to 32 bytes and is refused; it is the only
  such address (`AddressesAreKeys`, `ZeroKeyIsAKey`).
- A promotion to the Main Radar goes on from its target write exactly when the universe holds the
  identity enabled, or does not hold it, has fewer than 100 entries, valid texts for the entry, a
  version left and entries whose times are in order. Otherwise it throws after its plan is written, and
  the next recovery marks it committed although nothing was applied. Runs reach this with a disabled
  duplicate and with a full universe; basket texts are always valid, so the texts are never the reason
  in practice (`PromotionGoesOnExactly`, `RefusedPromotionIsAbandoned`, `RefusalIsReachable`). A
  disabled duplicate that stays eligible also keeps everything after it in the order of the basket from
  being promoted, in every cycle (`DuplicateStarvesTheRest`).
- A commit leaves an applied operation complete exactly when no other process disturbed it meanwhile. A
  review between the inbox write and the commit can give the token a row that says New, and a
  synchronisation with a universe that could not be read can take the basket entry back; the next cycle
  that sees the token makes both good (`CommitIsAllOrNothing`, `UndisturbedCommitIsComplete`,
  `LateReviewIsReachable`, `StrayedEntryIsReachable`, `NextCycleMakesGood`).
- Pruning the request log at 24 hours changes no answer exactly when the configured window is at most
  24 hours (`PruningIsInvisible`). The service clamps the window to an hour
  (tools/ui-mock/server/aiResearchService.ts:84), so a longer one takes a direct caller of the store.
- The retry hint is too short when the window holds more requests than its limit, as after a lowered
  limit, and exactly when is stated (`RetryHintIsExact`, `LoweredLimitHintsTooEarly`).
- A half-open probe whose outcome is never recorded keeps the breaker shut for ever
  (`OneProbePerOutcome`, `LostProbeShutsOut`).
- A new or maturing basket entry without a next check exists, and exactly when is stated
  (`UnscheduledExactly`, `StrandedEntry`).
- A forced enqueue of the only row that holds a good result is the one step that loses it
  (`OnlyForceLosesKnownGood`, `ForcedEnqueueLoses`). No caller in the repository forces an enqueue; it
  too takes a direct caller of the store.
- The analyses that count against the budget can exceed its maximum, and exactly when: a run stays
  within it if and only if no step claims or completes, inside its window, a job that does not count
  yet while the budget is full (`UsageStaysWithinExactly`, `StepExceedsExactly`). The check of a slot
  right after a claim catches the claims (`ClaimWithoutSlotOverdraws`); nothing catches the
  completions, nor a claim that is checked after another worker's completion (`LateCompletionExceeds`,
  `CompletionBetweenClaimAndCheck`, `SlotCountsOnlyEarlier`).
- A scan into a nearly full basket loses entries to the cut at a thousand exactly when it brings more new
  identities than there is room for (`StepLosesEntriesExactly`), and a verdict of the owner is forgotten
  exactly when two hundred entries have been logged since (`VerdictSurvivesExactly`).

## Model

| member | source | states |
|---|---|---|
| LifecycleSafety.RunsAreSafe | tools/data-poc/src/systemLifecycle.ts:463-628 | in every run, with failures anywhere, reviews at any moment and basket operations with any universe, every machine satisfies the invariant: at most one operation not committed, journal never ahead of the stores but for what another process disturbed, pending writes in order |
| LifecycleSafety.EveryMoveIsSafe | tools/data-poc/src/systemLifecycle.ts:485-628 | each single write, failure, recovery start, plan, review, basket operation and universe change keeps that invariant |
| LifecycleSafety.NextWriteIsSafe | tools/data-poc/src/systemLifecycle.ts:551-628 | the next pending write, or its throw, keeps the invariant |
| LifecycleSafety.StartIsSafe | tools/data-poc/src/systemLifecycle.ts:485-492 | recovery may start from whatever a failed cycle left |
| LifecycleSafety.RecoverOneIsInOrder | tools/data-poc/src/systemLifecycle.ts:807-822 | recovery of an operation that reached its target writes no store and records no stage before the writes it relies on, and its stages rise to the commit |
| LifecycleSafety.ReconciliationIsInOrder | tools/data-poc/src/systemLifecycle.ts:608-623 | so do the writes after a duplicate was found enabled in the universe |
| LifecycleSafety.FollowUpPlanIsInOrder | tools/data-poc/src/systemLifecycle.ts:555-568 | the writes of a promotion to the basket are in order |
| LifecycleSafety.MainRadarPlanIsInOrder | tools/data-poc/src/systemLifecycle.ts:589-604 | the writes of a promotion to the Main Radar are in order |
| LifecycleSafety.BasketKeepsProgress | tools/data-poc/src/followUpBasket.ts:365-609 | a scan, recheck, verification or synchronisation, with whatever universe, leaves the entry of an unfinished operation established or is recorded as having disturbed it |
| LifecycleSafety.StrayedEntriesAreNotEstablished | tools/data-poc/src/followUpBasket.ts:365-609 | what is recorded as disturbed really is not established |
| LifecycleSafety.ReviewMoveIsSafe | tools/data-poc/src/systemLifecycle.ts:385-433 | a review that adds inbox rows at any moment, without the lifecycle lock, keeps the invariant |
| LifecycleRuns.WriteOrder | tools/data-poc/src/systemLifecycle.ts:551-606 | in every step of every run the journal only grows and its stages only rise; audited implies applied everywhere, but for what another process disturbed; at most one operation is unfinished |
| LifecycleRuns.JournalRises | tools/data-poc/src/systemLifecycle.ts:758-766 | no step lowers a stage or changes an operation otherwise |
| LifecycleRuns.OnlyOperationsWrite | tools/data-poc/src/systemLifecycle.ts:463-628 | between the moves of other processes a store other than the journal changes only for the unfinished operation, or by the scan's refresh of the inbox |
| LifecycleRuns.CommitIsAllOrNothing | tools/data-poc/src/systemLifecycle.ts:551-606 | the step that commits an operation leaves it written to the journal only, or applied; and then fully applied if and only if no other process has disturbed its basket entry or its inbox row |
| LifecycleRuns.UndisturbedCommitIsComplete | tools/data-poc/src/systemLifecycle.ts:551-606 | with no disturbing move the commit leaves it fully applied, or only in the journal, whatever failed before |
| LifecycleRuns.UndisturbedStays | tools/data-poc/src/systemLifecycle.ts:385-433 | only a first inbox row from a review, or a basket operation with a universe that lacks the identity, disturbs an operation |
| LifecycleRuns.NextCycleMakesGood | tools/data-poc/src/systemLifecycle.ts:496-548 | the next refresh of the inbox and the next synchronisation restore what was disturbed |
| LifecycleRuns.CommittedMeansSettled | tools/data-poc/src/systemLifecycle.ts:551-628 | every committed operation of every run was applied at its commit, with basket and inbox complete if and only if undisturbed, or never wrote another store |
| LifecycleRuns.CompletedRecoverySettlesAll | tools/data-poc/src/systemLifecycle.ts:778-825 | after one completed recovery every journalled operation is committed, whatever failed before |
| LifecycleRuns.RecoveryNeverThrows | tools/data-poc/src/systemLifecycle.ts:793-823 | no write of a recovery throws, in any run |
| LifecycleRuns.AuditTellsTheTruth | tools/data-poc/src/systemLifecycle.ts:701-713 | no transition is ever twice in the audit, each audited one belongs to one operation that wrote its stores, and an operation that wrote only the journal is not audited |
| LifecycleRuns.AuditStaysSourced | tools/data-poc/src/systemLifecycle.ts:701-713 | every move keeps each audited transition tied to its one operation |
| LifecyclePlans.BasketPromotionKeepsUp | tools/data-poc/src/systemLifecycle.ts:551-569 | each write to a store is followed at once by its stage in the journal, and the last write is the commit |
| LifecyclePlans.RadarPromotionKeepsUp | tools/data-poc/src/systemLifecycle.ts:589-606 | so in a promotion to the Main Radar |
| LifecyclePlans.ReconciliationKeepsUp | tools/data-poc/src/systemLifecycle.ts:608-623 | so in a reconciliation |
| LifecyclePlans.RecoveryKeepsUp | tools/data-poc/src/systemLifecycle.ts:793-823 | so in a recovery for every stage the journal does not record yet; the target is recorded first when it is missing |
| LifecyclePlans.RecordingTwice | tools/data-poc/src/systemLifecycle.ts:758-766 | recording a stage again changes nothing, and an earlier stage is refused |
| LifecyclePlans.JournalNamesItsTransitions | tools/data-poc/src/systemLifecycle.ts:701-756 | in every run what is audited is a transition of the identity of its operation to the layer of its target |
| LifecyclePlans.ReconciledExactly | tools/data-poc/src/systemLifecycle.ts:589-623 | the transition audited is marked reconciled if and only if the universe held the identity enabled already |
| LifecyclePlans.PromotedEntry | tools/data-poc/src/systemLifecycle.ts:590-594 | the universe entry has the name and symbol given in their places, is enabled, dated now and added by the system; no other entry changes |
| LifecyclePlans.BasketPromotionIsItsScan | tools/data-poc/src/systemLifecycle.ts:551-558 | a promotion to the basket writes its plan, and then the entry of the scan the cycle read: its time, run, texts, market and filter result, due a day later unless in the universe; no other entry and no other store changes |
| LifecyclePlans.InboxRowMoves | tools/data-poc/src/systemLifecycle.ts:827-842 | the row of the identity alone moves to its layer with the transition first, 64 transitions at most; flags stay |
| LifecyclePlans.AuditGrowsAtItsHead | tools/data-poc/src/systemLifecycle.ts:701-713 | an unknown transition comes first, the others keep their order, at most 5000 |
| LifecyclePlans.CycleRefreshesTheInbox | tools/data-poc/src/systemLifecycle.ts:496-548 | after recovery each scanned token has the layer it is found in, the Main Radar before the basket; flags and transitions stay, other rows do not change |
| LifecyclePlans.ReviewAddsRows | tools/data-poc/src/systemLifecycle.ts:385-433 | a review adds a New row for each unseen token and changes no other row |
| LifecyclePolicy.FollowUpPolicyExactly | tools/data-poc/src/systemLifecycle.ts:316-331 | each condition of a basket promotion is unmet if and only if its fact is missing, and it is allowed if and only if all facts hold |
| LifecyclePolicy.BasketPromotionsMetPolicy | tools/data-poc/src/systemLifecycle.ts:551-569 | at every promotion to the basket of every run the candidate met them and its inbox row was neither archived nor rejected |
| LifecyclePolicy.MainRadarPolicyExactly | tools/data-poc/src/systemLifecycle.ts:333-367 | an entry is allowed if and only if it is a candidate with all five checkpoints, passed, fresh from the cycle or its scan, security checked, and verified by the owner or, with no verdict, with nothing missing |
| LifecyclePolicy.UnmetExactly | tools/data-poc/src/systemLifecycle.ts:333-367 | each single condition is unmet if and only if its fact is missing |
| LifecyclePolicy.PromotionsWereQualified | tools/data-poc/src/systemLifecycle.ts:333-367 | at every promotion to the Main Radar of every run, told from the events before the basket was read: the last remembered verdict is Verified, the last check is no later than the promotion, the latest news passed and carries the run of the cycle or its scan, security was found checked |
| LifecyclePolicy.QualifiedIsNeverHeldBack | tools/data-poc/src/systemLifecycle.ts:333-367 | an entry through its schedule whose events say so is never held back by the policy |
| LifecyclePolicy.RejectionHoldsBack | tools/data-poc/src/systemLifecycle.ts:356-360 | any verdict but Verified holds a token back whatever its entry says |
| LifecyclePolicy.SecurityIsOne | tools/data-poc/src/followUpBasket.ts:540-609 | the events determine the security of an identity |
| LifecycleRecovery.RecoveryReachesOutcome | tools/data-poc/src/systemLifecycle.ts:778-825 | an uninterrupted recovery leaves the stores that a direct description of its outcome gives, with nothing unfinished and every operation that reached its target fully applied |
| LifecycleRecovery.PrefixKeepsOutcome | tools/data-poc/src/systemLifecycle.ts:807-822 | any number of its writes but the last leaves the same outcome to reach, and repeating them changes nothing |
| LifecycleRecovery.InterruptionKeepsOutcome | tools/data-poc/src/systemLifecycle.ts:778-825 | an interruption after any number of writes leaves the outcome unchanged |
| LifecycleRecovery.RecoveryIsRestartable | tools/data-poc/src/systemLifecycle.ts:778-825 | after any sequence of interruptions, rerunning at the same moment ends in exactly the stores of one uninterrupted run |
| LifecycleRecovery.ReachableIsRecoverable | tools/data-poc/src/systemLifecycle.ts:485-492 | every machine of every run meets what the restart theorem assumes |
| LifecycleRecovery.AppendTwice | tools/data-poc/src/systemLifecycle.ts:701-709 | appending a transition again changes nothing, also at the 5000-entry cut |
| LifecycleRecovery.WithdrawnTargetStaysUnfinished | tools/data-poc/src/systemLifecycle.ts:800-806 | recovery does nothing for an operation if and only if its target entry is gone after the first stage |
| LifecycleSeasoning.PromotionIsSeasoned | tools/data-poc/src/systemLifecycle.ts:333-367 | a promotion to the Main Radar had, before the basket was read, a recheck at least 30 days after the first-seen time its entry still has; the other conditions are told by LifecyclePolicy.PromotionsWereQualified |
| LifecycleSeasoning.ThirtyDaysInTheBasket | tools/data-poc/src/systemLifecycle.ts:575-606 | an identity outside the basket at some moment is promoted to the Main Radar later only after another process rechecked it at least 30 days after the scan that brought it in |
| LifecycleSeasoning.RechecksAreMoves | tools/data-poc/src/systemLifecycle.ts:551-606 | no write of a cycle is a recheck |
| LifecycleSeasoning.RefusedPromotionIsAbandoned | tools/data-poc/src/systemLifecycle.ts:589-627 | whatever the reason of a refusal, the cycle stops with only the plan written, and recovery then marks the operation committed and writes nothing else |
| LifecycleSeasoning.DisabledDuplicateIsAbandoned | tools/data-poc/src/systemLifecycle.ts:608-612 | so for an identity held disabled |
| LifecycleSeasoning.EachRefusalHasItsReason | tools/data-poc/src/establishedUniverseManager.ts:246-267 | which refusal the target write meets, in terms of the universe and the entry |
| LifecycleSeasoning.DuplicateStarvesTheRest | tools/data-poc/src/systemLifecycle.ts:575-628 | while a disabled duplicate stays eligible, every cycle stops at it and no identity behind it is ever promoted |
| LifecycleSeasoning.CycleStopsExactly | tools/data-poc/src/systemLifecycle.ts:575-628 | the promotions of a cycle stop if and only if some entry of the order is refused by the universe that the additions before it left |
| LifecycleCycles.CycleFollowsTheLoop | tools/data-poc/src/systemLifecycle.ts:575-628 | from every promoting machine of every run, planning the entries of an order one after the other and leaving them alone leads to a machine of a run with the universe of that loop, down if and only if the loop stopped |
| LifecycleCycles.PromotesOne | tools/data-poc/src/systemLifecycle.ts:589-627 | one of them: added and on to the next, or stopped with the universe as it was |
| LifecycleWitness.RefusalIsReachable | tools/data-poc/src/systemLifecycle.ts:575-627 | for every universe that does not hold the identity enabled and cannot take it, a run, with an entry seasoned for thirty days, comes to such a refused promotion |
| LifecycleWitness.DisabledDuplicateIsReachable | tools/data-poc/src/systemLifecycle.ts:575-627 | one with the identity held disabled |
| LifecycleWitness.FullUniverseIsReachable | tools/data-poc/src/establishedUniverseManager.ts:248 | one with 100 other entries |
| LifecycleWitness.PromotionIsReachable | tools/data-poc/src/systemLifecycle.ts:589-606 | for every universe that can take the identity, a run that commits the promotion fully applied |
| LifecycleWitness.LateReviewIsReachable | tools/data-poc/src/systemLifecycle.ts:385-433 | a run in which a review before the commit leaves a row that says New beside a committed promotion |
| LifecycleWitness.StrayedEntryIsReachable | tools/data-poc/src/internalBetaCollector.ts:339-342 | a run in which a synchronisation with an empty universe leaves the entry of a committed promotion not established |
| LifecycleWitness.ComesToTheCommit | tools/data-poc/src/systemLifecycle.ts:589-606 | left alone, an operation that reached its target comes to its commit |
| LifecycleSeasoning.PromotionGoesOnExactly | tools/data-poc/src/systemLifecycle.ts:590-627 | the target write lets the cycle go on if and only if the identity is enabled in the universe, or is not in it and there is room, valid texts, a version left and times in order |
| LifecycleSeasoning.AdditionSucceedsExactly | tools/data-poc/src/establishedUniverseManager.ts:246-324 | the universe takes an identity under exactly those conditions |
| LifecycleStores.PromotionStores.CreateOperation | tools/data-poc/src/systemLifecycle.ts:731-756 | one plan write under a new operation, the existing operation for a transition planned before, or a failure that changes nothing |
| LifecycleStores.PromotionStores.UpdateStage | tools/data-poc/src/systemLifecycle.ts:758-766 | records a stage if and only if the operation exists and the stage does not fall |
| LifecycleStores.PromotionStores.IngestCandidate | tools/data-poc/src/systemLifecycle.ts:557 | the target write of a promotion to the basket |
| LifecycleStores.PromotionStores.AddToUniverse | tools/data-poc/src/systemLifecycle.ts:592 | the target write of a promotion to the Main Radar, and when it is refused as a duplicate |
| LifecycleStores.PromotionStores.SynchronizeMembership | tools/data-poc/src/systemLifecycle.ts:595-596 | the basket synchronised with the members given |
| LifecycleStores.PromotionStores.SetInboxLifecycleStatus | tools/data-poc/src/systemLifecycle.ts:827-842 | the inbox row moved to its layer, or nothing when it is there or missing |
| LifecycleStores.PromotionStores.AppendLifecycleAudit | tools/data-poc/src/systemLifecycle.ts:701-713 | the transition at the head of the audit unless it is already in it |
| LifecycleStores.PromotionStores.AdvanceFrom | tools/data-poc/src/systemLifecycle.ts:795-799 | stages already reached are skipped |
| LifecycleStores.PromotionStores.RecoverOperation | tools/data-poc/src/systemLifecycle.ts:793-823 | with failure after any number of writes, exactly that many first writes of the operation's recovery have been made |
| LifecycleStores.PromotionStores.Recover | tools/data-poc/src/systemLifecycle.ts:778-825 | the same for the whole recovery, the number of recovered operations, and the outcome of a completed one |
| LifecycleStores.PromotionStores.PromoteToFollowUp | tools/data-poc/src/systemLifecycle.ts:551-569 | exactly the first writes of the promotion up to the failure |
| LifecycleStores.PromotionStores.PromoteToMainRadar | tools/data-poc/src/systemLifecycle.ts:589-627 | the same, with reconciliation of an enabled duplicate and a stop after the plan for any other refusal |
| LifecycleStores.TargetWritesAreTheMachines | tools/data-poc/src/systemLifecycle.ts:589-627 | those writes are the ones the machine of the run theorems makes |
| LifecycleStores.RecoveryFrame | tools/data-poc/src/systemLifecycle.ts:793-823 | recovery of one operation changes no other journal entry, no universe and no basket membership |
| JobTheorems.StaleOwnerChangesNothing | tools/ui-mock/server/aiResearchQueueStore.ts:354-588 | renew, record, defer, complete and fail by a worker that did not claim the job last change nothing |
| JobTheorems.OldOwnerStaysLockedOut | tools/ui-mock/server/aiResearchQueueStore.ts:325-588 | once another worker claimed a job, the former owner changes nothing until it claims the job again itself |
| JobTheorems.OwnerIsLastClaimant | tools/ui-mock/server/aiResearchQueueStore.ts:340-344 | the lease owner of a row is the last worker to claim it |
| JobTheorems.ResultsComeFromLastClaimant | tools/ui-mock/server/aiResearchQueueStore.ts:484-536 | every valid result was stored by the last worker to claim its job |
| JobTheorems.AttemptsAreClaimsLessDeferrals | tools/ui-mock/server/aiResearchQueueStore.ts:340-344 | the attempt count is the number of claims less deferrals: a deferral undoes its claim exactly |
| JobTheorems.AttemptsAreBounded | tools/ui-mock/server/aiResearchQueueStore.ts:544-588 | with one attempt limit and no forced enqueue, attempts are at most the limit plus the expired leases taken over, and fewer while waiting |
| JobTheorems.OneReadyPerToken | tools/ui-mock/server/aiResearchQueueStore.ts:510-519 | at most one row of a token is ready in any run |
| JobTheorems.ResultsAreKept | tools/ui-mock/server/aiResearchQueueStore.ts:251-261 | without forced enqueues a completed row stays ready or becomes stale and keeps its result |
| JobTheorems.KnownGoodIsNeverLost | tools/ui-mock/server/aiResearchQueueStore.ts:920-943 | after a completion every later lookup under the same token and versions finds a result for them |
| JobTheorems.OnlyForceLosesKnownGood | tools/ui-mock/server/aiResearchQueueStore.ts:246-311 | a step loses the last known good result if and only if it is an admitted forced enqueue of the only row that holds one |
| JobTheorems.ForcedEnqueueLoses | tools/ui-mock/server/aiResearchQueueStore.ts:282-288 | a run in which it does |
| JobTheorems.UnforcedEnqueueQueuesExactly | tools/ui-mock/server/aiResearchQueueStore.ts:251-281 | an unforced enqueue queues if and only if the key is new, or its last attempt failed and cooldown and retry time are over |
| JobTheorems.NobodyCutsIn | tools/ui-mock/server/aiResearchQueueStore.ts:325-339 | once a waiting job is eligible no other job comes to stand ahead of it |
| JobTheorems.BypassIsBounded | tools/ui-mock/server/aiResearchQueueStore.ts:325-347 | an eligible untouched job is passed over at most once by each job ahead of it and once by each expired lease taken over |
| JobTheorems.RetryDelayIsPositive | tools/ui-mock/server/aiResearchQueueStore.ts:1108-1115 | a retry is never due at once, with any jitter |
| JobHistory.RetryDelayDoubles | tools/ui-mock/server/aiResearchQueueStore.ts:1108-1115 | without jitter the first retry waits the base time and each later one twice as long as the one before |
| JobHistory.JitterSpreads | tools/ui-mock/server/aiResearchQueueStore.ts:1108-1115 | jitter spreads a delay by its ratio, at most a half, to either side: least at unit 0, the plain delay at a half, most at 1 |
| JobHistory.NextClaimable | tools/ui-mock/server/aiResearchQueueStore.ts:239-605 | from when a job may be claimed after each transaction that took effect: at now plus the lease after a claim or a renewal, at the retry time after a deferral, after the delay when a transient failure may be retried, never after a completion |
| JobHistory.LeaseIsAsGiven | tools/ui-mock/server/aiResearchQueueStore.ts:325-588 | in every run the lease of a row ends when the last claim or renewal said |
| JobHistory.LeasedUntilItsEnd | tools/ui-mock/server/aiResearchQueueStore.ts:325-347 | a job in progress is there for another worker if and only if that end has come |
| JobHistory.NobodyTakesALease | tools/ui-mock/server/aiResearchQueueStore.ts:325-360 | between a claim or a renewal and the end of the lease it gave no other claim of the job takes effect, unless the owner deferred, failed or completed it, a forced enqueue queued it, or a renewal set another end |
| JobHistory.StatusMoves | tools/ui-mock/server/aiResearchQueueStore.ts:239-605 | the status each transaction leaves, and the time of the last write |
| JobHistory.SmallSteps | tools/ui-mock/server/aiResearchQueueStore.ts:354-459 | a renewal moves the end of the lease and no more, a record the provider attempts and no more |
| JobHistory.OtherRowsStay | tools/ui-mock/server/aiResearchQueueStore.ts:484-542 | no row but its own changes, except that a completion turns ready rows of the token stale |
| JobHistory.FailureIsJudged | tools/ui-mock/server/aiResearchQueueStore.ts:544-588 | suspended if and only if not transient or at the attempt limit; invalid if and only if not transient |
| JobHistory.ClaimTakesTheOldest | tools/ui-mock/server/aiResearchQueueStore.ts:325-339 | the order of claims in terms of retry, queue and creation times |
| JobHistory.ResultIsTheLastStored | tools/ui-mock/server/aiResearchQueueStore.ts:484-536 | in every run the result of a row is the brief of its last completion, whatever came after |
| JobHistory.KnownGoodIsTheLatest | tools/ui-mock/server/aiResearchQueueStore.ts:920-943 | of the valid results of other rows the one completed last is returned |
| JobHistory.TimesTellHistory | tools/ui-mock/server/aiResearchQueueStore.ts:239-605 | in every run the created, queued, started, completed and failed times of a row are those of the last transactions to set or clear them |
| JobHistory.ProviderAttemptsAreStarts | tools/ui-mock/server/aiResearchQueueStore.ts:362-459 | in every run the provider attempts of a row are the starts recorded by its owners |
| JobHistory.ProviderMoves | tools/ui-mock/server/aiResearchQueueStore.ts:362-459 | an attempt answers or fails only after it started |
| JobHistory.EnqueueAnswers | tools/ui-mock/server/aiResearchQueueStore.ts:251-281 | why an unforced enqueue does not queue, and that a cooldown ends at the first moment at which it would |
| JobTable.InvariantStep | tools/ui-mock/server/aiResearchQueueStore.ts:239-605 | every transaction keeps the row invariant: processing exactly with an owner and a lease, valid exactly when ready or stale, a result under its own key |
| JobTable.Reachable | tools/ui-mock/server/aiResearchQueueStore.ts:239-605 | every row of every run satisfies it |
| QueueStore.AnalysisQueueStore.Enqueue | tools/ui-mock/server/aiResearchQueueStore.ts:239-323 | the answer from an existing row, the cooldown, the rate limit, or a queued row; the log and the table after it |
| QueueStore.AnalysisQueueStore.ClaimNext | tools/ui-mock/server/aiResearchQueueStore.ts:325-352 | claims an eligible job due no later than any other, and none only when none is eligible |
| QueueStore.AnalysisQueueStore.RenewLease | tools/ui-mock/server/aiResearchQueueStore.ts:354-360 | renews exactly for the owner, as the transaction of JobHistory.NextClaimable: the job may be claimed again from now plus the lease on |
| QueueStore.AnalysisQueueStore.RecordProvider | tools/ui-mock/server/aiResearchQueueStore.ts:362-459 | provider bookkeeping for the owner only; an outcome needs a started attempt |
| QueueStore.AnalysisQueueStore.DeferClaim | tools/ui-mock/server/aiResearchQueueStore.ts:461-482 | gives the claim and its attempt back, for the owner only |
| QueueStore.AnalysisQueueStore.Complete | tools/ui-mock/server/aiResearchQueueStore.ts:484-542 | stores a brief of the row's own key, supersedes the token's other ready rows |
| QueueStore.AnalysisQueueStore.Fail | tools/ui-mock/server/aiResearchQueueStore.ts:544-588 | retry below the limit for a transient failure, suspension otherwise |
| QueueStore.AnalysisQueueStore.Lookup | tools/ui-mock/server/aiResearchQueueStore.ts:223-227 | the row and the last known good result: the row's own, else the latest completed valid one of the token and versions |
| RateLimits.RequestLog.Admit | tools/ui-mock/server/aiResearchQueueStore.ts:945-1007 | the decision, which RateTheorems.RunAcceptsExactly counts out, and the log pruned and extended exactly when the request is accepted |
| RateLimits.WindowsNeverOverflow | tools/ui-mock/server/aiResearchQueueStore.ts:945-1007 | every interval of the length of a check's window holds at most its limit of accepted requests, whatever checks are made; RateTheorems.WindowsHold and HoursAndDaysHold write the limits out |
| RateTheorems.ChecksAreTheLimits | tools/ui-mock/server/aiResearchQueueStore.ts:945-982 | scope, window, limit and default of each of the six checks, written out from the configured limits |
| RateTheorems.AcceptedExactlyWithRoom | tools/ui-mock/server/aiResearchQueueStore.ts:945-982 | a request is accepted if and only if the requests of its session, its identity and everyone in the window, of its session and everyone in the hour and of everyone in the day are fewer than their limits |
| RateTheorems.RunAcceptsExactly | tools/ui-mock/server/aiResearchQueueStore.ts:945-1007 | in a run with a window of at most a day so, counted in all requests ever accepted |
| RateTheorems.WindowsHold | tools/ui-mock/server/aiResearchQueueStore.ts:945-1007 | then no window holds more accepted requests of a session, an identity or everyone than the limit of each |
| RateTheorems.HoursAndDaysHold | tools/ui-mock/server/aiResearchQueueStore.ts:945-1007 | no hour holds more of a session or everyone than their hourly limits, no day more than the daily one, whatever the window |
| RateTheorems.FullLimitAnswers | tools/ui-mock/server/aiResearchQueueStore.ts:984-1001 | a full limit answers with the whole seconds, rounded up and at least one, until its oldest request leaves |
| RateTheorems.FirstFullLimitAnswers | tools/ui-mock/server/aiResearchQueueStore.ts:945-982 | the first limit without room answers |
| RateTheorems.NoLimitAnswers | tools/ui-mock/server/aiResearchQueueStore.ts:984-1001 | a limit that is not positive refuses; for hour and day the answer is the whole window |
| RateLimits.StoredAnswersAlike | tools/ui-mock/server/aiResearchQueueStore.ts:945-982 | with a window of at most a day the pruned log decides as an unpruned one |
| RateLimits.PruningIsInvisible | tools/ui-mock/server/aiResearchQueueStore.ts:945-982 | that holds for all limits and requests if and only if the window is at most 24 hours |
| RateLimits.LongWindowForgets | tools/ui-mock/server/aiResearchQueueStore.ts:945-982 | three requests that show it fails for a longer window |
| RateLimits.RetryHintIsNeverTooLong | tools/ui-mock/server/aiResearchQueueStore.ts:984-1001 | any second earlier than the hint the check still refuses |
| RateLimits.RetryHintIsExact | tools/ui-mock/server/aiResearchQueueStore.ts:984-1001 | at the hint or later the check passes if and only if more requests have left than the window held too many; always when it held no more than its limit |
| RateLimits.LoweredLimitHintsTooEarly | tools/ui-mock/server/aiResearchQueueStore.ts:984-1001 | two requests under a limit lowered to one, for which the hint is too short |
| CircuitBreaker.RowSummarisesHistory | tools/ui-mock/server/aiResearchQueueStore.ts:629-682 | the stored row is a function of the history: capped trailing failures, closed exactly below the threshold, half open exactly while a probe is out |
| CircuitBreaker.PermitRule | tools/ui-mock/server/aiResearchQueueStore.ts:629-653 | a permit is granted if and only if failures are below the threshold or the open time is over and no probe is out |
| CircuitBreaker.OneProbePerOutcome | tools/ui-mock/server/aiResearchQueueStore.ts:629-682 | once not closed, at most one permit until an outcome is recorded, and none after a probe that never reports |
| CircuitBreaker.LostProbeShutsOut | tools/ui-mock/server/aiResearchQueueStore.ts:629-653 | a history of one failure and one probe after which no request ever gets a permit |
| CircuitBreaker.ReportedPhaseIsHonest | tools/ui-mock/server/aiResearchQueueStore.ts:1023-1042 | the phase shown agrees with the answer the next request for a permit gets |
| CircuitBreaker.FailureOpensExactly | tools/ui-mock/server/aiResearchQueueStore.ts:663-682 | a failure opens the breaker if and only if it was a probe or reaches the threshold, and then permits start again when the open time from now is over |
| CircuitBreaker.BreakerTable.AcquireCircuitPermit | tools/ui-mock/server/aiResearchQueueStore.ts:629-653 | the answer and the row after it |
| CircuitBreaker.BreakerTable.RecordCircuitSuccess | tools/ui-mock/server/aiResearchQueueStore.ts:655-661 | the row is reset |
| CircuitBreaker.BreakerTable.RecordCircuitFailure | tools/ui-mock/server/aiResearchQueueStore.ts:663-682 | the count, capped at a million, and whether the breaker opens |
| AnalysisBudget.SlotsAreBounded | tools/ui-mock/server/aiResearchQueueStore.ts:700-711 | in any table at most the maximum of keys hold a slot |
| AnalysisBudget.FreshClaimHasSlotExactly | tools/ui-mock/server/aiResearchWorker.ts:421-432 | right after a claim, under a clock that moved on, the claim holds a slot if and only if all that counts, itself included, is within the maximum |
| AnalysisBudget.UsageGrowsExactly | tools/ui-mock/server/aiResearchQueueStore.ts:685-698 | a step makes the usage grow, by one, if and only if it claims or completes, inside the window, a job that does not count yet |
| AnalysisBudget.StepExceedsExactly | tools/ui-mock/server/aiResearchQueueStore.ts:685-698 | from within the maximum a step exceeds it if and only if the budget is full and the step adds to it |
| AnalysisBudget.UsageStaysWithinExactly | tools/ui-mock/server/aiResearchQueueStore.ts:685-698 | over any run, with the sliding hour or the fixed day, the usage stays within the maximum if and only if no step adds to a full budget |
| AnalysisBudget.ClaimWithoutSlotOverdraws | tools/ui-mock/server/aiResearchWorker.ts:421-432 | right after a claim the slot is refused if and only if the claim overdraws the budget or finds it overdrawn |
| AnalysisBudget.SlotCountsOnlyEarlier | tools/ui-mock/server/aiResearchQueueStore.ts:700-711 | at any later check a job holds a slot if and only if the usage is within the maximum and as many more as come after the job |
| AnalysisBudget.UsageTellsHistory | tools/ui-mock/server/aiResearchQueueStore.ts:685-698 | in every run what counts is the jobs in work claimed, and those with an analysis completed, since the start of the window |
| AnalysisBudget.SlotsGoInOrder | tools/ui-mock/server/aiResearchQueueStore.ts:700-711 | in every run a job holds a slot if and only if it counts and fewer than the maximum have counted for longer, or as long with a smaller analysis id |
| AnalysisBudget.LateCompletionExceeds | tools/ui-mock/server/aiResearchWorker.ts:421-432 | a run over the change of day in which both claims hold their slot under a maximum of one a day, in the windows of their own checks, and two analyses count |
| AnalysisBudget.CompletionBetweenClaimAndCheck | tools/ui-mock/server/aiResearchQueueStore.ts:700-711 | a run in which another worker's completion between claim and check gives the claim a slot it did not have |
| WorkerCycle.StepConserves | tools/ui-mock/server/aiResearchWorker.ts:129-405 | every stretch of code between two awaits keeps each claim accounted for once |
| WorkerCycle.EveryTurnConserves | tools/ui-mock/server/aiResearchWorker.ts:129-163 | so does every interleaving of the consumers at every moment |
| WorkerCycle.EveryInterleavingConserves | tools/ui-mock/server/aiResearchWorker.ts:129-163 | when a cycle returns, claims are completions, retries, suspensions and deferrals; provider calls are between completions and claims less deferrals; claims respect the maximum |
| WorkerCycle.TurnsMakeProgress | tools/ui-mock/server/aiResearchWorker.ts:129-157 | every turn of a consumer uses up bounded work, so a cycle ends |
| WorkerCounts.CountersCountTurns | tools/ui-mock/server/aiResearchWorker.ts:180-405 | in every interleaving, at every moment, completed, retried, suspended, deferred, claimed, reserved and provider calls are the numbers of turns of live consumers of each kind that took effect |
| WorkerCounts.StatusTellsTheLastStop | tools/ui-mock/server/aiResearchWorker.ts:129-163 | the running status is what the last turn to set one said |
| WorkerCounts.ReportsExactly | tools/ui-mock/server/aiResearchWorker.ts:157-163 | suspended when the worker is, completed when a claim was completed, retried or suspended, else the last stop or idle |
| WorkerCounts.FlagTellsWhoSuspended | tools/ui-mock/server/aiResearchWorker.ts:360-405 | the worker is suspended as another process or a stored failure said last |
| WorkerCounts.ConsumerStopsExactly | tools/ui-mock/server/aiResearchWorker.ts:129-157 | when a consumer stops, is rejected, goes on to its next claim, or to each stage of one |
| WorkerCycle.AnalysisCycle.Reserve | tools/ui-mock/server/aiResearchWorker.ts:131-154 | the top of a consumer's loop: budget, claim, deferral |
| WorkerCycle.AnalysisCycle.ProcessClaim | tools/ui-mock/server/aiResearchWorker.ts:151-405 | the stages of a claimed job, the counter each outcome moves (WorkerCounts.CountersCountTurns tells which), and the reading of the worker's state after it |
| WorkerCycle.AnalysisCycle.RunCycle | tools/ui-mock/server/aiResearchWorker.ts:117-163 | the counters after any interleaving and the status the cycle reports |
| FollowUp.ElapsedIsInitial | tools/data-poc/src/followUpBasket.ts:611-615 | elapsed checkpoints are always an initial part of 1, 3, 7, 14, 30 |
| FollowUp.OpenCheckpoint | tools/data-poc/src/followUpBasket.ts:617-628 | the next checkpoint is the first that is neither completed nor past |
| FollowUp.CompletedAfterRecheck | tools/data-poc/src/followUpBasket.ts:540-571 | a recheck completes exactly the longer of the completed and the elapsed part |
| FollowUp.DueRecheckMakesProgress | tools/data-poc/src/followUpBasket.ts:532-581 | a recheck of a due entry strictly extends the completed part and leaves the entry not due |
| FollowUp.RecheckDecides | tools/data-poc/src/followUpBasket.ts:540-571 | outside the universe a recheck makes a candidate if and only if it passes, archives if and only if it fails on or after day 30, and otherwise schedules again |
| FollowUp.ObservationDecides | tools/data-poc/src/followUpBasket.ts:365-449 | outside the universe a scan leaves an entry new if and only if it is less than a day old; else a candidate if and only if it passes, archived if and only if it fails with all checkpoints complete; new and maturing entries are due again at their first open checkpoint |
| FollowUp.FirstScanDecides | tools/data-poc/src/followUpBasket.ts:396-449 | a first scan makes a new entry due a day later, or an established one never due |
| FollowUp.ScanDecides | tools/data-poc/src/followUpBasket.ts:365-449 | for every entry of the basket and every scan: which entries it adds, decides about or leaves alone |
| FollowUp.DueExactly | tools/data-poc/src/followUpBasket.ts:502-521 | an entry is due if and only if it is new or maturing and its next check has come |
| FollowUpHistory.EntriesTellHistory | tools/data-poc/src/followUpBasket.ts:365-609 | in every run an entry tells when its identity was first and last seen and last checked, its last known name and symbol, market, filter result and run of its latest news, its security, and the last verdict |
| FollowUpHistory.StatusDates | tools/data-poc/src/followUpBasket.ts:540-609 | when an entry became a candidate or was archived, and when that date is kept or taken away |
| FollowUp.NextCheckLiesAhead | tools/data-poc/src/followUpBasket.ts:617-628 | the next check after a recheck is later than the recheck |
| FollowUp.NextCheckLeavesNoGap | tools/data-poc/src/followUpBasket.ts:617-628 | every checkpoint before the next check is complete |
| FollowUp.SynchronisationDecides | tools/data-poc/src/followUpBasket.ts:583-609 | what leaving the universe makes of an established entry, in terms of its filter, checkpoints and age |
| FollowUp.UnscheduledExactly | tools/data-poc/src/followUpBasket.ts:396-436 | exactly when a new or maturing entry has no next check, after each operation |
| FollowUp.StrandedEntry | tools/data-poc/src/followUpBasket.ts:583-609 | an entry that matures without ever being due |
| FollowUp.SyncIsIdempotent | tools/data-poc/src/followUpBasket.ts:583-609 | synchronising again at the same moment changes nothing |
| FollowUp.ReachableStoresAreOk | tools/data-poc/src/followUpBasket.ts:365-609 | in every run completed checkpoints are an initial part of the schedule and only new and maturing entries are scheduled, at an open checkpoint |
| FollowUp.EntriesEndure | tools/data-poc/src/followUpBasket.ts:365-609 | before the cut at a thousand entries, no operation drops an entry, a checkpoint or the first-seen time, and only a recheck adds checkpoints |
| FollowUp.EntryOutlivesCutExactly | tools/data-poc/src/followUpBasket.ts:920-933 | with the cut, an entry outlives an operation if and only if fewer than a thousand identities, of the basket and the scan together, come before its own |
| FollowUp.StepLosesEntriesExactly | tools/data-poc/src/followUpBasket.ts:920-933 | an operation on a basket within its limit loses entries if and only if it is a scan with more new identities than there is room for |
| FollowUp.CutIsInvisibleExactly | tools/data-poc/src/followUpBasket.ts:920-933 | the cut drops nothing if and only if the basket has at most a thousand entries |
| FollowUp.AtMostFiveDueRechecks | tools/data-poc/src/followUpBasket.ts:532-581 | over any run an identity is found due and rechecked at most five times |
| FollowUp.AllCheckpointsMeanSeasoned | tools/data-poc/src/followUpBasket.ts:540-571 | day 30 is complete only through a recheck at least 30 days after the unchanging first-seen time |
| FollowUpAudit.FindLatestManualVerification | tools/data-poc/src/followUpBasket.ts:485-500 | the loop finds the newest verification of the identity in the log |
| FollowUpAudit.StoredIsCut | tools/data-poc/src/followUpBasket.ts:920-933 | cutting the log at 200 after each operation is cutting it once |
| FollowUpAudit.VerdictSurvivesExactly | tools/data-poc/src/followUpBasket.ts:485-500 | the stored log gives the latest verdict if and only if there is none or fewer than 200 entries have been logged since; otherwise it gives none |
| FollowUpAudit.RememberedIsLatest | tools/data-poc/src/followUpBasket.ts:451-500 | while no verdict is forgotten, the verdicts a basket remembers are the latest of the log without the cut |
| FollowUpBatch.Deduplicate | tools/data-poc/src/followUpBasket.ts:740-759 | each identity's candidate with most liquidity, then least id, sorted by identity |
| FollowUpBatch.BestIsMostLiquid | tools/data-poc/src/followUpBasket.ts:740-759 | the candidate kept has at least the liquidity of every other of its identity, among equals the least id |
| FollowUpBatch.DeduplicationIgnoresOrder | tools/data-poc/src/followUpBasket.ts:740-759 | the same list for every order of the candidates |
| FollowUpBatch.IngestObservations | tools/data-poc/src/followUpBasket.ts:365-449 | the loop over candidates is the pointwise scan of the whole basket, whose decisions FollowUp.ScanDecides states |
| FollowUpBatch.BatchIsPointwise | tools/data-poc/src/followUpCollector.ts:89-98 | each recheck of a batch meets its entry as it was before the batch |
| FollowUpBatch.BatchIgnoresOrder | tools/data-poc/src/followUpCollector.ts:89-98 | the same basket for every order of a batch with distinct entries |
| FollowUpBatch.SelectDue | tools/data-poc/src/followUpBasket.ts:502-521 | the due entries that are due earliest, at most the limit, five at most, and five when the limit is not positive |
| Universe.UniverseManager.EditEntries | tools/data-poc/src/establishedUniverseManager.ts:231-293 | the edited copy and the fields that changed, or why the mutation is refused; UniverseEdits.MutationEdits and PlannedExactly say what that is |
| Universe.UniverseManager.Mutate | tools/data-poc/src/establishedUniverseManager.ts:153-183 | swaps in the next store exactly when applied, refuses a stale expectation; UniverseEdits.AppliedExactly and MutationEdits say when and what |
| UniverseEdits.MutationEdits | tools/data-poc/src/establishedUniverseManager.ts:231-293 | before and after an applied mutation: each text is the one set, none after clearing, the old one when kept; other fields and entries are as before; an added entry has the texts given |
| UniverseEdits.AuditSaysWhatChanged | tools/data-poc/src/establishedUniverseManager.ts:295-338 | its audit entry names the mutation, the identity, who and when, and a text field if and only if that text differs |
| UniverseEdits.PlannedExactly | tools/data-poc/src/establishedUniverseManager.ts:231-293 | when the entries allow a mutation |
| UniverseEdits.AppliedExactly | tools/data-poc/src/establishedUniverseManager.ts:295-338 | it is applied if and only if they do, a version is left and the times are in order |
| UniverseEdits.RefusalsHaveTheirReason | tools/data-poc/src/establishedUniverseManager.ts:231-338 | the reason given for a refusal is one that holds |
| UniverseEdits.PlansHaveTheirReason | tools/data-poc/src/establishedUniverseManager.ts:231-293 | a duplicate is named before a full universe, and of invalid texts the first |
| UniverseEdits.ValidTextIsTrimmed | tools/data-poc/src/establishedAddressUniverse.ts:270-275 | a text is valid if and only if it is not empty, not too long and trimming leaves it as it is |
| UniverseEdits.ChecksumSeesEntries | tools/data-poc/src/establishedAddressUniverse.ts:152-157 | checksums agree if and only if the entries do |
| Universe.UniverseManager.FindVersion | tools/data-poc/src/establishedUniverseManager.ts:205-209 | the first snapshot of that version |
| Universe.PatchLeadsToTarget | tools/data-poc/src/establishedUniverseManager.ts:185-203 | patching a snapshot with its difference to another gives the other up to update times |
| Universe.EmptyDifference | tools/data-poc/src/establishedUniverseManager.ts:185-203 | a difference is empty if and only if the snapshots agree up to update times |
| UniverseHistory.NewestAuditExplains | tools/data-poc/src/establishedUniverseManager.ts:231-338 | the newest audit entry names exactly the one entry and the fields in the difference of its two versions |
| UniverseHistory.EveryStoreRecords | tools/data-poc/src/establishedUniverseManager.ts:295-338 | along any mutations versions are consecutive, history is the last 20 superseded snapshots, each of the last 200 audits explains its change |
| UniverseHistory.VersionsAreFound | tools/data-poc/src/establishedUniverseManager.ts:205-209 | a version is found if and only if it is current or among the 20 before, as exactly the snapshot that was current |
| UniverseHistory.RemoveUndoesAdd | tools/data-poc/src/establishedUniverseManager.ts:246-273 | removing an added entry restores the entries |
| UniverseHistory.EnableUndoesDisable | tools/data-poc/src/establishedUniverseManager.ts:274-278 | enabling a disabled entry restores it but for its update time |
| Base58.AddDigit | tools/data-poc/src/establishedAddressUniverse.ts:193-205 | one pass multiplies the number that the bytes denote by 58, adds the digit, and leaves bytes; the carry between bytes is at most 57 by the loop's invariant |
| Base58.IsValidAddress | tools/data-poc/src/establishedAddressUniverse.ts:190-210 | accepts if and only if the text is over the alphabet, decodes to 32 bytes and is not the all-zero key |
| Base58.IsValidSolanaAddress | tools/data-poc/src/establishedAddressUniverse.ts:76-210 | the same for the program's alphabet |
| Base58.MulAddMultiplies | tools/data-poc/src/establishedAddressUniverse.ts:196-204 | carrying through bytes in shortest form leaves the product in shortest form |
| Base58.MulAddIsTheProduct | tools/data-poc/src/establishedAddressUniverse.ts:196-204 | carrying through any bytes multiplies the number they denote |
| Base58.LengthGuardIsRedundant | tools/data-poc/src/establishedAddressUniverse.ts:191 | every text that decodes to 32 bytes has 32 to 44 characters |
| Base58.DecodeIsInjective | tools/data-poc/src/establishedAddressUniverse.ts:190-210 | different texts are addresses of different keys |
| Base58.ZeroKeyIsAKey | tools/data-poc/src/establishedAddressUniverse.ts:206-209 | the refused text decodes to 32 zero bytes |
| Base58.AlphabetIsInOrder | tools/data-poc/src/establishedAddressUniverse.ts:76 | the alphabet is the digits and letters in the order of their codes without 0, O, I and l |
| Base58.DecodeOfEncode | tools/data-poc/src/establishedAddressUniverse.ts:190-210 | decoding undoes encoding, for keys of any length |
| Base58.EveryKeyHasOneAddress | tools/data-poc/src/establishedAddressUniverse.ts:190-210 | every key has exactly one address |
| Base58.AddressesAreKeys | tools/data-poc/src/establishedAddressUniverse.ts:190-210 | the texts accepted are exactly the encodings of the 32-byte keys other than zero |
| CanonicalJson.CanonicalTextIsUnambiguous | tools/data-poc/src/establishedAddressUniverse.ts:247-253 | two values print alike if and only if they are equal up to the order of object keys |
| CanonicalJson.PrintRoundTrip | tools/data-poc/src/establishedAddressUniverse.ts:247-253 | a reader of RFC 8259 reads a printed text back, with nothing left over, as the value with the keys of every object in ascending order |
| CanonicalJson.PrintedReadsBack | tools/data-poc/src/establishedAddressUniverse.ts:247-253 | so inside any context |
| CanonicalJson.PrintIsPaired | tools/data-poc/src/followUpBasket.ts:236-239 | no half of a surrogate pair stands alone in a printed text, so hashing it as UTF-8 loses nothing |
| CanonicalJson.EscapeIsShortest | tools/data-poc/src/followUpBasket.ts:994-998 | each unit has its shortest spelling, with lower-case digits (RFC 8785, section 3.2.2.2) |
| CanonicalJson.PlainTextIsCopied | tools/data-poc/src/followUpBasket.ts:994-998 | text without control characters, quotes and backslashes is copied |
| CanonicalJson.LessIsByFirstDifference | tools/data-poc/src/followUpBasket.ts:994-998 | keys are compared by their first differing UTF-16 unit, a prefix first |
| CanonicalJson.EmitIsPrefixCode | tools/data-poc/src/establishedAddressUniverse.ts:247-253 | inside any context a printed value ends where it must, so the text determines the value |
| CanonicalJson.QuoteIsPrefixCode | tools/data-poc/src/followUpBasket.ts:994-998 | a quoted string determines its text and where it ends (RFC 8259, section 7) |
| CanonicalJson.SortedIsUnique | tools/data-poc/src/followUpBasket.ts:994-998 | the sorted keys are the same for every order of the members (RFC 8785, section 3.2.3) |
| CanonicalJson.SameValuesPrintAlike | tools/data-poc/src/establishedAddressUniverse.ts:152-157 | no reordering of keys changes a checksum's text |

## Left out

- Files, locks, fsync and temporary names: a locked store update is one atomic step. A process that dies with a lock file left behind is not part of the model; failures between writes are.
- The lifecycle model assumes that nobody removes or disables the universe entry of an unfinished operation; LifecycleRecovery.WithdrawnTargetStaysUnfinished says what happens otherwise. Other processes may give basket operations any universe and may review the inbox at any moment.
- FollowUp.EntriesEndure: states endurance before the cut at a thousand entries, and the lifecycle model assumes a basket below it; FollowUp.EntryOutlivesCutExactly and FollowUp.CutIsInvisibleExactly say when the cut matters.
- LifecycleSeasoning.DuplicateStarvesTheRest: other processes do not change the universe between the cycles or their promotions.
- The lifecycle model allows more than the code in two places, which only makes its theorems stronger: a promotion may be planned from any earlier reading of the basket, and the checks of the members read at the start of a cycle are not repeated.
- When the audit log of the basket forgets a verdict is not computed in the lifecycle runs: they allow it at any moment, and FollowUpAudit.VerdictSurvivesExactly says when it happens. What entries other than verdicts that log holds; the universe's validators for identity and owner names.
- Cycle receipts and the lifecycle summary: they write none of the stores modelled. Of the review bootstrap the model has the inbox rows it adds. The evaluation texts of a promotion are a set of unmet conditions.
- SQLite: schema, migrations and row parsing. A transaction is one step, rows parse, an analysis id and its cache key are one name, a digest is injective.
- Updated-at times of the breaker row and the safe error codes of rows: nothing modelled reads them.
- The worker's early exits before a cycle, token and cost budgets, provider calls and error classification: their outcomes are the events of the worker model.
- FollowUp.SyncIsIdempotent: the basket's audit log is not in the model; a second synchronisation changes no status, so the code adds no audit entry either.
- FollowUpBatch.Deduplicate: liquidity is a real number and missing liquidity counts as -1; identities and candidate ids are compared by rank, not by locale.
- CanonicalJson.CanonicalTextIsUnambiguous: numbers are their own tokens, so NaN, infinities, negative zero and undefined members are outside the model.
- Universe.PatchLeadsToTarget: a difference holds its lists as maps, so their order is not stated.
- HTTP clients, source policies, scanners, filters, reports, narrative texts and the user interface.
