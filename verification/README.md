# koord-queue in Dafny

A model of the in-memory state machines of koord-queue, a job queue for Kubernetes, with
proofs about every run of them. `dafny verify dfyconfig.toml` checks the whole project.

* **Quota ledger** (`QuotaTree`, `QuotaLedger`, `QuotaSafety`, `QuotaReversal`, `QuotaReports`,
  `QuotaCache`, on `Amounts` and `QueueUnits`). Quotas form a tree given by a parent map that may be
  cyclic or dangling. Counters are kept by walks up that map. The incremental counters
  equal a recomputation from the reserved units after every run, the limits hold over a run
  exactly when every growing step fits where it happens, a reservation is undone exactly, and
  the charges are those of the last reports exactly when no report is dropped.
* **Scheduling queues** (`UnitOrder`, `SortedSlots`, `UnitInfos`, `PriorityQueue`,
  `Preemption`, `IntelligentQueue`). A slice searched by a comparator that calls copies of
  one unit equal before it looks at their priority, beside a map of the same objects. Slice
  and map are objects on the heap, updated in place. Each operation is specified from any
  order of the slice, since records are also replaced behind its back: slice and map keep
  the same members exactly when the search hits, and come out strictly sorted exactly under
  a further condition on the order.
  What a scan hands out, and when it hands out the same unit again, is proved too.
* **Preempt, reclaim, shrink** (`Reclaim`, `PodDeletion`, `ResourceReporter`,
  `PodAdmission`). Several controllers lower the same replica counter: preemption, reclaim,
  pod deletion, the partial-running timeout and the shrinking of excess admissions. The
  floor, the replicas that run, is kept over every interleaving of them exactly when each
  step asks for no running replica.
* **Filter and Dequeue** (`FilterDequeue`) and the **index by quota** (`QuotaIndex`).
* **Conditions and the execution clock** (`Conditions`, `ExecutionClock`, `UnitStatus`) and
  the **backoff** (`Backoff`).
* **Keyed heap** (`KeyedHeap`) and the **failed-index parser** (`FailedIndexes`).

Hypotheses that the theorems carry, each named in a predicate: a UID keeps its quota label
while it is reserved (`Coherent`); an update event is about one object, whose UID and
creation time do not change (`Describes`); one name belongs to one UID at a time (`OneUid`);
admission, pod set and pod names are unique, as the API demands (`UniqueNames`, `UniquePodSets`,
`Distinct`); no more replicas run than are admitted where a victim is weighed (`Giving`); the root
quota has no parent among the quotas (`RootIsTop`); the amounts of a run are not negative
(`NonNegativeRun`), which `UnitLimitsHoldOverRuns` derives from queue units.

Properties that do not hold of the code as they are promised, with the input that shows it
and the exact condition under which they do:

* Checking and reserving take the cache lock separately (`StaleCheckOversells`). A
  reservation keeps the limits exactly when the check would pass where it is made
  (`ReserveWithinIff`), and a run does exactly when every growing step fits (`LimitsHoldIff`).
* A unit whose priority changes in the update that reports it dequeued stays in the slice of
  `PriorityQueue` but leaves its map (`ChangedPriorityIsMissed`, `PriorityQueue.Update`).
* The scheduler replaces the record of a queued object in place, while the update that reports
  it may still be pending. The order survives exactly when the object stays in its place
  (`ReplaceUnit`, `RerankIff`). What comes next decides. The pending update finds the object by
  the old record and restores the queue (`PendingUpdateRepairs`, `ReplaceThenUpdate`), and so
  does sorting (`ReplaceThenFix`, or `UpdateThreshold` in `IntelligentQueue`). But a delete
  searches with the new rank, misses a unit that was raised past its predecessor and leaves it
  in the slice (`RaisedUnitIsLeft`, `ReplaceThenDelete`). And once the slice has been sorted,
  the pending update may miss the unit and give it a second place (`ReplaceSortUpdate`,
  `ReplaceRedistributeUpdate`). `Update`, `Delete` and `Fix` have the exact condition in every
  such state: the search hits.
* A unit of `PriorityQueue` that is switched on again should be picked up by the scan, which
  starts over for it. It does not if nothing else is seen to change, as the update is skipped, and
  the unit waits until the cursor is reset for another reason
  (`ReactivatedIsMissed`, `ActivationRewindsIff`). Skipping hides a reclaim of all replicas too
  (`HiddenReclaim`, `SkippedAgree`), and a change of pod sets behind one without pods
  (`ZeroSetHidesChange`, `PodSetsChangedIff`).
* A reserved unit that loses part of its replicas should be scheduled again. As long as the
  others run it is not, and it stays in flight, so a queue that waits for pods reserves nothing
  (`PartlyReclaimedBlocks`; exactly when: `UpdatingIff`, `AssumedIff`).
* `IntelligentQueue` hands out a low unit in spite of an open high one exactly when that one
  lies before the cursor (`TryNext`). Three runs show it: a high unit that was passed asks for
  one replica more (`GrownUnitIsMissed`); a high unit before the cursor leaves, which puts the
  next one behind it (`LeavingUnitHidesNext`); the scan passes an open unit whose quota is
  blocked, and the one it hands out gets satisfied (`BlockedUnitIsPassed`). `Update` leaves the
  cursor alone unless something was released, all replicas run, or an assumed unit leaves.
  Without a release a satisfied unit opens only by needing more (`SilentOpening`), and
  `RemovalBehind` and `InsertionBehind` say exactly which units a removal or insertion puts
  behind the cursor.
* A high unit of `IntelligentQueue`, or any unit of a blocking `PriorityQueue`, is handed out
  again exactly if it has no quota that could be blocked (`AttemptTwice`), and then any number
  of times (`SameAgain`, `OnlyUnitAgain`).
* `IntelligentQueue` hands out a unit again while it is in flight, as long as no event comes in
  between (`NextReserveNext`); `PriorityQueue` does not.
* Resizes are dropped while a unit is marked as scheduling. Only DequeueComplete takes the mark
  away, so no resize of a unit that was loaded at a restart, or assigned again after a
  release, reaches the ledger before that (`LoadedUnitIsStuck`, `MarkOutlivesRelease`). The
  charges are current over a run exactly when every report is taken (`CurrentRunsIff`).
* Replicas of a Dequeued admission fall below its live pods when a pod name comes back
  (`ReturningPodIsShort`, `NeverShortIff`).
* A victim marked from a stale copy may be asked for a running replica
  (`StaleMarkBreaksFloor`); pods that disappear lower the replicas before the running ones
  are counted again (`DeletionBreaksFloor`); a timeout forgets a pending reclaim
  (`TimeoutBreaksFloor`). `StepKeepsFloorIff` has the condition for each.
* A pod set of count zero gets no admission, so its unit is never satisfied
  (`ZeroCountStaysUnsatisfied`, `EchoSatisfiesIff`), and an over-admitted pod set is
  requested in full again (`OverAdmittedGetsMore`, `OverAdmittedGrows`).
* A name that passes to another UID without a deletion stays listed under its old quota
  (`ReusedNameStaysListed`, `StepInvertsIff`).
* Transition times are stored in whole seconds, so every start of the execution clock may be
  charged up to a second too much (`CyclesBankSeconds`, `BudgetGoneEarly`). Nothing is
  overcharged over a run exactly when every start fits (`HonestRunsIff`).
* A job can dodge its budget: a running unit that is reserved once more and fails an admission
  check goes to Backoff unbanked (`RejectedCheckDodges`). Up to a second per eviction, nothing
  is lost over a run exactly when every stop is banked or covered (`NotDodgedRunsIff`).
* The budget is also consumed while the job does not run: a unit that goes from Running back to
  Dequeued keeps PodsReady (`DequeuedIsCharged`). Only time in phase Running is charged over a
  run exactly when such waits fit (`OnlyRunningIsCharged`).
* With execution time on and conditions off the same interval is charged repeatedly
  (`EvictingTwiceOvercharges`, `ClockSoundIff`).
* The due time of a backoff is stored in whole seconds, so the wait may be shorter than nine
  tenths of the delay (`WaitsTooShort`, `LowerTenthIff`).
* A backoff base of 2^62 nanoseconds or more overflows when it is doubled, and the unit may
  wait for the base instead of the cap (`OverflowWaitsForBase`, `CapIff`).

The code also differs from what its comments suggest here, and the model follows the code:
taking back replicas of one admission clears the ReclaimState of all of them; priorities in
`Update` are compared by pointer; `IntelligentQueue.Fix` leaves moved units assumed; an
admission that names no pod set has no resource conversion (`Chargeable` excludes it, as the
conversion dereferences nil there).

## Model

| member | source | states |
|---|---|---|
| Amounts.UpdateUsage | pkg/utils/util.go:357-366 | one pass over the second amount yields the pointwise sum scaled by the factor, whatever order the resources come in |
| QueueUnits.ReservedResourceNonNegative | pkg/utils/util.go:251-293 | what a unit is charged is never negative, over all three ways of computing it |
| QueueUnits.FreshChargeIsSpecResource | pkg/utils/util.go:251-258 | a unit just moved to Dequeued without admissions is charged exactly spec.resource, the amount that was checked |
| QueueUnits.ChargeIsSum | pkg/utils/util.go:251-293 | what a unit is charged of a resource: the request, or the sum over its admissions of the greater of replicas times the request of a pod of the first set of that name and the resources recorded in the admission |
| QueueUnits.ThreeOfTwo | pkg/utils/util.go:268-293 | three admitted replicas of two cpus each are charged six cpus |
| QueueUnits.SatisfiedIff | pkg/utils/util.go:70-81 | a unit with pod sets is satisfied exactly when each of them is admitted with at least its count, one with a request alone exactly when the default is admitted |
| QueueUnits.ReservedIff | pkg/utils/util.go:42-93 | a unit holds something exactly if some admission has replicas that are not to be given back or resources, and is all running exactly if it has admissions and no admitted replica is idle |
| QueueUnits.DequeuedIff | pkg/utils/util.go:138-160 | a unit is through exactly if its job ended, it is past the queue without admissions, or every pod set is admitted in full and all that is admitted runs |
| QueueUnits.ReleasedIff | pkg/utils/util.go:111-136 | something counts as released exactly if the number of admissions differs or fewer replicas are admitted under some name |
| QuotaTree.WalkVisitsOnce | pkg/framework/plugins/elasticquotav1alpha1/cache.go:199-219 | on any parent map, cyclic or dangling, a walk visits existing quotas, each once, so it is no longer than the number of quotas |
| QuotaTree.ChainIsLeastClosed | pkg/framework/plugins/elasticquotav1alpha1/cache.go:199-219 | the quotas a walk charges are the least set that holds the start and is closed under existing parents |
| QuotaTree.ChildOnChainIsUnique | pkg/framework/plugins/elasticquotav1alpha1/cache.go:199-219 | on an acyclic map a walk enters a parent through exactly one child |
| QuotaLedger.AddAccurate | pkg/framework/plugins/elasticquotav1alpha1/elasticquotainfo.go:52-95 | adding a unit keeps the six counters equal to sums over the reserved units |
| QuotaLedger.DeleteAccurate | pkg/framework/plugins/elasticquotav1alpha1/elasticquotainfo.go:97-146 | deleting refunds exactly what was charged, and drops exactly that unit |
| QuotaLedger.ResizeAccurate | pkg/framework/plugins/elasticquotav1alpha1/elasticquotainfo.go:148-176 | resizing swaps the charge, with the same result on the silent path of an unchanged amount |
| QuotaLedger.ReserveRepresents | pkg/framework/plugins/elasticquotav1alpha1/cache.go:177-221 | reserve charges exactly the chain of the label; refusals leave the ledger alone |
| QuotaLedger.ReserveChargesUnit | pkg/framework/plugins/elasticquotav1alpha1/cache.go:177-221 | a reservation adds what the queue unit is charged to the used counter of every quota on the chain of its label, and nothing to any other |
| QuotaLedger.UnreserveRepresents | pkg/framework/plugins/elasticquotav1alpha1/cache.go:229-265 | unreserve refunds exactly the chain of the label |
| QuotaLedger.ResizeOpRepresents | pkg/framework/plugins/elasticquotav1alpha1/cache.go:112-169 | both forms of Resize keep the ledger exact |
| QuotaLedger.StepRepresents | pkg/framework/plugins/elasticquotav1alpha1/elasticquota.go:164-230 | every plugin event, with the scheduling mark that suppresses resizes, keeps the ledger exact |
| QuotaLedger.LedgerRefinesBook | pkg/framework/plugins/elasticquotav1alpha1/elasticquota.go:164-230 | over every run of plugin events the incremental ledger equals the one recomputed from a book that only remembers the reserved units |
| QuotaLedger.UsedIsRecomputed | pkg/framework/plugins/elasticquotav1alpha1/elasticquotainfo.go:71-176 | Used is the sum over the reserved units labelled with the quota or below it, and splits into SelfUsed and ChildrenUsed |
| QuotaLedger.ChildrenUsedIsSumOfChildren | pkg/framework/plugins/elasticquotav1alpha1/elasticquotainfo.go:82-94 | on an acyclic tree ChildrenUsed of a parent is the sum of its children's Used |
| QuotaSafety.CheckUsageIff | pkg/framework/plugins/elasticquotav1alpha1/cache.go:71-110 | on any parent map the check succeeds exactly when the quota reaches the root through existing quotas that all have room |
| QuotaSafety.PassesIff | pkg/framework/plugins/elasticquotav1alpha1/elasticquotainfo.go:178-221 | a quota passes a unit exactly when it names some limit or nothing is requested, and with the unit added every requested resource it limits stays within the limit |
| QuotaSafety.PassesWithinIff | pkg/framework/plugins/elasticquotav1alpha1/elasticquotainfo.go:178-221 | a quota within its limit passes a unit exactly when it is not closed to it and stays within the limit with the unit added |
| QuotaSafety.SpecIsChecked | pkg/framework/plugins/elasticquotav1alpha1/elasticquotainfo.go:178-221 | what is checked of a queue unit is its spec resource beside what is used, whatever its admissions are charged |
| QuotaSafety.CheckIsExact | pkg/framework/plugins/elasticquotav1alpha1/cache.go:71-110 | the check succeeds exactly when the quota reaches the root, no quota on the way is closed to the unit, and reserving it there and then keeps every limit |
| QuotaSafety.CheckedChain | pkg/framework/plugins/elasticquotav1alpha1/cache.go:71-110 | a check covers everything a reservation then charges, the root aside |
| QuotaSafety.StepWithinIff | pkg/framework/plugins/elasticquotav1alpha1/elasticquota.go:148-230 | a plugin event keeps every quota within its oversold limit exactly when what it adds fits where it happens |
| QuotaSafety.ReserveWithinIff | pkg/framework/plugins/elasticquotav1alpha1/elasticquota.go:148-178 | a reservation charged what was checked keeps the limits exactly when the check of resources passes in the state it is made in, however old the check is |
| QuotaSafety.LimitsHoldIff | pkg/scheduler/scheduler.go:238-267 | over every run of plugin events the limits hold after every prefix exactly when every growing step fits where it happens |
| QuotaSafety.LimitsHoldOverRuns | pkg/scheduler/scheduler.go:238-267 | in particular they hold over every run in which admission is one check-and-reserve step and reservations otherwise only shrink |
| QuotaSafety.FreshIsGuarded | pkg/framework/plugins/elasticquotav1alpha1/elasticquota.go:148-178 | a fresh unit that passes the check is charged exactly what was checked, and never a negative amount |
| QuotaSafety.UnitLimitsHoldOverRuns | pkg/scheduler/scheduler.go:238-267 | the same for runs of queue units, with every amount computed from specs and admissions |
| QuotaSafety.StaleCheckOversells | pkg/scheduler/scheduler.go:238-260 | two units that pass against the same ledger can together exceed a limit, so check and reserve must be one step |
| QuotaReports.StepCurrentIff | pkg/framework/plugins/elasticquotav1alpha1/elasticquota.go:164-191 | an event leaves every reserved unit charged by its last reported record exactly when the unit is not reserved, the report changes nothing, or it is a resize of an unmarked unit |
| QuotaReports.CurrentRunsIff | pkg/framework/plugins/elasticquotav1alpha1/elasticquota.go:164-221 | over every run the charges are those of the last reported records exactly when every report is taken |
| QuotaReports.LoadedUnitIsStuck | pkg/framework/plugins/elasticquotav1alpha1/elasticquota.go:103-128 | a unit loaded at a restart is marked, and none of any number of later resizes reaches the ledger |
| QuotaReports.MarkOutlivesRelease | pkg/framework/plugins/elasticquotav1alpha1/elasticquota.go:193-212 | the run: a unit released and assigned again is still marked, and its resize is lost |
| QuotaReversal.ReservationIsReversible | pkg/framework/plugins/elasticquotav1alpha1/cache.go:112-265 | reserve, any resizes, then unreserve restores every counter and every reserved set, on any parent map |
| QuotaReversal.MislabelledReleaseIff | pkg/framework/plugins/elasticquotav1alpha1/cache.go:229-265 | releasing under another label leaves an exact ledger if and only if the walk from that label passes the original one |
| QuotaReversal.QuotaUpdateIff | pkg/framework/plugins/elasticquotav1alpha1/cache.go:267-291 | adding or reparenting a quota keeps the ledger exact if and only if no reserved unit changes its chain |
| QuotaReversal.QuotaTakesOver | pkg/framework/plugins/elasticquotav1alpha1/cache.go:267-291 | an update takes over limits and parent and keeps counters and reserved units, a new quota starts empty, and no other quota changes |
| QuotaReversal.QuotaDeletionIff | pkg/framework/plugins/elasticquotav1alpha1/cache.go:293-301 | deleting a quota keeps the ledger exact if and only if no reserved unit carries its label and chains lose nothing else |
| QuotaCache.ElasticQuotaInfo.AddQueueUnit | pkg/framework/plugins/elasticquotav1alpha1/elasticquotainfo.go:52-95 | the object after the call is the ledger value with the unit added |
| QuotaCache.ElasticQuotaInfo.DeleteQueueUnit | pkg/framework/plugins/elasticquotav1alpha1/elasticquotainfo.go:97-146 | the object after the call is the ledger value with the stored unit removed |
| QuotaCache.ElasticQuotaInfo.ResizeQueueUnit | pkg/framework/plugins/elasticquotav1alpha1/elasticquotainfo.go:148-176 | the object after the call is the ledger value with the unit resized |
| QuotaCache.ElasticQuotaInfo.CheckUsage | pkg/framework/plugins/elasticquotav1alpha1/elasticquotainfo.go:178-221 | passes exactly when every requested resource with a limit fits, and an empty limit admits only an empty request |
| QuotaCache.Cache.Reserve | pkg/framework/plugins/elasticquotav1alpha1/cache.go:177-221 | the parent-walking loop with its visited set is the ledger operation, error cases included |
| QuotaCache.Cache.Unreserve | pkg/framework/plugins/elasticquotav1alpha1/cache.go:229-265 | the loop is the ledger operation, error cases included |
| QuotaCache.Cache.ResizeInPlace | pkg/framework/plugins/elasticquotav1alpha1/cache.go:135-169 | the loop is the ledger operation, error cases included |
| QuotaCache.Cache.Resize | pkg/framework/plugins/elasticquotav1alpha1/cache.go:112-132 | same label resizes in place, another label releases and reserves anew |
| QuotaCache.Cache.CheckUsage | pkg/framework/plugins/elasticquotav1alpha1/cache.go:71-110 | the loop computes the check that QuotaSafety characterises |
| QuotaCache.Cache.AddOrUpdateQuota | pkg/framework/plugins/elasticquotav1alpha1/cache.go:267-291 | a new quota starts empty, a known one keeps its counters and changes limits and parent |
| QuotaCache.Cache.DeleteQuota | pkg/framework/plugins/elasticquotav1alpha1/cache.go:293-301 | the quota and its parent link disappear, nothing else changes |
| QuotaCache.Cache.OnReserve | pkg/framework/plugins/elasticquotav1alpha1/elasticquota.go:164-178 | marks the unit as scheduling and reserves |
| QuotaCache.Cache.OnResize | pkg/framework/plugins/elasticquotav1alpha1/elasticquota.go:180-191 | does nothing while the unit is marked, else resizes |
| QuotaCache.Cache.OnDequeueComplete | pkg/framework/plugins/elasticquotav1alpha1/elasticquota.go:202-212 | reserves and clears the mark |
| QuotaCache.Cache.OnAddAssignedJob | pkg/framework/plugins/elasticquotav1alpha1/elasticquota.go:214-221 | reserves |
| QuotaCache.Cache.OnRelease | pkg/framework/plugins/elasticquotav1alpha1/elasticquota.go:193-200 | releases; Remove does the same |
| UnitOrder.LessTotal | pkg/queue/queuepolicies/schedulingqueuev2/schedulingqueuev2.go:31-57 | copies that do not contradict each other compare equal only if they are the same rank, and the two directions are opposite |
| UnitOrder.LessIff | pkg/queue/queuepolicies/schedulingqueuev2/schedulingqueuev2.go:31-57 | one of two different units comes first exactly when its priority is higher, or at equal priority it is older, or at equal age its name is less in the first character that differs; copies of one unit compare equal |
| UnitOrder.SortedOrder | pkg/queue/queuepolicies/schedulingqueuev2/schedulingqueuev2.go:31-57 | along a sorted slice the priority does not rise, at equal priority the creation time does not fall, and at equal both the names ascend |
| UnitInfos.QueueOrder | pkg/queue/queuepolicies/schedulingqueuev2/schedulingqueuev2.go:31-57 | the same of the objects of a queue, by the records they hold |
| UnitOrder.LessTransitive | pkg/queue/queuepolicies/schedulingqueuev2/schedulingqueuev2.go:31-57 | the comparator is transitive on copies that do not contradict each other |
| UnitOrder.SearchSorted | pkg/queue/queuepolicies/schedulingqueuev2/schedulingqueuev2.go:374-379 | binary search of a strictly sorted slice finds a rank exactly when it is there, and else the only place to insert it |
| UnitOrder.SortedUnique | pkg/queue/queuepolicies/schedulingqueuev2/schedulingqueuev2.go:31-57 | a set of ranks has only one strictly sorted order |
| UnitOrder.StayingIsFound | pkg/queue/queuepolicies/schedulingqueuev2/schedulingqueuev2.go:410-423 | in a queue of any length a copy whose rank stays between the neighbours of the queued one is found at its place |
| UnitOrder.MovedUpIsMissed | pkg/queue/queuepolicies/schedulingqueuev2/schedulingqueuev2.go:552-556 | in a queue of any length a copy that moved before the predecessor of the queued one is never found, although equal UIDs compare equal |
| UnitOrder.ChangedPriorityIsMissed | pkg/queue/queuepolicies/schedulingqueuev2/schedulingqueuev2.go:552-556 | the input: three units, the second of which gets a higher priority than the first |
| UnitOrder.RerankIff | pkg/scheduler/scheduler.go:454 | giving a unit another rank in place keeps the order exactly if it stays between its neighbours |
| UnitOrder.OldRankFindsReplaced | pkg/scheduler/scheduler.go:454 | a unit whose rank was replaced where it stands is still found by the rank it was sorted by |
| UnitOrder.ReplacedUpIsMissed | pkg/scheduler/scheduler.go:454 | and missed by its own new rank once that comes before its predecessor |
| UnitOrder.RaisedAndSortedIsMissed | pkg/queue/queuepolicies/schedulingqueuev2/schedulingqueuev2.go:235-237 | the input: three units, the second raised above the first and the slice sorted, and a search with the old rank misses it |
| SortedSlots.QueueIsDetermined | pkg/queue/queuepolicies/intelligentqueue/intelligentqueue.go:152-169 | two queues over the same units are the same sequence |
| SortedSlots.SortMakesQueue | pkg/queue/queuepolicies/schedulingqueuev2/schedulingqueuev2.go:235-237 | sorting a slice of different units makes it a queue again |
| UnitInfos.RemoveKeeps | pkg/queue/queuepolicies/schedulingqueuev2/schedulingqueuev2.go:410-423 | searching with the rank a unit was queued by removes exactly that unit |
| UnitInfos.InsertKeeps | pkg/queue/queuepolicies/schedulingqueuev2/schedulingqueuev2.go:374-379 | inserting a new unit where the search points keeps the slice a queue |
| UnitInfos.DropIff | pkg/queue/queuepolicies/schedulingqueuev2/schedulingqueuev2.go:410-423 | whatever the order, a search for a unit hits its slot or nothing, so slice and map keep the same members exactly when it hits, and the rest is a queue exactly when it is in order |
| UnitInfos.EnterIff | pkg/queue/queuepolicies/schedulingqueuev2/schedulingqueuev2.go:374-379 | whatever the order, a new unit keeps the members, and the slice is in order exactly if it was |
| UnitInfos.MoveIff | pkg/queue/queuepolicies/schedulingqueuev2/schedulingqueuev2.go:572-582 | leaving by the old record and entering by the new one keeps the members exactly when the old record finds the copy, and makes a queue exactly when the others are in order |
| UnitInfos.OldRecordFinds | pkg/scheduler/scheduler.go:454 | in a queue but for one replaced record the old record finds the unit and the others are in order |
| UnitInfos.RaisedIsMissed | pkg/scheduler/scheduler.go:454 | and the new record misses it once it is raised past its predecessor |
| PriorityQueue.PriorityQueue.AddQueueUnitInfo | pkg/queue/queuepolicies/schedulingqueuev2/schedulingqueuev2.go:357-402 | whatever the order, slice and map keep the same members exactly if no unit was added or no other key holds its UID, and are a queue exactly if the slice was in order too; a taken key is refused, a dequeued unit ignored |
| PriorityQueue.PriorityQueue.EnteredIs | pkg/queue/queuepolicies/schedulingqueuev2/schedulingqueuev2.go:357-402 | the slice stays as it is if the place is taken, and else grows by the unit alone, at its place |
| PriorityQueue.PriorityQueue.DeleteWithoutLock | pkg/queue/queuepolicies/schedulingqueuev2/schedulingqueuev2.go:404-425 | whatever the order, the members survive exactly if the search by the cached rank hits where there is a cached copy, and then the rest is a queue exactly if it is in order |
| PriorityQueue.PriorityQueue.CachedIsHit | pkg/queue/queuepolicies/schedulingqueuev2/schedulingqueuev2.go:404-425 | in a queue a cached copy is always found by its rank |
| PriorityQueue.PriorityQueue.OwnUidDoesNotStray | pkg/queue/queuepolicies/schedulingqueuev2/schedulingqueuev2.go:404-425 | an unknown unit is hit only if another key holds its UID |
| PriorityQueue.PriorityQueue.Delete | pkg/queue/queuepolicies/schedulingqueuev2/schedulingqueuev2.go:428-444 | the same with the cursor reset |
| PriorityQueue.PriorityQueue.Update | pkg/queue/queuepolicies/schedulingqueuev2/schedulingqueuev2.go:492-606 | whatever the order, the members survive if and only if the search for a queued copy hits, by the reported rank if the unit is dequeued and by the old one if it moves; a queue comes out if and only if moreover the slice is sorted anew, or in order with the new record, or the others are; the new map, sets, blocked quotas and cursor flag are stated for every path |
| PriorityQueue.PriorityQueue.QueueFits | pkg/queue/queuepolicies/schedulingqueuev2/schedulingqueuev2.go:492-606 | in a queue the latter is to stay between the neighbours where the record is replaced in place |
| PriorityQueue.PriorityQueue.CurrentUpdateKeeps | pkg/queue/queuepolicies/schedulingqueuev2/schedulingqueuev2.go:492-606 | if the old record has the priority the copy was sorted by, only a dequeued report with another priority can harm |
| PriorityQueue.PriorityQueue.ReplaceUnit | pkg/scheduler/scheduler.go:454 | replacing the record of the very object in the slice keeps the members, and makes a queue exactly if the slice is in order with it |
| PriorityQueue.PriorityQueue.ReplaceThenFix | pkg/queue/queuepolicies/schedulingqueuev2/schedulingqueuev2.go:219-238 | fixQueue afterwards restores the queue in every case |
| PriorityQueue.PriorityQueue.PendingUpdateRepairs | pkg/scheduler/scheduler.go:429-454 | in a queue but for one replaced record the update that reports the replacement finds the unit and makes a queue again |
| PriorityQueue.PriorityQueue.ReplaceThenUpdate | pkg/scheduler/scheduler.go:429-454 | the run of it, for every queue and record |
| PriorityQueue.PriorityQueue.RaisedUnitIsLeft | pkg/queue/queuepolicies/schedulingqueuev2/schedulingqueuev2.go:404-425 | a delete misses a unit raised past its predecessor |
| PriorityQueue.PriorityQueue.ReplaceThenDelete | pkg/queue/queuepolicies/schedulingqueuev2/schedulingqueuev2.go:428-444 | the run: the deleted unit stays in the slice |
| PriorityQueue.PriorityQueue.ReplaceSortUpdate | pkg/queue/queuepolicies/schedulingqueuev2/schedulingqueuev2.go:572-582 | the run: once the slice is sorted the update misses the unit, and it gets a second place |
| PriorityQueue.PriorityQueue.SamePriorityIsNotLost | pkg/queue/queuepolicies/schedulingqueuev2/schedulingqueuev2.go:552-556 | a unit reported dequeued with the priority it was queued by is never lost |
| PriorityQueue.PriorityQueue.FixQueue | pkg/queue/queuepolicies/schedulingqueuev2/schedulingqueuev2.go:219-238 | any slice becomes a permutation of itself, sorted if its copies agree, unchanged if it was sorted, and a queue if only the order was wrong |
| PriorityQueue.PriorityQueue.NeedsReset | pkg/queue/queuepolicies/schedulingqueuev2/schedulingqueuev2.go:226-234 | reports exactly whether two neighbours are out of order |
| PriorityQueue.PriorityQueue.Fix | pkg/queue/queuepolicies/schedulingqueuev2/schedulingqueuev2.go:710-724 | exactly the units that another queue should hold leave the map, each returned once; they leave the slice one by one, and the members survive exactly if each is found when its turn comes, as in a queue it always is |
| PriorityQueue.PriorityQueue.FindNextQueueUnit | pkg/queue/queuepolicies/schedulingqueuev2/schedulingqueuev2.go:175-217 | stops at the first unit from the cursor on, within the depth, that is not updating, inactive, satisfied or blocked |
| PriorityQueue.PriorityQueue.FirstIsLeast | pkg/queue/queuepolicies/schedulingqueuev2/schedulingqueuev2.go:175-217 | from a reset cursor that unit has the highest priority of the eligible ones, is the oldest of those, and comes before every other one |
| PriorityQueue.PriorityQueue.ServiceOrder | pkg/queue/queuepolicies/schedulingqueuev2/schedulingqueuev2.go:31-57 | in a valid queue every unit comes before the later ones by priority, then age, then name |
| PriorityQueue.PriorityQueue.BestFirst | pkg/queue/queuepolicies/schedulingqueuev2/schedulingqueuev2.go:175-217 | a scan from a reset cursor hands out the eligible unit of the highest priority, the oldest of those |
| PriorityQueue.PriorityQueue.EligibleIff | pkg/queue/queuepolicies/schedulingqueuev2/schedulingqueuev2.go:187-212 | a unit can be handed out exactly if it is not being updated nor switched off, some pod set is not admitted in full and its quota is not blocked |
| PriorityQueue.PodSetsChangedIff | pkg/queue/queuepolicies/schedulingqueuev2/schedulingqueuev2.go:446-464 | a change of the pod sets is seen unless only sets without pods were dropped and as many others added |
| PriorityQueue.ZeroSetHidesChange | pkg/queue/queuepolicies/schedulingqueuev2/schedulingqueuev2.go:446-464 | the input: a set without pods gives way to one with five, and no change is seen |
| PriorityQueue.AdmissionsChangedIff | pkg/queue/queuepolicies/schedulingqueuev2/schedulingqueuev2.go:466-489 | admissions count as changed exactly if the names with their running and admitted replicas differ as sets |
| PriorityQueue.PriorityQueue.SkippedAgree | pkg/queue/queuepolicies/schedulingqueuev2/schedulingqueuev2.go:527-529 | an update that is skipped changes no verdict on the unit, and whether it is in flight only if what is left of it changes |
| PriorityQueue.PriorityQueue.HiddenReclaim | pkg/queue/queuepolicies/schedulingqueuev2/schedulingqueuev2.go:527-529 | the input: all replicas are to be given back, the update is skipped and the unit stays in flight |
| PriorityQueue.PriorityQueue.AssumedIff | pkg/queue/queuepolicies/schedulingqueuev2/schedulingqueuev2.go:533-603 | after an update a unit is in flight exactly if it is not through, holds something, and has an idle replica or was reserved here and not seen to be through since |
| PriorityQueue.PriorityQueue.UpdatingIff | pkg/queue/queuepolicies/schedulingqueuev2/schedulingqueuev2.go:557-596 | a reserved unit stays out of the scan until it is through, or holds nothing and needs more |
| PriorityQueue.PriorityQueue.PartlyReclaimedBlocks | pkg/queue/queuepolicies/schedulingqueuev2/schedulingqueuev2.go:583-603 | the input: of five replicas two are taken back and three run; the unit is neither scheduled again nor out of flight |
| PriorityQueue.PriorityQueue.RewindsIff | pkg/queue/queuepolicies/schedulingqueuev2/schedulingqueuev2.go:505-601 | the cursor starts over exactly if the unit was switched, all it holds runs, or it released something without having failed |
| PriorityQueue.PriorityQueue.ActivationRewindsIff | pkg/queue/queuepolicies/schedulingqueuev2/schedulingqueuev2.go:527-582 | switching a unit makes a new copy and the scan start over unless nothing else is seen to change and nothing was released |
| PriorityQueue.PriorityQueue.ReactivatedIsMissed | pkg/queue/queuepolicies/schedulingqueuev2/schedulingqueuev2.go:527-582 | the run: a unit without a priority is passed while switched off, switched on again, and not handed out though eligible |
| PriorityQueue.PriorityQueue.UnblockedIff | pkg/queue/queuepolicies/schedulingqueuev2/schedulingqueuev2.go:505-518 | in a blocking queue a release lets exactly the units of the same quota pass again |
| PriorityQueue.PriorityQueue.LeavingUnblocksIff | pkg/queue/queuepolicies/schedulingqueuev2/schedulingqueuev2.go:533-545 | the end of the unit in flight lets all units pass, exactly in a queue that waits and if it was not through before |
| PriorityQueue.PriorityQueue.Reserve | pkg/queue/queuepolicies/schedulingqueuev2/schedulingqueuev2.go:609-667 | a queue that waits for pods holds one unit in flight; a refusal names exactly the unprotected later-ranked units |
| PriorityQueue.PriorityQueue.PreemptibleIff | pkg/queue/queuepolicies/schedulingqueuev2/schedulingqueuev2.go:609-667 | the units named for preemption are the queued ones in flight after the preemptor by priority, age and name whose last allocation is long enough ago |
| PriorityQueue.PriorityQueue.AddUnschedulableIfNotPresent | pkg/queue/queuepolicies/schedulingqueuev2/schedulingqueuev2.go:671-694 | advances or resets the cursor, blocks the quota, and forgets the unit in flight |
| PriorityQueue.PriorityQueue.AttemptTwice | pkg/queue/queuepolicies/schedulingqueuev2/schedulingqueuev2.go:175-217 | a unit that could not be scheduled is handed out again at once exactly if the queue blocks and the unit has no quota |
| PriorityQueue.PriorityQueue.Round | pkg/queue/queuepolicies/schedulingqueuev2/schedulingqueuev2.go:671-694 | over any number of attempts without other events no unit is handed out twice, given quotas in a blocking queue |
| PriorityQueue.PriorityQueue.SameAgain | pkg/queue/queuepolicies/schedulingqueuev2/schedulingqueuev2.go:671-694 | in a blocking queue the first eligible unit without a quota is handed out any number of times |
| PriorityQueue.PriorityQueue.OnlyUnitAgain | pkg/queue/queuepolicies/schedulingqueuev2/schedulingqueuev2.go:671-694 | the input: the only unit of a queue |
| PriorityQueue.PriorityQueue.NextReserveNext | pkg/queue/queuepolicies/schedulingqueuev2/schedulingqueuev2.go:609-667 | a unit handed out and reserved is not handed out again |
| UnitInfos.CollectMoved | pkg/queue/queuepolicies/schedulingqueuev2/schedulingqueuev2.go:714-719 | collects exactly the units mapped elsewhere, each once |
| Preemption.DryRunPreemption | pkg/queue/queuepolicies/schedulingqueuev2/preempt.go:120-168 | the victims are a greedy cut of the sorted candidates: behind the cut all come after the preemptor, without the last victim the need is not covered, and the cut is deep enough; the replicas recorded are those the victims can give back |
| Preemption.PreemptionIsOrdered | pkg/queue/queuepolicies/schedulingqueuev2/preempt.go:134-166 | every victim is an assumed unit after the preemptor by priority, then age, then name, and has something to give; nothing left comes after a victim, and what was passed over had nothing to give |
| Preemption.ExhaustedOrCovered | pkg/queue/queuepolicies/schedulingqueuev2/preempt.go:146-166 | if the requirement is not covered, no unit after the preemptor is left |
| Preemption.ResourcesAreSum | pkg/utils/util.go:208-249 | the resources of admitted counts are the sum over the names that have a pod set of the count times the request of a pod, or the request of the unit for the default name |
| Preemption.NeedIsSum | pkg/utils/util.go:190-206 | what the preemptor needs is the sum over its pod sets of count times the request of a pod, or its request if it has none |
| Preemption.ReclaimableIff | pkg/utils/util.go:166-188 | a victim can give back exactly the idle replicas of the admissions without a pending reclaim |
| Preemption.CanReclaimIff | pkg/utils/util.go:166-188 | and nothing before the protection time has passed since its last allocation |
| Preemption.ReleasedIsSum | pkg/queue/queuepolicies/schedulingqueuev2/preempt.go:134-166 | the victims release the sum over victims and their idle admissions of idle replicas times the request of a pod |
| Preemption.LastVictimIsNeeded | pkg/queue/queuepolicies/schedulingqueuev2/preempt.go:134-166 | without the last victim the preemptor needs more of some resource than the other victims give back |
| Preemption.VictimsSuffice | pkg/queue/queuepolicies/schedulingqueuev2/preempt.go:134-166 | if the victims give back too little of some resource, no kept unit comes after the preemptor |
| IntelligentQueue.SearchHalf | pkg/queue/queuepolicies/intelligentqueue/intelligentqueue.go:152-186 | searching one half is searching the concatenation |
| IntelligentQueue.ThresholdDoesNotMatter | pkg/queue/queuepolicies/intelligentqueue/methods.go:566-601 | two splits of the same units at any thresholds have the same concatenation |
| IntelligentQueue.OutIff | pkg/queue/queuepolicies/intelligentqueue/intelligentqueue.go:172-186 | whatever the order, the members survive a removal exactly when the search of the half hits, and the rest are two halves exactly when they are in order and on their sides |
| IntelligentQueue.IntoKeeps | pkg/queue/queuepolicies/intelligentqueue/intelligentqueue.go:152-169 | a new unit enters the half of its priority at its place in the concatenation, and both halves stay what they are |
| IntelligentQueue.IntoIff | pkg/queue/queuepolicies/intelligentqueue/intelligentqueue.go:152-169 | whatever the order, a new unit keeps the members, and the halves are halves exactly if they were |
| IntelligentQueue.IntelligentQueue.DistributeToQueue | pkg/queue/queuepolicies/intelligentqueue/intelligentqueue.go:152-169 | makes that insertion in place, or none if the search hits, and answers the position in the concatenation |
| IntelligentQueue.IntelligentQueue.RemoveFromQueue | pkg/queue/queuepolicies/intelligentqueue/intelligentqueue.go:172-186 | takes out of the half of the priority what its search hits, or nothing |
| IntelligentQueue.IntelligentQueue.AddQueueUnitInfo | pkg/queue/queuepolicies/intelligentqueue/methods.go:20-55 | whatever the order, the members survive exactly if no unit was added or no other key holds its UID, and the halves exactly if they were halves too; the cursors are rewound unless the unit lands behind them |
| IntelligentQueue.IntelligentQueue.Delete | pkg/queue/queuepolicies/intelligentqueue/methods.go:219-253 | whatever the order, the members survive exactly if the search of a half hits where there is a cached copy, and then the rest are two halves exactly if they are in order and on their sides |
| IntelligentQueue.IntelligentQueue.Update | pkg/queue/queuepolicies/intelligentqueue/methods.go:300-429 | whatever the order, the members survive if and only if the old record finds a queued copy that is not replaced in place; halves come out if and only if moreover all units are in their places with the new record, or the others are; map, sets, blocked quotas and cursor flag are stated for every path |
| IntelligentQueue.IntelligentQueue.CurrentUpdateKeeps | pkg/queue/queuepolicies/intelligentqueue/methods.go:300-429 | if the old record has the priority the copy was sorted by, every update keeps the halves, across the threshold too |
| IntelligentQueue.IntelligentQueue.ReplaceUnit | pkg/scheduler/scheduler.go:454 | replacing the record of a queued object keeps the members, and makes halves exactly if all units are in their places with it |
| IntelligentQueue.IntelligentQueue.PendingUpdateRepairs | pkg/scheduler/scheduler.go:429-454 | with one replaced record the update that reports the replacement finds the unit and makes halves again |
| IntelligentQueue.IntelligentQueue.ReplaceThenUpdate | pkg/scheduler/scheduler.go:429-454 | the run of it, for every queue and record |
| IntelligentQueue.IntelligentQueue.ReplaceThenDelete | pkg/queue/queuepolicies/intelligentqueue/methods.go:219-253 | the run: a unit whose record sinks below the threshold is searched in the other half, and stays |
| IntelligentQueue.IntelligentQueue.ReplaceRedistributeUpdate | pkg/queue/queuepolicies/intelligentqueue/methods.go:566-601 | the run: a new threshold moves the unit, the update misses it, and it gets a second place |
| IntelligentQueue.IntelligentQueue.Fix | pkg/queue/queuepolicies/intelligentqueue/methods.go:521-536 | exactly the units that another queue should hold leave the map, each returned once, and the members survive exactly if each is found when its turn comes |
| IntelligentQueue.IntelligentQueue.UpdateThreshold | pkg/queue/queuepolicies/intelligentqueue/methods.go:566-601 | redistributing in any map order leaves the concatenation of two halves unchanged, and makes halves of any order |
| IntelligentQueue.IntelligentQueue.SortedList | pkg/queue/queuepolicies/intelligentqueue/methods.go:616-654 | reports each unit at its position in the concatenation, so a threshold change does not show |
| IntelligentQueue.IntelligentQueue.FindNextQueueUnit | pkg/queue/queuepolicies/intelligentqueue/methods.go:79-124 | hands out the first open unblocked high unit from the cursor on; a low one exactly when no high unit from there on is open or out of depth; its index is below the depth |
| IntelligentQueue.IntelligentQueue.TryNext | pkg/queue/queuepolicies/intelligentqueue/methods.go:127-199 | one turn of Next: a low unit is handed out in spite of an open high one exactly if that one lies before the cursor, never after a reset |
| IntelligentQueue.IntelligentQueue.GrownCountIsSilent | pkg/queue/queuepolicies/intelligentqueue/methods.go:300-429 | an update that raises the count of a satisfied unit opens it without having the cursors reset |
| IntelligentQueue.IntelligentQueue.GrownUnitIsMissed | pkg/queue/queuepolicies/intelligentqueue/methods.go:79-124 | the run: after that update a low unit is handed out in spite of it |
| IntelligentQueue.IntelligentQueue.LeavingUnitHidesNext | pkg/queue/queuepolicies/intelligentqueue/methods.go:300-429 | the run: a high unit before the cursor succeeds, and a low unit is handed out in spite of the one that moves behind the cursor |
| IntelligentQueue.IntelligentQueue.BlockedUnitIsPassed | pkg/queue/queuepolicies/intelligentqueue/methods.go:79-124 | the run: an open high unit whose quota is blocked is passed, the next one gets satisfied, and a low unit is handed out |
| QueueUnits.SilentOpening | pkg/utils/util.go:70-81 | without a release a satisfied unit becomes unsatisfied only by needing more of some pod set or losing an empty admission |
| IntelligentQueue.IntelligentQueue.RemovalBehind | pkg/queue/queuepolicies/intelligentqueue/intelligentqueue.go:172-186 | a removal puts behind the cursor exactly the unit at the cursor, if it lies after the removed one |
| IntelligentQueue.IntelligentQueue.InsertionBehind | pkg/queue/queuepolicies/intelligentqueue/intelligentqueue.go:152-169 | an insertion puts nothing behind the cursor but the new unit |
| IntelligentQueue.IntelligentQueue.HandedOutIsLeast | pkg/queue/queuepolicies/intelligentqueue/methods.go:79-124 | from reset cursors the unit handed out has the highest priority of those that could be, is the oldest of them, and comes before every other one |
| IntelligentQueue.IntelligentQueue.ServiceOrder | pkg/queue/queuepolicies/intelligentqueue/intelligentqueue.go:48-74 | in a valid queue every unit comes before the later ones of either half by priority, then age, then name |
| IntelligentQueue.IntelligentQueue.OpenIff | pkg/queue/queuepolicies/intelligentqueue/methods.go:79-124 | a unit is open exactly if it is not switched off and some pod set is not admitted in full |
| IntelligentQueue.IntelligentQueue.SkippedAgree | pkg/queue/queuepolicies/intelligentqueue/methods.go:300-429 | an update that is skipped changes no verdict on the unit, whether it is active included |
| IntelligentQueue.IntelligentQueue.AssumedIff | pkg/queue/queuepolicies/intelligentqueue/methods.go:300-429 | after an update a unit is in flight exactly if it is not through, holds something, and has an idle replica or was reserved here |
| IntelligentQueue.IntelligentQueue.RewindsIff | pkg/queue/queuepolicies/intelligentqueue/methods.go:300-429 | the cursors start over exactly if all the unit holds runs, or it released something without having failed |
| IntelligentQueue.IntelligentQueue.UnblockedIff | pkg/queue/queuepolicies/intelligentqueue/methods.go:300-429 | a release lets exactly the units of the same quota pass again, the end of the unit in flight all of them in a queue that waits |
| IntelligentQueue.IntelligentQueue.AddUnschedulableIfNotPresent | pkg/queue/queuepolicies/intelligentqueue/methods.go:470-506 | a high unit is tried again, a low one passed |
| IntelligentQueue.IntelligentQueue.AttemptTwice | pkg/queue/queuepolicies/intelligentqueue/methods.go:470-506 | a unit that could not be scheduled is handed out again at once exactly if it is a high one without a quota |
| IntelligentQueue.IntelligentQueue.Round | pkg/queue/queuepolicies/intelligentqueue/methods.go:470-506 | over any number of attempts without other events no unit is handed out twice, given quotas for the high ones |
| IntelligentQueue.IntelligentQueue.SameAgain | pkg/queue/queuepolicies/intelligentqueue/methods.go:470-506 | a high unit without a quota is handed out any number of times |
| IntelligentQueue.IntelligentQueue.OnlyUnitAgain | pkg/queue/queuepolicies/intelligentqueue/methods.go:470-506 | the input: the only unit of a queue |
| IntelligentQueue.IntelligentQueue.Reserve | pkg/queue/queuepolicies/intelligentqueue/methods.go:432-456 | a queue that waits for pods holds at most one unit in flight, and the cursors stay |
| IntelligentQueue.IntelligentQueue.NextReserveNext | pkg/queue/queuepolicies/intelligentqueue/methods.go:79-124 | whatever has been handed out and reserved is handed out again, as long as no event comes in between |
| Reclaim.StepKeepsFloorIff | pkg/jobext/framework/resource_report_controller.go:358-388 | replicas minus pending reclaim stay at or above running exactly when the step asks for no running replica, for marking, reclaiming, pod deletion, timeout, shrinking, syncing and admitting |
| Reclaim.FloorOverRunsIff | pkg/jobext/framework/resource_report_controller.go:522-597 | over every interleaving of these steps no running replica is taken exactly when every step is allowed where it happens |
| Reclaim.CurrentMarkIsAllowed | pkg/utils/util.go:166-188 | marking what the current copy can give back asks for no running replica |
| Reclaim.StaleMarkBreaksFloor | pkg/queue/queuepolicies/schedulingqueuev2/preempt.go:40-51 | a mark computed from a stale copy can ask for a replica that has started since |
| Reclaim.DeletionFloorIff | pkg/jobext/framework/resource_report_controller.go:417-462 | pods that disappear keep the floor exactly when the replicas left cover those counted as running |
| Reclaim.GoneIs | pkg/jobext/framework/resource_report_controller.go:417-462 | gone are the pods seen before that no live pod has the name of |
| Reclaim.DeletionBreaksFloor | pkg/jobext/framework/resource_report_controller.go:417-462 | the input: two running, one gone, and one replica left for two |
| Reclaim.TimeoutFloorIff | pkg/jobext/framework/resource_report_controller.go:481-519 | a timeout keeps the floor exactly when no timed-out admission has a pending reclaim |
| Reclaim.TimeoutBreaksFloor | pkg/jobext/framework/resource_report_controller.go:481-519 | the input: the idle replica is released by the timeout and again by the reclaim, and the running one has none |
| Reclaim.ReclaimSparesScheduled | pkg/jobext/framework/resource_report_controller.go:522-550 | whatever is marked, a reclaim leaves as many replicas as scheduled pods if no more pods are live than admitted, and picks only live unscheduled pods |
| Reclaim.MarkVictim | pkg/queue/queuepolicies/schedulingqueuev2/preempt.go:36-55 | marks every admission with something to give, or none if one still waits for an earlier reclaim |
| Reclaim.MarkAt | pkg/queue/queuepolicies/schedulingqueuev2/preempt.go:36-55 | a mark changes only what is to be given back, and only where an amount is asked for |
| Reclaim.TimeOutAt | pkg/jobext/framework/resource_report_controller.go:481-519 | the timeout takes exactly the replicas that do not run, and never adds any |
| Reclaim.SyncOneAt | pkg/jobext/framework/resource_report_controller.go:251-283 | a count sets the running replicas and resources of its name and raises the replicas to those that run; nothing else changes |
| Reclaim.ShrinkFloorIff | pkg/jobext/framework/resource_report_controller.go:553-597 | shrinking keeps the floor exactly when the running pods are among those live or requested |
| Reclaim.ShrinkAt | pkg/jobext/framework/resource_report_controller.go:559-589 | shrinking leaves the lesser of what is admitted and what live pods or the pod set ask for, and takes what it releases off a pending reclaim |
| ResourceReporter.ReconcileReclaim | pkg/jobext/framework/resource_report_controller.go:522-550 | picks, per pod set, the first live unscheduled pods up to the pending reclaim |
| Reclaim.PicksFirst | pkg/jobext/framework/resource_report_controller.go:522-550 | a pod without a node is picked exactly if fewer than the number to pick wait before it |
| ResourceReporter.TakePicked | pkg/jobext/framework/resource_report_controller.go:358-370 | something is picked exactly when a set with a pending reclaim has a live pod without a node; then every admission loses a replica per pod picked, not below zero, its reclaim is cleared and nothing else changes, and otherwise nothing changes |
| Reclaim.TakeBackAt | pkg/jobext/framework/resource_report_controller.go:358-370 | the same of the step: the pods picked are the lesser of the pending reclaim and the live pods without a node |
| Reclaim.LiveIsCount | pkg/jobext/framework/resource_report_controller.go:522-550 | the pods counted as live are those not finished, as scheduled those of them with a node |
| Reclaim.TwoOfFive | pkg/jobext/framework/resource_report_controller.go:358-370 | of five replicas with two to give back and three pods waiting, three are left |
| Reclaim.GivenIff | pkg/jobext/framework/resource_report_controller.go:358-370 | a reclaim gives back a replica for every pod picked exactly when the replicas suffice, and never more |
| Reclaim.ReclaimsGiveIff | pkg/jobext/framework/resource_report_controller.go:351-370 | over every interleaving of the controllers the reclaims give back as many replicas as pods are picked exactly when the replicas suffice each time |
| ResourceReporter.ShrinkAdmission | pkg/jobext/framework/resource_report_controller.go:559-589 | yields min(admitted, max(live, requested)) and settles as much of the pending reclaim |
| ResourceReporter.ReconcileOveradmission | pkg/jobext/framework/resource_report_controller.go:553-597 | does so for every admission and reports a change exactly when there is one |
| ResourceReporter.SyncName | pkg/jobext/framework/resource_report_controller.go:253-282 | sets running, raises replicas to it, takes over the requests of the pods where they are synced, and appends a missing admission |
| ResourceReporter.SyncRunning | pkg/jobext/framework/resource_report_controller.go:251-283 | does so for every counted pod set, in any map order |
| ResourceReporter.ResourceReporter.ReconcilePodDeletion | pkg/jobext/framework/resource_report_controller.go:417-462 | every admission of a Dequeued unit without ReclaimState loses a replica per observed pod that is gone, and the memory becomes the live pods |
| ResourceReporter.CallIsDeletionStep | pkg/jobext/framework/resource_report_controller.go:417-462 | a call is the deletion step of the protocol about the floor |
| ResourceReporter.CallsKeepAccounts | pkg/jobext/framework/resource_report_controller.go:417-462 | over any sequence of calls each admission keeps its own account, unaffected by the others |
| ResourceReporter.FrozenWhileReclaimed | pkg/jobext/framework/resource_report_controller.go:417-462 | over any calls an admission with a pending reclaim keeps its replicas and the memory of its pods |
| PodDeletion.Telescopes | pkg/jobext/framework/resource_report_controller.go:439-459 | after any sequence of live sets replicas are max(0, initial minus all observed disappearances) |
| PodDeletion.NeverShortIff | pkg/jobext/framework/resource_report_controller.go:404-416 | replicas cover the live pods throughout exactly when the pods first observed and all appearances, each time counted, fit into the initial replicas |
| PodDeletion.DistinctPodsFit | pkg/jobext/framework/resource_report_controller.go:404-416 | if no pod name returns, the number of distinct pods decides |
| PodDeletion.ReturningPodIsShort | pkg/jobext/framework/resource_report_controller.go:404-416 | if a name returns it does not: one pod, one replica, and the pod comes back uncovered |
| PodDeletion.RestartsOnlyRaise | pkg/jobext/framework/resource_report_controller.go:414-416 | losing the memory anywhere, any number of times, can only leave replicas higher |
| PodAdmission.UpdatePodStates | pkg/jobext/admission/admisison_controller.go:146-182 | groups, per pod set and in order, scheduled or ungated pods as admitted and gated ones as unadmitted |
| PodAdmission.PodsCounted | pkg/jobext/admission/admisison_controller.go:146-182 | the pods counted for a set carry its name and are not finished; admitted are those with a node or without a gate |
| PodAdmission.FilterAt | pkg/jobext/admission/admisison_controller.go:146-182 | the pods grouped keep their order: each has as many before it as are kept of those before it |
| PodAdmission.BuildXorAdmit | pkg/jobext/admission/admisison_controller.go:104-144 | flips the first unscheduled pods needed to meet the replicas from either side |
| PodAdmission.Chunks | pkg/jobext/admission/admisison_controller.go:59-93 | the chunks of the workers, put together, are all pods in order |
| PodAdmission.Reconcile | pkg/jobext/admission/admisison_controller.go:30-102 | flips exactly the pods the admissions call for, in any map order and chunking |
| PodAdmission.FlipsMember | pkg/jobext/admission/admisison_controller.go:104-144 | only unscheduled pods of the own pod set are flipped, all in the same direction |
| PodAdmission.OneRoundSettles | pkg/jobext/admission/admisison_controller.go:104-182 | after one round min(replicas, all) or max(replicas, scheduled) pods are admitted, and none is left to flip |
| PodAdmission.SecondRoundIsIdle | pkg/jobext/admission/admisison_controller.go:104-182 | a second round flips no pod of any pod set |
| FilterDequeue.BuildRequest | pkg/framework/runtime/framework.go:192-203 | the request is what is missing, without settled pod sets, but an over-admitted one in full |
| FilterDequeue.RunFilterPlugins | pkg/framework/runtime/framework.go:191-229 | succeeds exactly when all plugins do, with the least answer per name and without zero or unanswered names; a failure is one of the answers |
| FilterDequeue.AskedFor | pkg/framework/runtime/framework.go:192-203 | every plugin is asked for what each pod set lacks, for all of it again if it has too many, and not for one that has just enough |
| FilterDequeue.OrderDoesNotMatter | pkg/framework/runtime/framework.go:209-221 | a granted result does not depend on the order of the plugins |
| FilterDequeue.Dequeue | pkg/scheduler/scheduler.go:357-373 | adds what was granted, in any map order |
| FilterDequeue.MergeAdds | pkg/scheduler/scheduler.go:359-373 | per name the admitted replicas grow by exactly what was granted |
| FilterDequeue.EchoAdmitsShortfall | pkg/framework/runtime/framework.go:191-229 | if plugins echo the request the admissions become exactly the requirements, plus what an over-admitted pod set had |
| FilterDequeue.EchoSatisfiesIff | pkg/utils/util.go:70-81 | the unit is then satisfied exactly when no pod set of count zero lacks an admission |
| FilterDequeue.ZeroCountStaysUnsatisfied | pkg/framework/runtime/framework.go:191-203 | the input: a pod set of count zero is neither requested nor granted, and the unit stays unsatisfied |
| FilterDequeue.ModestNeverExceeds | pkg/framework/runtime/framework.go:209-221 | if plugins grant at most the request nothing is lost, and no pod set that was not over-admitted becomes so |
| FilterDequeue.OverAdmittedGrows | pkg/framework/runtime/framework.go:197-203 | a pod set ends within its count exactly when it was not over-admitted before |
| FilterDequeue.OverAdmittedGetsMore | pkg/framework/runtime/framework.go:197-203 | the input: three of two replicas are admitted, two more are granted, and five are admitted in the end |
| QuotaIndex.StepInvertsIff | pkg/framework/runtime/framework.go:119-183 | an event keeps the index exact if and only if what the name is listed under is recorded for the UID of the event or listed anew |
| QuotaIndex.RunsAgree | pkg/framework/runtime/framework.go:119-183 | over every run in which a name belongs to one UID at a time, a unit is listed under a quota exactly when its last mapping has that quota |
| QuotaIndex.RunsTrack | pkg/framework/runtime/framework.go:119-183 | over such runs exactly the UIDs of live units stay recorded |
| QuotaIndex.ReusedNameStaysListed | pkg/framework/runtime/framework.go:136-142 | a name that passes to another UID without a deletion stays listed under its old quota |
| QuotaIndex.LookupIsFilter | pkg/framework/runtime/framework.go:105-117 | the lookup is the filter over all live units |
| QuotaIndex.Framework.OnQueueUnitAddOrUpdate | pkg/framework/runtime/framework.go:119-157 | the handler makes the step of the abstract index, none if the provider fails |
| QuotaIndex.Framework.OnQueueUnitDelete | pkg/framework/runtime/framework.go:159-183 | the handler makes the step of the abstract index |
| QuotaIndex.Framework.GetQueueUnitInfoByQuota | pkg/framework/runtime/framework.go:105-117 | returns the listed units, each once |
| Conditions.TimesMoveOnFlips | pkg/utils/conditions.go:42-66 | no condition disappears, and its transition time moves, to the current whole second, exactly when its status flips |
| Conditions.SetAllKeepsUnique | pkg/utils/conditions.go:42-77 | condition types stay unique |
| Conditions.SetIdleIff | pkg/utils/conditions.go:52-54 | an update changes nothing exactly when it has been made already |
| Conditions.SyncIsIdempotent | pkg/utils/conditions.go:90-130 | a repeated sync changes nothing, however much later |
| ExecutionClock.PhaseDecides | pkg/utils/conditions.go:90-130 | after entering a phase a condition is true exactly if the phase makes it so, or it was true and the phase does not withdraw it |
| ExecutionClock.PhasesDecide | pkg/utils/conditions.go:90-130 | over every run of phases a condition is true exactly if it was made so, or was so to begin with, and no phase after that has withdrawn it |
| ExecutionClock.EnterKeeps | pkg/utils/conditions.go:90-130 | entering a phase keeps what is banked, and forgets earlier retries exactly on Running |
| ExecutionClock.DeactivatedIs | pkg/jobext/framework/activation.go:132-183 | a deactivated unit waits in the queue, evicted for that reason, with neither quota nor admission |
| ExecutionClock.ExpiredIs | pkg/jobext/framework/activation.go:191-237 | a unit whose time is up is evicted for that reason and not admitted, nothing is banked and the clock stands still |
| ExecutionClock.GateOffBanksNothing | pkg/jobext/framework/activation.go:254-267 | without the execution time gate nothing is banked over any run |
| ExecutionClock.RunsAreSound | pkg/jobext/framework/activation.go:126-267 | over every run condition types are unique, Admitted implies QuotaReserved, and what is charged exceeds the time PodsReady was true since the last reset by less than a second per start |
| ExecutionClock.FlipsIff | pkg/utils/conditions.go:90-130 | PodsReady becomes true exactly on entering Running, and ends without an eviction exactly on entering Enqueued or Backoff |
| ExecutionClock.StepHonestIff | pkg/jobext/framework/activation.go:254-267 | a step overcharges exactly if it starts the clock and the part of the second that has passed does not fit beside what is banked |
| ExecutionClock.HonestRunsIff | pkg/jobext/framework/activation.go:254-267 | over every run nothing is overcharged exactly when every start fits |
| ExecutionClock.CyclesBankSeconds | pkg/jobext/framework/activation.go:254-267 | any number of runs, however short, are each charged a full second |
| ExecutionClock.BudgetGoneEarly | pkg/jobext/framework/activation.go:191-213 | the input: a budget of ten seconds is used up after one second of PodsReady |
| ExecutionClock.StepNotDodgedIff | pkg/jobext/framework/activation.go:251-267 | a step loses more than a second exactly if it enters Enqueued or Backoff unbanked while PodsReady is true and what is banked does not cover the time |
| ExecutionClock.NotDodgedRunsIff | pkg/jobext/framework/activation.go:251-267 | over every run the charge falls short of the time PodsReady was true by less than a second per eviction exactly when every stop is banked or covered |
| ExecutionClock.RejectedCheckDodges | pkg/controllers/queueunitcontroller.go:119-160 | the run: a hundred seconds of PodsReady are free after a rejected admission check |
| ExecutionClock.OnlyRunningIsCharged | pkg/jobext/framework/activation.go:185-213 | over every run PodsReady covers no more than phase Running exactly when all waits with PodsReady fit, and then no more is charged, up to a second per start |
| ExecutionClock.DequeuedIsCharged | pkg/jobext/framework/default_job_reconciler.go:593-595 | the run: five seconds in Running and a hundred in Dequeued are charged in full |
| ExecutionClock.NeverDeactivatedEarly | pkg/jobext/framework/activation.go:191-213 | a unit is deactivated less than a second per start before PodsReady was true for its whole budget |
| ExecutionClock.EvictingTwiceOvercharges | pkg/jobext/framework/activation.go:167-176 | without the conditions gate an eviction does not stop the clock, and a second one charges the same interval again |
| ExecutionClock.ClockSoundIff | pkg/jobext/framework/activation.go:254-267 | the bound holds over all runs exactly when conditions are on or execution time is off |
| UnitStatus.StatusObject.SetCondition | pkg/utils/conditions.go:42-66 | overwrites or appends in place, and reports a change exactly when there is one |
| UnitStatus.StatusObject.SetConditionIfPresent | pkg/utils/conditions.go:70-77 | the same without ever creating a condition |
| UnitStatus.StatusObject.SyncQueueUnitConditions | pkg/utils/conditions.go:90-130 | makes the updates of the phase, clears the backoff in Running, and reports a change exactly when there is one |
| UnitStatus.StatusObject.SetQueueUnitEvictedCondition | pkg/utils/conditions.go:135-143 | records the eviction and withdraws the admission |
| UnitStatus.StatusObject.AccumulateExecutionTime | pkg/jobext/framework/activation.go:254-267 | banks the whole seconds of the running interval |
| UnitStatus.StatusObject.ReconcileDeactivation | pkg/jobext/framework/activation.go:132-183 | banks, requeues and evicts, unless the unit is finished, being reclaimed or already parked |
| UnitStatus.StatusObject.ReconcileMaxExecutionTime | pkg/jobext/framework/activation.go:191-237 | expires exactly when the budget is used up, resetting time and clock together, else returns the exact rest |
| Backoff.BackoffDelay | pkg/utils/requeue.go:43-64 | the loop computes the wait of 64-bit durations, always positive |
| Backoff.WaitIsBounded | pkg/utils/requeue.go:43-64 | without an overflow the wait is min(15 min, base doubled per further attempt) within a tenth |
| Backoff.JitterIff | pkg/utils/requeue.go:43-64 | the jitter is anything from minus to plus a tenth of the delay |
| Backoff.CapIff | pkg/utils/requeue.go:52-62 | the cap holds exactly as long as the doubled base is positive; otherwise the unit waits for its base of at least 2^62 nanoseconds |
| Backoff.OverflowWaitsForBase | pkg/utils/requeue.go:47-62 | the input: the second attempt with such a base waits for the base |
| Backoff.DelayMonotone | pkg/utils/requeue.go:43-56 | a later attempt never waits less, before jitter |
| Backoff.RecordQueueUnitRequeueState | pkg/utils/requeue.go:70-85 | records the next attempt and its due time, in whole seconds |
| Backoff.BackoffElapsed | pkg/utils/requeue.go:90-108 | elapsed exactly from the due time on, with the exact remaining wait before |
| Backoff.RecordThenElapsed | pkg/utils/requeue.go:70-108 | a recorded wait is over exactly from the whole second on in which it ends, early by the part of that second |
| Backoff.LowerTenthIff | pkg/utils/requeue.go:57-85 | it lasts nine tenths of the delay exactly if that part fits beside what the jitter leaves of the tenth |
| Backoff.WaitsTooShort | pkg/utils/requeue.go:57-85 | the input: eight and a half of ten seconds |
| Backoff.CountsSinceClear | pkg/utils/requeue.go:70-118 | over every run the count is the number of records since the last clear |
| KeyedHeap.UpStep | pkg/queue/heap/heap.go:69-95 | one step of sifting up, as container/heap drives it, keeps the order below |
| KeyedHeap.DownStep | pkg/queue/heap/heap.go:69-95 | one step of sifting down keeps the order elsewhere |
| KeyedHeap.Heap.Swap | pkg/queue/heap/heap.go:89-95 | exchanges two keys and keeps every stored index right |
| KeyedHeap.Heap.Add | pkg/queue/heap/heap.go:140-157 | stores or replaces the object under its key and restores the heap; a key error changes nothing |
| KeyedHeap.Heap.AddIfNotPresent | pkg/queue/heap/heap.go:161-175 | stores only under a new key |
| KeyedHeap.Heap.Delete | pkg/queue/heap/heap.go:184-199 | removes exactly that key, or fails |
| KeyedHeap.Heap.Peek | pkg/queue/heap/heap.go:202-206 | an object that no other is less than, or none if the heap is empty |
| KeyedHeap.Heap.Pop | pkg/queue/heap/heap.go:209-223 | takes out an object that no other is less than, and only that |
| FailedIndexes.CountFailedIndexes | pkg/jobext/handles/job.go:133-155 | succeeds exactly on ascending disjoint intervals in range, and counts the denoted indexes, all within the completions |
| FailedIndexes.PrintedIsCounted | pkg/jobext/handles/job.go:131-155 | printing any ascending disjoint interval list in range is accepted and counted as its size |
| FailedIndexes.AtoiSigns | pkg/jobext/handles/job.go:133-155 | a plus changes nothing and a minus the sign, within 64 bits |
| FailedIndexes.ParsePrint | pkg/jobext/handles/job.go:137-147 | parsing what was printed gives the intervals back |
| FailedIndexes.PodSetCount | pkg/jobext/handles/job.go:101-129 | min(parallelism, what neither succeeded nor failed for good), within 0 and parallelism |

## Left out

- Integer widths: 32- and 64-bit counters and casts are unbounded integers, except for the limits of `Atoi`, the maximum in `RunFilterPlugins` and the doubling of the backoff.
- Floating point: the oversell rate is a real number, the jitter of the backoff a bounded parameter.
- Blocking, timers, condition variables, goroutines, the session counter and throttling of `Next`: the scans are single steps, locks make each method atomic.
- Resource quantities, pod templates and the request of a pod: a pod set has a fixed amount per pod, and what its scheduled pods request comes with their count.
- Kubernetes clients, retries, events, metrics, logging and the stored order of API writes.
- MultiSchedulingQueue: routing depends on lister results, and deleting a queue flushes it before it leaves the map.
- The timers of reconcilePartialRunningTimeout: which admissions have timed out is a parameter of its step.
- QueueUnits.ReservedResourceNonNegative: speaks of units whose admissions all name a pod set, since the conversion fails on others.
- forgetObservedPods, Top, Length, the list functions, `DequeueSuccess` and `Preempt` of `IntelligentQueue`, annotation parsing: easy members.
- ResourceQuota, DefaultGroup and Priority plugins, other job types, reservation and network-topology controllers, feature gates, configuration: easy or foreign members.
- Admission checks, strict dequeue mode and messages of `Dequeue`: only the admissions are modelled.
