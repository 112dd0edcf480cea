# Verified model of the reconciler

A Dafny model of the mothership reconciler and of four of its smaller cores, with proofs about all inputs, all
reachable states and all runs.  `dafny verify dfyconfig.toml` checks everything.

## What is modelled

**The mothership as a state machine** (`Mothership`).  KEB requests, scheduler starts, worker selection, dispatch,
callbacks, operator stops, the looks, decisions and finishes of the bookkeeper and the reads and removals of the cleaner
are events on one database.  A database transaction is one step; what a component remembers between two transactions (a
selection, a verdict, a decision to finish, a timed-out operation, the reconciliations to purge) is part of the state and
never forgotten, so that each of them may act late, repeatedly and in any order.  The proofs establish one inductive
invariant (`MothershipInvariants`, `TransitionInvariants`) and derive the properties of all runs from it
(`MothershipRuns`, `TransitionRuns`, `StatusRuns`, `ScheduleRuns`, `DecisionRuns`, `OrphanRuns`, `RetryRuns`,
`RetentionRuns`, `BudgetRuns`, `EventRuns`): the priority barrier, agreement of selector and bookkeeper, absence of
stalls, one unfinished reconciliation per cluster, no stranded cluster, exactly when a start and a finish succeed, that
whatever is due can be started, that every success is earned, which operations become orphans, no lost request, no
unrequested deletion, exactly as many retries of a failing cluster as configured, attempts within the budget, the newest
reconciliation kept, and the position of the CRDs and the cleaner in every run.  `Continuations` constructs continuations of runs; with them `Liveness` and `Finishing` show
exactly which reconciliations can still be brought to their end, and `CounterRuns` what is not promised.

**Its building blocks**: the selector (`Selection`), the evaluation of results (`Results`), the processing sequence
(`Sequence`), the inventory and its two-level query (`Inventory`, `InventoryQueries`), the repositories (`Store`), the
status transitions and bookkeeping tasks (`Service`), the retry window (`RetryWindow`, `ErrRetries`), the attempts of an
operation (`RetryBudget`), the worker pool and its draining (`Worker`), and the cleaner (`Retention`, `Batches`,
`Cleaner`).  Objects and loops of the source are classes and loops here; each method is proved against the function that
the lemmas are about.

**Smaller cores**: nested, retried transactions over arbitrary call trees and failures (`Transaction`,
`TxConnections`), the dependency-tracked cache (`Cache`, `CacheStore`), the heartbeat sender under every interleaving
(`Heartbeat`), and the per-kind index of a resource list, with aliased objects (`ResourceIndex`).

## What the code does not do

Some expectations do not hold; each has the exact condition under which it holds, and an example or a run.

* A collision inside a joined transaction is not retried, because the second rollback reports that the transaction is
  gone: collisions are always retried exactly if no joined call contains a statement (`Transaction.AlwaysRetriedIff`,
  `RetriedIffOwn`, `CollisionInJoinedCallIsFatal`).
* A swallowed error of a joined transaction can let the outer one report success without a commit
  (`Transaction.TruthfulIffNoLies`, `SwallowedErrorGoesUnnoticed`).
* An update that changes nothing but the kubeconfig is dropped (`Inventory.KubeconfigIsKept`,
  `KubeconfigChangeIsDropped`).
* A request sent while a deletion runs is dropped when the deletion succeeds (`StatusRuns.FinishKeepsRequest`,
  `CounterRuns.RequestDuringDeletionIsDropped`).
* Adding unchanged data with other dependencies does not track those (`Cache.AddTracksNewDependencies`,
  `UntrackedDependencyGoesStale`).
* The retry window of five times the maximum can be too short, although the comment in the code calls it more than
  enough: requests that arrive while reconciliations run push failures out of it, so that a cluster that never
  succeeds can be retried any number of times (`ErrRetries.WindowDecidesIff`, `CounterRuns.RequestsHideFailures`,
  `WindowTooShort`, `RequestsDefeatTheLimit`).
* The recorded retries of an operation are bounded exactly if at most one of its executions is alive
  (`RetryBudget.BoundedIffOneIsLive`, `OverlapExceedsAnyBound`).
* A heartbeat caller can wait for ever when the context closes during a status change
  (`Heartbeat.CallerProceedsIffContextUnseen`, `CallerCanBlock`).
* Because the cleanup component is shared, a dispatched cleaner carries one strategy exactly if no other deletion
  sequence was built in the process (`Sequence.CleanerCarriesOneStrategyIff`, `StrategiesAddUp`,
  `SecondDeletionCarriesBoth`).
* The unique constraint on locks refuses a start exactly if the runtime is named like the lock of a finished
  reconciliation, and a finish exactly if a runtime that is being reconciled is named like the lock this one needs
  (`TransitionRuns.StartSucceedsIff`, `FinishSucceedsIff`, `CounterRuns.LockNameRefusesStart`, `LockNameBlocksFinish`).
* A deletion also deletes the cluster that bears the name it gives away.  An unfinished reconciliation can be brought to
  its end exactly if its configuration is live, and so are those of the reconciliations that hold the name of its lock
  (`Finishing.CanBeFinishedIff`, `EveryRunningCanBeFinished`, `CounterRuns.DeletedNameStrands`).

## Environment

Clocks are a logical clock that ticks with each step.  UUIDs, row order, map order, pool capacity, callback results and
transaction failures are parameters or events and range over all values; scheduling IDs are never handed out twice, and
every attempt of an operation draws a new retry ID.  Checksums are taken as injective.  Unique constraints, foreign keys
and cascades follow the schema in `configs/db/postgres`.

## Model

| member | source | states |
|---|---|---|
| `MothershipRuns.PriorityBarrier` | pkg/scheduler/reconciliation/reconciliation.go:54-157 | Once an operation was dispatched, every operation of the same reconciliation that is processed before it (lower priority; in deletions higher) is done at that time and stays done in every continuation of the run |
| `MothershipRuns.CRDsFrameEveryRun` | pkg/model/clusterconfigentity.go:126-145 | In every run a reconciliation has the CRDs done before anything else is dispatched, and a deletion dispatches the CRDs only after everything else is done |
| `MothershipRuns.CleanerRunsAfterComponents` | pkg/model/clusterconfigentity.go:134-142 | In every deletion the cleaner is dispatched only after all components are done, and is done before the CRDs are dispatched |
| `MothershipRuns.SelectorAgreesWithBookkeeper` | pkg/scheduler/service/result.go:71-105 | In every reachable state a final verdict leaves nothing to select for the reconciliation; if nothing is running, exactly one of final verdict and non-empty selection holds |
| `MothershipRuns.NoReconciliationStalls` | pkg/scheduler/service/bookkeepingtask.go:22-40 | Once all running operations have timed out, one round of the bookkeeper leaves none running, and then the verdict is final exactly if the selection is empty |
| `MothershipRuns.RunPersists` | pkg/scheduler/reconciliation/persistent.go:487-547 | Over any continuation of a run operation rows keep their identity, priority, type and component, what is done stays done, and no scheduling ID is used twice |
| `TransitionInvariants.RunKeepsInv` | pkg/scheduler/service/transition.go:43-199 | The inductive invariant (operations, headers, barrier, rows, locks, statuses, deletion requests, decisions) holds after every run of every interleaving |
| `TransitionInvariants.StepKeepsInv` | pkg/scheduler/service/transition.go:43-199 | Every step of KEB, scheduler, workers, component reconcilers, operator, bookkeeper and cleaner keeps the invariant |
| `TransitionInvariants.StartKeepsTransInv` | pkg/scheduler/service/transition.go:43-130 | A start, successful or not, keeps the tables consistent, locks and creation times distinct, and every configuration in progress worked on |
| `TransitionInvariants.FinishKeepsTransInv` | pkg/scheduler/service/transition.go:132-199 | A finish, successful or not, keeps the same, and leaves no configuration in progress behind |
| `TransitionInvariants.StartEffect` | pkg/scheduler/service/transition.go:43-117 | A start that succeeds found a live candidate configuration of a cluster without unfinished reconciliation, stored the target status and created one reconciliation with its operations |
| `TransitionInvariants.StartFails` | pkg/scheduler/service/transition.go:106-129 | A start that does not succeed changes nothing at all, because stored configurations have components |
| `TransitionInvariants.FinishEffect` | pkg/scheduler/service/transition.go:132-199 | A finish changes one unfinished row, unlocks it, replaces only a status in progress, and renames the cluster exactly if the decided status is deleted; a failed one changes nothing |
| `TransitionInvariants.FinishedRow` | pkg/scheduler/service/transition.go:156-180 | The finished row records the status its cluster ends up with: the decided one while that was in progress, and otherwise what was asked for meanwhile |
| `TransitionInvariants.DecisionMatchesKind` | pkg/scheduler/service/result.go:71-105 | The verdict on a reconciliation is about a deletion exactly if the reconciliation is one |
| `TransitionRuns.OneUnfinishedPerCluster` | pkg/scheduler/reconciliation/persistent.go:120-137 | In every run a cluster has at most one unfinished reconciliation |
| `TransitionRuns.LocksAreDistinct` | pkg/scheduler/reconciliation/persistent.go:105-112 | In every run the lock of a reconciliation is the runtime ID while it runs and `unlock-` with its scheduling ID afterwards, and no two share one |
| `TransitionRuns.StartSucceedsIff` | pkg/scheduler/service/transition.go:43-117 | In every run a start succeeds exactly if the configuration is live, its status is delete pending or retryable, reconcile pending or retryable, or ready, its cluster has no unfinished reconciliation, and the runtime is not named like the lock of a finished one, which is the only case in which the unique constraint on locks refuses it; the first two statuses lead to a deletion, the others to a reconciliation |
| `ScheduleRuns.DueCanBeStarted` | pkg/cluster/inventory.go:489-500 | In every run each state that the inventory lists as due, for any interval and time, can be started with every choice of IDs and sequence, unless its cluster is being reconciled or a lock name is in the way; and there is such a choice |
| `ScheduleRuns.StartableIsDue` | pkg/cluster/inventory.go:489-500 | In every run whatever can be started is listed as due once its status is an interval old |
| `TransitionRuns.FinishSucceedsIff` | pkg/scheduler/service/transition.go:132-199 | In every run an unfinished reconciliation can be finished, with any status, exactly if its configuration is live and no runtime with a running reconciliation is named like the lock it needs |
| `TransitionRuns.NoClusterIsStranded` | pkg/scheduler/service/transition.go:75-92 | In every run a live configuration whose status is in progress is worked on by the unfinished reconciliation of its cluster, a deletion exactly if the status is deleting |
| `TransitionRuns.FinishesAtMostOnce` | pkg/scheduler/service/transition.go:148-154 | A reconciliation that was finished can not be finished again, however the run goes on |
| `TransitionRuns.RunRowsStay` | pkg/scheduler/reconciliation/persistent.go:333-369 | Over any continuation of a run a finished reconciliation row never changes again and no row changes its cluster or configuration |
| `StatusRuns.StatusTransitions` | pkg/scheduler/service/transition.go:75-171 | The whole transition relation of a configuration's status: it changes by an update of its own runtime, by a deletion request for its runtime while it is the latest configuration, by a start that consumes a candidate, or by the end of the reconciliation working on it, from in progress to a final status of the same side |
| `StatusRuns.OnlyKebChangesSides` | pkg/scheduler/service/bookkeepingtask.go:47-94 | Only an update of its runtime moves a configuration out of the deletion statuses, and only a deletion request for its runtime while it is the latest one moves it in |
| `StatusRuns.PendingIsNeverLost` | pkg/scheduler/service/transition.go:158-171 | A pending request stays the latest status of its live configuration over any continuation in which no start of it succeeds, KEB sends no non-empty update and no deletion request for its runtime, and no deletion of the cluster succeeds; refused starts, empty updates and finishes that fail do not touch it |
| `StatusRuns.FinishKeepsRequest` | pkg/scheduler/service/transition.go:158-196 | A finish keeps a pending request exactly if it does not delete that runtime: a request sent during a deletion is dropped when the deletion succeeds |
| `StatusRuns.DeletionWasRequested` | pkg/scheduler/service/transition.go:193-196 | A deletion that succeeds was requested by KEB earlier in the run, at a time when the configuration it works on was the latest of this cluster; a request for an earlier cluster of the same name is not enough |
| `StatusRuns.ClusterLeavesOnlyOnRequest` | pkg/cluster/inventory.go:277-349 | A cluster leaves the inventory only by the end of a deletion that was requested for a configuration it still has; the exception is a cluster that bears the name a deleted one is about to get |
| `DecisionRuns.FailedDeletionIs` | pkg/scheduler/service/bookkeepingtask.go:51-67 | A failed deletion is decided as deleted exactly if the host is missing and the newest statuses since the last success hold at least one failed deletion but fewer than permitted; otherwise as retryable below the limit and as final at it |
| `DecisionRuns.FailedReconciliationIs` | pkg/scheduler/service/bookkeepingtask.go:68-79 | A failed reconciliation is decided as retryable exactly if the newest statuses since the last success hold fewer failures than permitted |
| `DecisionRuns.ErrCountIs` | pkg/cluster/inventory.go:74-85 | What is counted are the positions of failures with no success among the newer statuses |
| `DecisionRuns.SuccessIsEarned` | pkg/scheduler/service/bookkeepingtask.go:47-94 | In every run a decided success means that all operations of the reconciliation are done, then and ever after, or that a deletion which had failed before found the host missing |
| `DecisionRuns.VerdictIsBacked` | pkg/scheduler/service/result.go:71-105 | In every run a successful verdict means that all operations are done, then and ever after |
| `OrphanRuns.TimedOutIff` | pkg/scheduler/service/result.go:107-119 | In every run an operation counts as timed out exactly if some look of the bookkeeper at its unfinished reconciliation found it in progress, failed or undeliverable and not updated for the timeout |
| `OrphanRuns.RecentlyWrittenIsSpared` | pkg/scheduler/service/result.go:107-119 | In every run no look finds an operation that was written less than the timeout before, whatever happened since |
| `OrphanRuns.OrphanWasOverdue` | pkg/scheduler/service/bookkeepingtask.go:22-40 | In every run an orphan was found overdue by an earlier look of the bookkeeper |
| `OrphanRuns.StepDatesOperations` | pkg/scheduler/reconciliation/persistent.go:487-592 | Every step that writes an operation gives it the time of the step |
| `OrphanRuns.StepDatesStatuses` | pkg/cluster/inventory.go:223-254 | Every status that a step stores carries the time of the step, and no stored status is rewritten |
| `EventRuns.ReportIsRecordedIff` | pkg/scheduler/reconciliation/persistent.go:487-547 | A report of a worker, component reconciler, operator or bookkeeper who is entitled to it is recorded, with its time, exactly if the operation is neither done nor failed |
| `EventRuns.WhatIsRemembered` | pkg/scheduler/worker/workerpool.go:141-186 | Operations are handed to workers exactly by selection, to component reconcilers exactly by dispatching what was handed out and is open, and may be stopped exactly while new |
| `EventRuns.WhatIsDecided` | pkg/scheduler/service/bookkeepingtask.go:47-94 | Verdicts are given exactly on unfinished reconciliations looked at, and decisions taken exactly on final verdicts that were given |
| `EventRuns.PurgeInRuns` | pkg/scheduler/service/cleaner.go:119-184 | In every run a purge that nothing interrupts leaves exactly the newest reconciliation and those not older than the deadline, except for successful ones ranked beyond the retained count, with their operations |
| `RetryRuns.FailingIsRetriedExactlyMaxTimes` | pkg/scheduler/service/bookkeepingtask.go:47-94 | In every run in which KEB leaves a cluster alone and no reconciliation of its configuration succeeds, while everything else acts freely: the first maximum-many ends are retryable failures, the next is the final failure, and there is no further one |
| `RetryRuns.GivenUpIff` | pkg/scheduler/service/bookkeepingtask.go:47-94 | In such a run the configuration can be started exactly if it has failed at most maximum-many times and no other reconciliation or lock name is in the way; after the final failure no choice of IDs or sequence starts it |
| `RetryRuns.StepKeepsFailing` | pkg/scheduler/service/transition.go:43-199 | Every event keeps the history of the failing configuration to rounds of running and failure, and every failure decided for its worker to the one this history asks for |
| `CounterRuns.RequestsDefeatTheLimit` | pkg/scheduler/service/bookkeepingtask.go:47-94 | For every cluster, limit and number there is a run from the empty database in which KEB only ever sends this cluster and every reconciliation ends as a retryable failure, after which that many failures are recorded and the cluster can still be started |
| `CounterRuns.RequestsHideFailures` | pkg/cluster/inventory.go:64-85 | From every reachable state in which a configuration can be started there is a continuation, in which KEB only sends the same cluster again and every reconciliation fails, after which the window counts none of its failures and the history all of them |
| `CounterRuns.WindowTooShort` | pkg/cluster/inventory.go:64-85 | For every cluster and every limit there is such a run from the empty database after which the cluster has failed as often as the limit allows and the window counts no failure |
| `CounterRuns.RequestDuringDeletionIsDropped` | pkg/scheduler/service/transition.go:158-196 | For every cluster there are events from the empty database after which an update is pending while its deletion runs, and the end of the deletion drops the update with the cluster |
| `CounterRuns.LockNameRefusesStart` | pkg/scheduler/reconciliation/persistent.go:105-160 | For every cluster there is a run from the empty database after which a cluster named like the lock of its finished reconciliation is a candidate and can not be started |
| `CounterRuns.LockNameBlocksFinish` | pkg/scheduler/reconciliation/persistent.go:333-369 | For every cluster there is a run from the empty database after which the success of its reconciliation is decided, its configuration is live, and it can not be finished, because another cluster bears the name of the lock it needs and is being reconciled |
| `CounterRuns.DeletedNameStrands` | pkg/cluster/inventory.go:277-349 | For every cluster and time of deletion there is a run from the empty database that leaves an unfinished reconciliation, of a runtime named as the deleted cluster is, which no continuation can finish |
| `Liveness.RunningIsLive` | pkg/cluster/inventory.go:277-349 | In every run the configuration of an unfinished reconciliation is live, unless a deleted cluster was given the name of its runtime |
| `Finishing.CanBeFinishedIff` | pkg/scheduler/service/transition.go:132-199 | From every reachable state an unfinished reconciliation can be brought to its finish by some continuation exactly if its configuration is live, and so are those of the reconciliations that hold the name of its lock, and of the lock of those; then workers, component reconcilers and the bookkeeper do it alone |
| `Finishing.EveryRunningCanBeFinished` | pkg/scheduler/service/transition.go:132-199 | In every run in which no deleted cluster was given the name of a runtime that is being reconciled, every unfinished reconciliation can be brought to its finish by workers, component reconcilers and the bookkeeper alone |
| `Continuations.WorkOff` | pkg/scheduler/worker/workerpool.go:110-186 | From every reachable state the workers and component reconcilers can settle the operations of a reconciliation, without any further failure |
| `MothershipInvariants.SelectedHasWaited` | pkg/scheduler/reconciliation/reconciliation.go:54-88 | Whatever a worker may select from the running rows has only done operations before it |
| `MothershipInvariants.StartKeepsOpsInv` | pkg/scheduler/reconciliation/persistent.go:151-194 | The operations created for a processing sequence are new, share the type of the reconciliation, and are framed by single CRDs and cleaner operations |
| `MothershipInvariants.NewOperationsAre` | pkg/scheduler/reconciliation/persistent.go:160-194 | There is exactly one operation per queue entry, with its priority and component |
| `MothershipInvariants.SetStateShape` | pkg/scheduler/reconciliation/persistent.go:487-547 | An update touches one row only and never leaves done |
| `Selection.SelectionIsExact` | pkg/scheduler/reconciliation/reconciliation.go:54-157 | Per reconciliation the selection is drawn from the first group that is not all done, is empty beside an error, and otherwise has size min(waiting, max(0, limit - in progress)), or all waiting without limit |
| `Selection.FindProcessableOperations` | pkg/scheduler/reconciliation/reconciliation.go:54-88 | How often each row is selected equals its share in the selection of its own reconciliation, whatever order the maps yield, if operation types are uniform |
| `Selection.FindProcessableOperationsInGroup` | pkg/scheduler/reconciliation/reconciliation.go:122-157 | The loop selects what the throttle leaves of the waiting operations, and asks for the next group exactly if the group is all done |
| `Selection.GroupExhausted` | pkg/scheduler/reconciliation/reconciliation.go:122-157 | A group is all done exactly if it has no error, nothing in progress and nothing to pick |
| `Selection.PickIs` | pkg/scheduler/reconciliation/reconciliation.go:122-157 | What is picked from a group is new, orphaned or undeliverable, and all of that is picked if nothing in the group failed and the throttle leaves room; together with what is in work it stays within the throttle |
| `Selection.BusyCountIs` | pkg/scheduler/reconciliation/reconciliation.go:122-157 | What counts against the throttle are the operations in progress or failed |
| `Selection.MixedTypesDependOnMapOrder` | pkg/scheduler/reconciliation/reconciliation.go:106-120 | With mixed types in one reconciliation the two map orders select different operations |
| `Selection.Prios` | pkg/scheduler/reconciliation/reconciliation.go:90-104 | The priorities of a reconciliation, each once, ascending or descending |
| `Selection.OpGroupType` | pkg/scheduler/reconciliation/reconciliation.go:108-120 | The type of the first operation of some non-empty group |
| `Selection.SelectInRecon` | pkg/scheduler/reconciliation/reconciliation.go:66-86 | Walking the groups in order ends with the selection of the first open group |
| `Selection.GroupByReconAndPrio` | pkg/scheduler/reconciliation/reconciliation.go:55-64 | The nested maps hold exactly the rows of each reconciliation and priority, in row order |
| `Results.VerdictMeaning` | pkg/scheduler/service/result.go:71-105 | A verdict is successful exactly if there was work and all is done, final exactly if nothing runs and something failed or all is done, and about a deletion exactly if all operations are deletions |
| `Results.VerdictIs` | pkg/scheduler/service/result.go:71-105 | The verdict by the states of the operations: a failure needs a failed and no running operation, a success needs all done, and one operation that is no deletion makes it a verdict on a reconciliation |
| `Results.SelectorAndBookkeeperAgree` | pkg/scheduler/service/result.go:41-105 | For any rows with one type and an intact barrier a final verdict means an empty selection, and without running operations the converse holds too |
| `Results.ReconciliationResult.AddOperation` | pkg/scheduler/service/result.go:41-61 | Adds the operation to the bucket of its state, or rejects it if it belongs to another reconciliation |
| `Results.ReconciliationResult.AddOperations` | pkg/scheduler/service/result.go:32-39 | Succeeds exactly if all operations belong to the reconciliation, and then has added all |
| `Results.ReconciliationResult.GetOperations` | pkg/scheduler/service/result.go:63-69 | Returns exactly the added operations |
| `Results.ReconciliationResult.GetResult` | pkg/scheduler/service/result.go:71-105 | The loops over the buckets compute the verdict on all added operations |
| `Results.ReconciliationResult.GetOrphans` | pkg/scheduler/service/result.go:107-119 | Exactly the operations in progress, failed or undeliverable whose last update is at least the timeout ago |
| `Sequence.EachComponentOnce` | pkg/model/clusterconfigentity.go:147-180 | Every configured component name is in the queue exactly once, and nothing else is |
| `Sequence.LastOneCounts` | pkg/model/clusterconfigentity.go:147-157 | Of several components with one name the last one listed is processed |
| `Sequence.PreComponentOrder` | pkg/model/clusterconfigentity.go:158-180 | Groups follow the order of the pre-component groups, and components named nowhere are in the last group |
| `Sequence.GetReconciliationSequence` | pkg/model/clusterconfigentity.go:109-113 | The queue is the header (CRDs, in a deletion the cleaner) followed by the component groups |
| `Sequence.ReconciliationSequence.constructor` | pkg/model/clusterconfigentity.go:126-145 | The header; a deletion appends its strategy to the configuration of the cleanup component that all sequences share |
| `Sequence.ReconciliationSequence.AddComponents` | pkg/model/clusterconfigentity.go:147-180 | The loops over the name map append exactly the queue of the components, and keep the header |
| `Sequence.TakeGroup` | pkg/model/clusterconfigentity.go:159-167 | Takes from the name map exactly the components a pre-component group names first, each once |
| `Sequence.StrategiesAddUp` | pkg/model/clusterconfigentity.go:126-145 | After any number of sequences the shared cleanup component carries the strategies it had and one for each deletion sequence among them |
| `Sequence.CleanerCarriesOneStrategyIff` | pkg/model/clusterconfigentity.go:94-107 | The shared component that a cleaner is given when dispatched carries the strategy of its own deletion, and no other exactly if it had none to begin with and no other deletion sequence was built, neither before nor since |
| `Sequence.SecondDeletionCarriesBoth` | pkg/model/clusterconfigentity.go:134-142 | An example: the second of two deletions carries both strategies |
| `Inventory.CreateOrUpdateWritesLatest` | pkg/cluster/inventory.go:97-254 | After a create or update the tables are consistent and the state reported is what the latest-state lookup returns, with the configuration KEB sent |
| `Inventory.KubeconfigIsKept` | pkg/cluster/inventory.go:147-179 | The kubeconfig KEB sends is the stored one exactly unless it is the only compared-as-equal difference to the latest row: a changed kubeconfig alone is dropped |
| `Inventory.KubeconfigChangeIsDropped` | pkg/cluster/inventory.go:147-179 | An example: a second request that changes only the kubeconfig changes nothing |
| `Inventory.AddStatusSetsLatest` | pkg/cluster/inventory.go:223-254 | Storing a status makes it the latest of its configuration and of no other, also when it is not stored again |
| `Inventory.AddStatusConsistent` | pkg/cluster/inventory.go:223-267 | Storing a status keeps the foreign keys and what every table row promises |
| `Inventory.DeleteConsistent` | pkg/cluster/inventory.go:277-349 | Renaming a deleted cluster keeps the tables consistent and every configuration's latest status |
| `Inventory.DeleteForgets` | pkg/cluster/inventory.go:277-349 | A deleted runtime has no latest state; other runtimes keep theirs |
| `InventoryQueries.InnerQueryFindsNewestCluster` | pkg/cluster/inventory.go:588-639 | The inner maximum over status rows finds the newest cluster row of each live runtime |
| `InventoryQueries.OuterQueryFindsNewestConfig` | pkg/cluster/inventory.go:588-639 | The outer maximum finds the newest status of the newest configuration |
| `InventoryQueries.QueryAgreesWithLookup` | pkg/cluster/inventory.go:371-390 | A status row passes the two-level query exactly if the latest-state lookup of its runtime returns it |
| `InventoryQueries.FilterClusters` | pkg/cluster/inventory.go:511-586 | Lists each runtime whose latest status passes the filters exactly once, with the state the lookup returns, and no other |
| `InventoryQueries.ClustersToReconcile` | pkg/cluster/inventory.go:489-500 | Lists exactly the pending clusters and those whose last stable or retryable status is an interval old |
| `InventoryQueries.AnyRunIsConsistent` | pkg/cluster/inventory.go:97-349 | After any run of creates, updates, status changes and deletions the tables are consistent |
| `Store.DefaultInventory.CreateCluster` | pkg/cluster/inventory.go:147-179 | The returned version is the latest of the runtime and equals what was sent in everything compared; earlier rows stay, and a row is added exactly if the latest one differs |
| `Store.DefaultInventory.CreateConfiguration` | pkg/cluster/inventory.go:181-221 | The returned version is the latest configuration of the cluster version and equals what was sent; earlier rows stay, and a row is added exactly if the latest one differs |
| `Store.DefaultInventory.CreateStatus` | pkg/cluster/inventory.go:223-254 | Afterwards the latest status of the configuration is the requested one |
| `Store.DefaultInventory.CreateOrUpdate` | pkg/cluster/inventory.go:97-145 | Refuses an empty component list and otherwise reports the latest state of the runtime |
| `Store.DefaultInventory.UpdateStatus` | pkg/cluster/inventory.go:256-267 | The given state with the new status |
| `Store.DefaultInventory.MarkForDeletion` | pkg/cluster/inventory.go:269-275 | Every known cluster, whatever its status, gets the pending deletion as latest status; an unknown one is refused |
| `Store.MarkingAsks` | pkg/cluster/inventory.go:269-275 | The deletion of every known cluster can be requested, and is then its latest status |
| `Store.DefaultInventory.Delete` | pkg/cluster/inventory.go:277-349 | All rows of the runtime are renamed and marked as deleted; the runtime is unknown afterwards and no other is touched |
| `Store.ReconciliationRepository.CreateReconciliation` | pkg/scheduler/reconciliation/persistent.go:100-206 | Refuses empty configurations, clusters with an unfinished reconciliation and taken locks without any change; otherwise adds the row and its operations |
| `Store.ReconciliationRepository.CreateOperations` | pkg/scheduler/reconciliation/persistent.go:160-194 | The nested loops add exactly the operations of the processing sequence |
| `Store.ReconciliationRepository.FinishReconciliation` | pkg/scheduler/reconciliation/persistent.go:333-369 | Succeeds exactly for an unfinished row, which it unlocks; changes nothing else |
| `Store.ReconciliationRepository.UpdateOperationState` | pkg/scheduler/reconciliation/persistent.go:487-547 | Changes the row, with the time, exactly if it is neither done nor failed, the state is new to it or may be repeated, and an error or failure comes with a reason |
| `Store.ReconciliationRepository.GetReconciliations` | pkg/scheduler/reconciliation/persistent.go:371-398 | The reconciliations of a runtime, newest first; equal creation times leave the order open |
| `Store.ReconciliationRepository.RemoveReconciliationsBySchedulingID` | pkg/scheduler/reconciliation/persistent.go:216-248 | The batches remove exactly the given reconciliations and their operations |
| `Store.ReconciliationRepository.RemoveReconciliationsBeforeDeadline` | pkg/scheduler/reconciliation/persistent.go:250-286 | Removes exactly the older reconciliations of the runtime, except for the one named |
| `Store.InMemoryRepository.UpdateOperationState` | pkg/scheduler/reconciliation/inmemory.go:325-362 | Takes the same decision and has the same effect as the persistent repository, by the same contract |
| `Store.UpdateStateIs` | pkg/scheduler/reconciliation/persistent.go:487-547 | The update that the machine performs is that of the repositories |
| `Store.InMemoryRepository.UpdateOperationRetryID` | pkg/scheduler/reconciliation/inmemory.go:364-391 | Counts as the persistent repository does, and always records the time |
| `Store.InMemoryRepository.CreateReconciliation` | pkg/scheduler/reconciliation/inmemory.go:92-164 | Refuses any runtime that ever had a reconciliation; otherwise adds the row and its operations |
| `Store.SameNewOperations` | pkg/scheduler/reconciliation/inmemory.go:123-150 | Both repositories create the same operations |
| `Service.ClusterStatusTransition.StartReconciliation` | pkg/scheduler/service/transition.go:43-130 | The transaction with its early exits, rollbacks and the error status for empty configurations is the start step that all runs are made of; refused as no candidate exactly outside of five statuses, of which two lead to a deletion |
| `Service.ClusterStatusTransition.FinishReconciliation` | pkg/scheduler/service/transition.go:132-199 | The transaction with its early exits and rollbacks is the finish step that all runs are made of |
| `Service.BookkeepingTasks.MarkOrphans` | pkg/scheduler/service/bookkeepingtask.go:22-40 | Exactly the operations that are in progress, failed or undeliverable, were last updated at least the timeout ago, and are neither final nor orphans in the database become orphans; without failures all of them are |
| `Service.BookkeepingTasks.Finish` | pkg/scheduler/service/bookkeepingtask.go:47-94 | If the verdict, softened, is final the reconciliation is finished with it by the finish step of the runs; otherwise nothing happens |
| `Service.BookkeepingTasks.NewClusterStatus` | pkg/scheduler/service/bookkeepingtask.go:47-79 | The verdict, softened by the failures counted in the history and by a missing host |
| `Service.SoftenedIsDecision` | pkg/scheduler/service/bookkeepingtask.go:47-79 | The bookkeeping task decides like the machine does in every run |
| `Service.DeletionPassesIff` | pkg/scheduler/service/bookkeepingtask.go:51-67 | A failed deletion passes as done exactly if a failed operation mentions the missing host and since the last success the deletion has failed at least once, but less often than permitted |
| `Service.OperationErrorContainsNoSuchHost` | pkg/scheduler/service/bookkeepingtask.go:96-103 | True exactly if some reason mentions the missing host |
| `ErrRetries.CountRetries` | pkg/cluster/inventory.go:59-86 | The loop counts the error statuses since the last stable one within the newest five times maximum statuses; no error statuses is an error |
| `ErrRetries.StatusInSlice` | pkg/cluster/inventory.go:88-95 | True exactly for a listed status |
| `ErrRetries.WindowDecidesIff` | pkg/cluster/inventory.go:64-85 | The window decides like the whole history exactly if the history stays below the maximum or its maximum-th error lies within the window |
| `ErrRetries.DenseWindowDecides` | pkg/cluster/inventory.go:64-85 | If every five consecutive statuses since the last stable one contain a counted error the window decides like the whole history |
| `ErrRetries.ExactlyMaxRetries` | pkg/scheduler/service/bookkeepingtask.go:47-94 | In a history of rounds that all fail, starting without counted failures, the first maximum-many failures are retryable and can be started again; the next is final and can not |
| `RetryBudget.RetriesStayWithinMax` | pkg/scheduler/worker/workerpool.go:110-139 | If an execution reports nothing once its operation was selected again, and only the latest selected copy is dispatched, once, the recorded retries never exceed the maximum over any number of orphaned executions |
| `BudgetRuns.RunsAgree` | pkg/scheduler/worker/workerpool.go:110-201 | Every run of the mothership, together with what its worker pools and component reconcilers do behind its events, is a run of the retry budget: retries, retry ID and state of an operation agree all along |
| `BudgetRuns.RetriesStayWithinMaxInRuns` | pkg/scheduler/worker/workerpool.go:188-201 | So in every run of the mothership an operation without retries whose executions do not overlap never records more than the maximum |
| `RetryBudget.BoundedIffOneIsLive` | pkg/scheduler/reconciliation/persistent.go:563-570 | In every reachable state the retries that live executions can still have recorded are bounded exactly if at most one execution is alive |
| `RetryBudget.DispatchHandsOutTheRest` | pkg/scheduler/worker/workerpool.go:128-201 | Although the budget is computed from a copy selected earlier, a dispatch hands out exactly the attempts left at that time, at least one; if none are left nothing is dispatched and the operation fails |
| `RetryBudget.OverlapExceedsAnyBound` | pkg/scheduler/reconciliation/persistent.go:563-570 | For every operation and every number there are events with one overlap of two executions, each within its budget, after which more retries are recorded |
| `RetryBudget.ReportIsRepositoryUpdate` | pkg/scheduler/reconciliation/persistent.go:549-592 | The retry count of the budget model is that of the repository |
| `Worker.Pool.InvokeProcessableOpsOnce` | pkg/scheduler/worker/workerpool.go:72-99 | Draining, from any reachable operations, ends within as many rounds as there are open ones, for any throttle, pool size and outcomes; every reconciliation is then done, or has failed, or has an operation that somebody else was busy with from the start, and nothing behind a failed operation was ever started |
| `Worker.DrainedVerdict` | pkg/scheduler/service/result.go:71-105 | After draining the verdict stays in progress exactly if an operation is left running, because somebody else is busy with it or it could not be delivered; otherwise it is a failure if something failed and a success if not |
| `Worker.Pool.InvokeProcessableOps` | pkg/scheduler/worker/workerpool.go:141-186 | Assigns work that had waited, as much as is processable and as workers are free; with none processable every reconciliation has ended |
| `Worker.Pool.FilterProcessableOpsByMaxRetries` | pkg/scheduler/worker/workerpool.go:188-201 | Keeps exactly the operations with attempts left, in order, and fails exactly the others, unless they have ended |
| `Worker.BelowMaxMembers` | pkg/scheduler/worker/workerpool.go:188-201 | What passes the retry filter are exactly the selected operations with attempts left |
| `Worker.RejectedRows` | pkg/scheduler/worker/workerpool.go:188-201 | The retry filter fails exactly the open operations that have used up their attempts, with the time and the reason |
| `Worker.SelectedIsNext` | pkg/scheduler/reconciliation/reconciliation.go:54-157 | While draining, whatever is selected waits to be started and everything before it is done |
| `Worker.NothingSelected` | pkg/scheduler/reconciliation/reconciliation.go:54-157 | While draining, an empty selection means that the reconciliation is done, or has failed, or somebody else is busy with one of its operations |
| `Worker.ReachableIsDrainable` | pkg/scheduler/worker/workerpool.go:72-99 | In every run, whoever is busy, the operations are in a state that draining starts from |
| `Transaction.AllOrNothing` | pkg/db/transaction.go:20-109 | Success is reported only with one physical commit of the effects of one clean run, or if an error went unnoticed; failure only without commit; no body is entered on an ended transaction; one to five attempts |
| `Transaction.TriesFiveTimes` | pkg/db/transaction.go:20-66 | After fewer than five collisions of begin, commit or own statements a clean attempt is committed, once, with one attempt more than collisions; five collisions give five attempts, an error and no commit |
| `Transaction.FailureIsNotRetried` | pkg/db/transaction.go:48-62 | Any other failure ends it at once, without a commit, and the error tells whether there were collisions before |
| `Transaction.TruthfulIffNoLies` | pkg/db/transaction.go:78-101 | Reported success always means a commit exactly if the body has no swallowed failure after which the transaction is left alone |
| `Transaction.SwallowedErrorGoesUnnoticed` | pkg/db/transaction.go:183-191 | An example: swallowing the error of the only call can make the root report success without a commit |
| `Transaction.PropagatingNeverLies` | pkg/db/transaction.go:78-101 | Bodies that pass on the errors of their calls have none |
| `Transaction.RetriedIffOwn` | pkg/db/transaction.go:48-62 | A collision at the begin, at the commit or in a statement of the body itself is retried, one in a statement of a joined call is not: both directions, for every body and every statement |
| `Transaction.AlwaysRetriedIff` | pkg/db/transaction.go:48-62 | Every collision is retried, wherever it happens, exactly if no joined call of the body contains a statement |
| `Transaction.CollisionInJoinedCallIsFatal` | pkg/db/transaction.go:48-62 | An example: the same statement is always retried in a plain body, and not in a joined call |
| `Transaction.BodyBehaves` | pkg/db/transaction.go:161-208 | A body leaves the transaction as it was, plus its effects, or spoilt by a joined call with the counter too high |
| `Transaction.JoinedOnce` | pkg/db/transaction.go:161-191 | A joined call runs its body once and either leaves only effects or spoils the transaction |
| `TxConnections.TxConnection.ExecTransaction` | pkg/db/transaction.go:78-101 | A joined execution: a refused begin runs nothing, an error rolls the shared transaction back, success only lowers the counter |
| `TxConnections.TxConnection.TransactionResult` | pkg/db/transaction.go:20-66 | A joined call with its retries, for every body and every failure |
| `TxConnections.RetryLoop` | pkg/db/transaction.go:20-66 | The loop collects the commits, attempts and chained errors of the attempts, each on a transaction of its own |
| `TxConnections.TransactionResult` | pkg/db/transaction.go:20-109 | All or nothing, once, in one to five attempts, for every body whose failures are noticed |
| `Cache.CacheStaysSound` | pkg/repository/cachedep.go:47-158 | After any run in which entries are added with the latest values every recorded dependency is on the latest value and belongs to the existing entry of its label and runtime |
| `Cache.InvalidateIsExact` | pkg/repository/cachedep.go:106-158 | An invalidation removes exactly the entries with a matching dependency, with all their dependencies |
| `Cache.ChangeDropsDependents` | pkg/kv/repository.go:323-380 | A new value drops an entry exactly if the value is among its recorded dependencies |
| `Cache.AddTracksNewDependencies` | pkg/cache/repository.go:69-109 | An addition tracks a given dependency exactly if the entry is new or changed, or it was tracked before: the same data with other dependencies leaves those untracked |
| `Cache.EntriesAreNeverStale` | pkg/cache/repository.go:69-109 | After any run in which entries are added with the latest values and unchanged data is added again only with dependencies that are tracked, whatever an entry was last said to depend on still has that value |
| `Cache.UntrackedDependencyGoesStale` | pkg/cache/repository.go:69-109 | An example: an entry added again with a dependency survives a change of that dependency |
| `Cache.AddKeepsSound` | pkg/cache/repository.go:69-109 | Adding an entry keeps the cache sound, also when recording fails |
| `Cache.CreateKeepsSound` | pkg/kv/repository.go:323-380 | Storing a value keeps the cache sound |
| `Cache.DeleteKeepsSound` | pkg/kv/repository.go:382-402 | Deleting values by bucket, key or both keeps the cache sound |
| `Cache.DeleteValueForgets` | pkg/kv/repository.go:382-402 | Deleting a value removes all its versions and no other value, and exactly the entries that depend on it |
| `Cache.DeleteKeyForgets` | pkg/kv/repository.go:146-178 | The same for all values of a key |
| `Cache.DeleteBucketForgets` | pkg/kv/repository.go:461-481 | The same for all values of a bucket |
| `Cache.CreateValueStores` | pkg/kv/repository.go:323-380 | An accepted new value is the latest of its bucket and key, with its key version and a version of its own, drops exactly its dependents and leaves every other latest value; otherwise nothing happens |
| `Cache.AddIsExact` | pkg/cache/repository.go:69-109 | Unchanged data changes nothing; a dependency named twice removes the old entry and adds none; otherwise the entry is added with an ID of its own and exactly the named dependencies, and nothing else changes |
| `Cache.InvalidateByIDKeepsSound` | pkg/cache/repository.go:134-155 | Exactly the entry with this ID and its dependencies are gone and the cache is sound |
| `Cache.InvalidateEntryKeepsSound` | pkg/cache/repository.go:111-132 | Exactly this entry and its dependencies are gone and the cache is sound |
| `CacheStore.Repository.CacheIDs` | pkg/repository/cachedep.go:160-176 | Each cache ID of the given dependencies exactly once |
| `CacheStore.Repository.InvalidateBy` | pkg/repository/cachedep.go:106-158 | Queries, removes each matching entry once and its dependencies: exactly the effect that `Cache.InvalidateIsExact` characterises |
| `CacheStore.Repository.Record` | pkg/repository/cachedep.go:47-72 | One row per dependency, all or none |
| `CacheStore.Repository.Add` | pkg/cache/repository.go:69-109 | Reuses an equal entry, replaces another one, and records exactly the named dependencies or none; keeps a sound cache sound |
| `CacheStore.Repository.Invalidate` | pkg/cache/repository.go:111-132 | Drops exactly the entry of a label and runtime, also one without dependencies |
| `CacheStore.Repository.InvalidateByID` | pkg/cache/repository.go:134-155 | Drops exactly the entry with this ID, also one without dependencies |
| `CacheStore.Repository.CreateValue` | pkg/kv/repository.go:323-380 | Stores a new accepted value as the latest one and drops exactly what depends on the old one; keeps a sound cache sound |
| `CacheStore.Repository.DeleteValue` | pkg/kv/repository.go:382-402 | Deletes exactly the values of a key in a bucket and the entries that depend on them; keeps a sound cache sound |
| `CacheStore.Repository.DeleteKey` | pkg/kv/repository.go:146-178 | Deletes exactly the values of a key and the entries that depend on them; keeps a sound cache sound |
| `CacheStore.Repository.DeleteBucket` | pkg/kv/repository.go:461-481 | Deletes exactly the values of a bucket and the entries that depend on them; keeps a sound cache sound |
| `Heartbeat.AtMostOneLoop` | pkg/reconciler/heartbeat/heartbeat.go:84-169 | In every interleaving at most one sender loop is alive |
| `Heartbeat.CallbacksNeverOverlap` | pkg/reconciler/heartbeat/heartbeat.go:87-112 | In every interleaving callbacks never overlap |
| `Heartbeat.NothingAfterFinal` | pkg/reconciler/heartbeat/heartbeat.go:108-166 | After an acknowledged success or error nothing is sent any more, however the run goes on |
| `Heartbeat.MessagesAreTruthful` | pkg/reconciler/heartbeat/heartbeat.go:87-137 | In every interleaving a message carries the status its loop was started for, or reports how the context was first closed: an error if by its deadline, a failure if it was cancelled |
| `Heartbeat.SendersEndForAReason` | pkg/reconciler/heartbeat/heartbeat.go:108-166 | In every interleaving the last sender has ended only if its final status was acknowledged, or the report of the closed context was, or it gave up after that |
| `Heartbeat.DeliversOnceCallbacksWork` | pkg/reconciler/heartbeat/heartbeat.go:108-166 | In every interleaving a sender that has not ended gets its message through with the next tick and the next callback that works |
| `Heartbeat.ChangeIsAcceptedIff` | pkg/reconciler/heartbeat/heartbeat.go:181-223 | A status change is accepted exactly if the context was not seen closed and the status is neither success nor error; it waits exactly if a running or failed status is being sent |
| `Heartbeat.CallerProceedsIffContextUnseen` | pkg/reconciler/heartbeat/heartbeat.go:175-179 | A caller waiting for the loop to stop can go on, and set its status, exactly as long as the loop has not seen the closed context |
| `Heartbeat.CallerCanBlock` | pkg/reconciler/heartbeat/heartbeat.go:175-179 | A run in which the caller waits for ever |
| `Heartbeat.RunKeepsInv` | pkg/reconciler/heartbeat/heartbeat.go:84-223 | In every interleaving all loops but the last have ended, the last one reports the current status, an ended last loop can not be replaced, and an acknowledged final status is the last message |
| `Retention.PurgeIsExact` | pkg/scheduler/service/cleaner.go:119-184 | With distinct creation times the two steps of a purge spare exactly the newest reconciliation and those not older than the deadline, minus the successful ones ranked beyond the retained count |
| `Retention.NewestSurvives` | pkg/scheduler/service/cleaner.go:135-152 | The newest reconciliation always survives |
| `Retention.PurgeIsIdempotent` | pkg/scheduler/service/cleaner.go:119-133 | A second purge removes nothing |
| `Retention.UnfinishedIsNeverRemoved` | pkg/scheduler/service/cleaner.go:119-184 | In every run no step removes an unfinished reconciliation, in particular no step of a purge, however long ago it read the rows |
| `RetentionRuns.NewestIsNeverRemoved` | pkg/scheduler/service/cleaner.go:119-184 | In every run no step removes the newest reconciliation of a runtime, in particular no step of a purge, however long ago it read which one that was |
| `RetentionRuns.NewestOnlyGetsNewer` | pkg/scheduler/service/cleaner.go:135-152 | In every run a runtime that had a reconciliation has one in every continuation, and the greatest creation time of its reconciliations never decreases |
| `Retention.TimesAreDistinct` | pkg/scheduler/reconciliation/persistent.go:105-112 | In every run creation times are distinct, because the clock of the model ticks with each step |
| `Cleaner.Cleaner.DeleteRecordsByAge` | pkg/scheduler/service/cleaner.go:136-152 | Leaves a newest reconciliation and those not older than the deadline |
| `Cleaner.Cleaner.DeleteRecordsByCountAndStatus` | pkg/scheduler/service/cleaner.go:155-184 | Drops exactly the successful ones listed beyond the retained count, in an order from new to old; nothing if that is zero |
| `Cleaner.Cleaner.PurgeReconciliationsForCluster` | pkg/scheduler/service/cleaner.go:119-133 | Leaves what the second step leaves of what the first step leaves, with distinct creation times exactly the survivors; their operations stay, and so does everything of other runtimes |
| `Batches.SplitSliceByBlockSize` | pkg/repository/utils.go:3-22 | Non-empty blocks of the given size, the last maybe smaller, that concatenate to the slice |
| `ResourceIndex.ResourceCacheList.constructor` | pkg/reconciler/kubernetes/resource.go:45-54 | The index agrees with the scan for every kind |
| `ResourceIndex.ResourceCacheList.Add` | pkg/reconciler/kubernetes/resource.go:110-114 | Replaces the first equal resource by one at the end; the index still agrees with the scan |
| `ResourceIndex.ResourceCacheList.Remove` | pkg/reconciler/kubernetes/resource.go:100-103 | Removes the first equal resource; the index still agrees with the scan |
| `ResourceIndex.ResourceCacheList.Replace` | pkg/reconciler/kubernetes/resource.go:105-108 | Replaces the first equal resource in place; the index still agrees with the scan |
| `ResourceIndex.ResourceCacheList.VisitByKind` | pkg/reconciler/kubernetes/resource.go:56-71 | Visits what a scan filtered by lower-case kind would, in the same order, until a callback fails |
| `ResourceIndex.ResourceCacheList.Get` | pkg/reconciler/kubernetes/resource.go:84-94 | Finds the first matching resource of the whole list |
| `ResourceIndex.RemoveFromSlice` | pkg/reconciler/kubernetes/resource.go:120-127 | Without the first equal resource |
| `ResourceIndex.ReplaceFromSlice` | pkg/reconciler/kubernetes/resource.go:129-137 | With the first equal resource replaced |
| `ResourceIndex.OfKindRemove` | pkg/reconciler/kubernetes/resource.go:20-23 | Filtering by kind commutes with removal |
| `ResourceIndex.OfKindReplace` | pkg/reconciler/kubernetes/resource.go:25-28 | Filtering by kind commutes with replacement |
| `ResourceIndex.FirstTwinGoes` | pkg/reconciler/kubernetes/resource.go:120-137 | Removal takes out the first resource of the same kind, name and namespace, replacement overwrites it; without one nothing happens |
| `ResourceIndex.AddKeepsApart` | pkg/reconciler/kubernetes/resource.go:110-114 | If no two entries are about the same resource, none are after an addition |
| `ResourceIndex.FirstAskedIs` | pkg/reconciler/kubernetes/resource.go:84-94 | A lookup finds the first resource of the kind and name whose namespace is empty or the one asked for |
| `ResourceIndex.EditInPlace` | pkg/reconciler/kubernetes/resource.go:10-28 | An edit in place keeps the index in agreement exactly if it keeps the lower-case kind of a listed resource |
## Left out

- SQL text, query validation, column handling, encryption and hashing: tables are maps and sequences with serial IDs.
- HTTP handlers, remote and local invokers: only as events; the dispatch check that an operation is not in progress is dropped, and so is the check of retries before a rejection, which allows more runs (`BudgetRuns` has the latter).
- Administrative status changes, administrative removal of reconciliations and debug flags: not events of the runs.
- Transactions are atomic and isolated: anomalies of the isolation level between concurrent transactions (for example a finish and a KEB request that both commit) are not modelled.
- Steps that the source performs outside of a transaction in one go, such as the lookup and update behind a deletion request, are one step.
- Failing database reads outside of transactions: the bookkeeper goes on with a count of zero if counting the failures fails; the model always counts.
- `RemoveStatusesWithoutReconciliations` and `RemoveDeletedClustersOlderThan`: they depend on database views.
- The deprecated age-only purge: it gives no retention guarantee.
- Local deletion runs: they start from a status that creation does not treat as a deletion.
- Kubernetes, Helm, Git, chart rendering, progress tracking, metrics, occupancy, command line.
- Results that the source logs or wraps as error texts are outcomes, options or booleans; the texts survive only where the code inspects them.
- RetryRuns.FailingIsRetriedExactlyMaxTimes: starts from a configuration without counted failures and assumes one limit for it throughout; with requests of KEB in between it is false (`CounterRuns.RequestsDefeatTheLimit`).
- Sequence.ReconciliationSequence.constructor: the queue holds the cleanup component as it is then, where the source queues a pointer; what a cleaner is given when dispatched is the subject of `Sequence.CleanerCarriesOneStrategyIff`.
- Worker.Pool.InvokeProcessableOpsOnce: takes each assigned operation to end as done or failed, and whoever else is busy with an operation to stay so while the pool drains.
- Batches.SplitSliceByBlockSize: needs a positive block size; the source divides by it.
- RetryBudget.RetriesStayWithinMax: assumes one live execution; `RetryBudget.BoundedIffOneIsLive` says that nothing less will do.
- BudgetRuns.RetriesStayWithinMaxInRuns: assumes the same.
- Cache.CacheStaysSound: assumes that entries are added with the latest values; whether a value fits its key is a parameter.
- Store.InMemoryRepository.CreateReconciliation: says nothing about the status of the new row, which the source leaves empty.
- ResourceIndex.ResourceCacheList.Remove: slices are values, so effects on other slices that share the backing array, and removal during a visit, are not captured.
- ResourceIndex: lower-casing is that of ASCII letters.
- In-memory lookups, filters and removals: the in-memory repository is compared on creation and updates only.
