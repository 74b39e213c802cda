# Verification of the distributed command executor

Dafny models of the master's dispatch protocol, its balancers, registry and auto-scaler, the worker's task
runner and the operator's controller, with proofs of what they keep over every run and every interleaving.

## How the model is built

- **The dispatch protocol** (`Protocol.dfy`) is a transition system. Each critical section of the scheduler,
  the store and the registry is one action. Submit handlers, dispatch goroutines, cancel handlers, heartbeats,
  registrations, evictions and health checks interleave freely between actions. `Enqueue` is cut between its map
  insert and its channel send, `Requeue` between its reset and its send, `Cancel` between its read and its write.
  `GetHealthyNodes` and `Select` form one action because the selection works on a private copy of the list. A
  `Trace` is a run; theorems quantify over all valid traces. Task objects have identities (`Ref`) separate from
  their IDs, so "the same object" can be said, and IDs may repeat unless a theorem asks for `FreshIDs`.
- **The objects**: `Scheduler`, `Store`, `NodeRegistry`, `ConnectionPool`, `AutoScaler`, `Server`, `Dispatcher`,
  `Resource` and the balancers are classes with the fields, branches and loops of the Go code. Their methods are
  proved equal to functions on values (`Schedule`, `Records`, `Roster`, `Pool`, `Scale`), and the protocol's actions
  are these same functions. `Schedule` is generic in the task identity: the class uses it over object references, the
  protocol over numbers.
- **The argument**: `Ownership.dfy` proves the invariant that the code relies on without stating it: a task is in
  the queue or with one handler or goroutine, never both, and the task map finds that very object. `Fates.dfy`,
  `Retries.dfy`, `Progress.dfy`, `Results.dfy`, `Cancellation.dfy`, `Outcomes.dfy`, `Load.dfy` and `Rosters.dfy` build
  on it. `Scenarios.dfy` gives runs that reach the bounds and the exceptions; `Finality.dfy` constructs runs from
  arbitrary reachable states, to show exactly which statuses can still change.

Map iteration orders, clocks, dial outcomes, worker replies and cluster answers are parameters.

## Where the code differs from what one might expect

- The dispatcher's `MaxRetries` setting is never read; a task's own limit, always 3, is what counts.
- Waiting for a node also counts as a retry. It is not limited by the retry bound (`Scenarios.WaitsWithoutSend`), but
  it uses retries up: a task is given up with fewer than MaxRetries + 1 sends exactly when it found no healthy node
  while it still had retries (`Retries.GivenUpEarlyExactlyWhen`); three such waits leave it one send
  (`Scenarios.GivenUpAfterWaits`).
- `Requeue` resets the task before it knows whether the queue has room, and the error is only logged: an accepted task
  can be lost (`Scenarios.AcceptedTaskCanBeLost`), exactly when the requeueing send meets a full queue
  (`Fates.DropsExactlyWhenFull`). One live task more than the queue holds is enough (`Scenarios.NoLossIsTight`).
- A submission refused by the queue leaves its job in the store, pending (`Results.JobsWithoutResult`).
- `Cancel` does not stop the dispatch. A cancelled task is sent to a worker like any other, and its outcome
  overwrites the status (`Scenarios.CancelledThenCompleted`): a job is cancelled exactly when a Cancel has written and no
  failure or result has been stored since (`Cancellation.CancelledExactlyWhen`).
- `Cancel` reads the status outside the lock, so it can overwrite the status of a finished job
  (`Scenarios.LateCancelReached`); this is the only way for status and result to disagree.
- The scheduler calls a task completed whatever its result; the store does not (`Scenarios.FailedResultCompletesTask`).
  On a served task they agree exactly when it succeeded and no Cancel wrote late (`Cancellation.ServedAfterCancel`).
- Priority orders nothing: tasks leave the queue in the order in which they entered it (`Fates.DispatchedInOrder`).
- The weighted balancer can choose a node without room although another has some (`Balancer.OverloadedNodeGetsAll`,
  `Balancer.OverloadedNodeGetsTurns`). With a positive total it never does. With a total of zero it is round robin;
  with a negative one the counter itself is the target, and the fallback that should not be reached is reached from
  some counter value on. `Balancer.ChoiceHasRoomExactlyWhen` gives the exact condition.
- `ScaleDown` sets the deployment from the number of healthy nodes, and can lift it over the maximum
  (`Scaler.ScaleDownLeavesRangeExactlyWhen`, `Scaler.ScaleDownCanLeaveRange`).
- Without a cluster `SetEnabled` switches the scaler off even when it is asked to switch it on
  (`Scaler.EnabledExactlyWhen`).
- Two worker calls with one task ID share a map entry; the first to end removes it (`Runner.SharedIDLosesKey`). A call is
  found under its ID exactly when no other call with that ID has inserted or deleted since (`Runner.FoundExactlyWhen`).
- The operator's progress reports set and drop a job's start time in turn, what it holds is the time of the last report,
  and no finished job has one (`Operator.StartTimeExactlyWhen`).
- The operator acts on the informer's copy of a resource. A job is submitted again exactly when the copy is older than
  a written start, or the status write of an earlier submission failed (`Operator.SubmitsAgainExactlyWhen`,
  `Operator.StartedTwice`). An old copy can also take a verdict back (`Operator.VerdictTakenBack`,
  `Operator.VerdictOverturnedExactlyWhen`).
- A DistributedJob need not get a verdict. A reconciliation whose polls all come through gives one exactly when each
  task has a stored outcome that no cancellation has overwritten (`Operator.VerdictExactlyWhen`); with all tasks at
  rest that is when each has ever been sent to a worker and none stands cancelled (`Operator.VerdictAtRestExactlyWhen`).
  A task of which that will never be true blocks the verdict in every reconciliation that polls it
  (`Operator.UndecidedTaskBlocksVerdict`): a lost one as well as a cancelled one (`Finality.LostTaskIsNeverDecided`,
  `Finality.NeverDecidedExactlyWhen`).
- A verdict of failure can be premature, because a task that is being retried shows as failed
  (`Operator.FailedVerdictPremature`). A failed status is final exactly when the task's dispatch is over or can only
  end in failure and no Cancel is about to write (`Finality.FailedIsFinalExactlyWhen`).
- A drain of the worker can return while an admitted call is about to execute (`Runner.DrainMissesCall`,
  `Runner.DrainedLeavesExactly`).
- Pages of a listing can repeat and miss entries, since every call visits the map in an order of its own;
  `Listing.PagesAcrossOrdersExactlyWhen` says when they do not.

## Model

| member | source | states |
|---|---|---|
| Types.ToResult | internal/master/dispatcher.go:179-200 | the result carries the reply's output, exit code and error text, the task's ID, the node and the time; each reply status has its own result status |
| Scheduler.Scheduler.EnqueueInsert | internal/master/scheduler.go:41-48 | the locked half: a taken ID is an error and changes nothing, otherwise the pending task is filed under its ID |
| Scheduler.Scheduler.TrySend | internal/master/scheduler.go:50-58 | the non-blocking send succeeds exactly when the channel has room |
| Scheduler.Scheduler.Enqueue | internal/master/scheduler.go:40-59 | all three outcomes with the whole new state, rollback included |
| Scheduler.RollbackUndoesInsert | internal/master/scheduler.go:53-57 | the rollback takes out the entry the insert put in and no other |
| Scheduler.Scheduler.Dequeue | internal/master/scheduler.go:62-69 | hands out the head of the queue |
| Scheduler.Scheduler.MarkRunning | internal/master/scheduler.go:72-86 | status, start and worker of the task under this ID, or an error and no change |
| Scheduler.Scheduler.MarkComplete | internal/master/scheduler.go:89-102 | completed whatever the result, or an error and no change |
| Scheduler.Scheduler.MarkFailed | internal/master/scheduler.go:105-118 | failed, or an error and no change |
| Scheduler.Scheduler.Requeue | internal/master/scheduler.go:121-135 | the reset happens in any case, the send only with room |
| Scheduler.Scheduler.ListTasks | internal/master/scheduler.go:151-172 | for every map order the loop returns the page of the filtered tasks, for every limit and offset |
| Scheduler.Scheduler.ListedExactly | internal/master/scheduler.go:157-170 | a page shows tasks with the wanted status only, and an uncut one all of them |
| Scheduler.Task.CanRetry | pkg/types/task.go:112-114 | a failed task with retries left |
| Scheduler.Task.constructor | pkg/types/task.go:86-99 | a new task: created, no retries, three allowed |
| Store.Store.SaveJob | internal/master/store.go:39-43 | files the job under its ID, replacing any other |
| Store.Store.UpdateJobStatus | internal/master/store.go:54-60 | changes the status of a known job and nothing else |
| Store.Store.SaveResult | internal/master/store.go:63-77 | writes both indexes and derives the status |
| Store.Store.ListJobs | internal/master/store.go:88-109 | for every map order the loop returns the page of the filtered jobs, for every limit and offset |
| Store.ListedExactly | internal/master/store.go:94-107 | a page shows jobs with the wanted status only, and an uncut one all of them |
| Listing.MatchingIsFilter | internal/master/store.go:94-105 | the filtered list has exactly the wanted entries, each once |
| Listing.PageEntries | internal/master/store.go:92-108 | the entries of a page are those from the offset on, limit many or what is left, at least one if any is left |
| Listing.PagesCoverListing | internal/master/store.go:92-108 | over one fixed order the pages at 0, L, 2L, ... give the whole filtered list without repeats |
| Listing.PagesAcrossOrdersMayRepeat | internal/master/store.go:94 | over two map orders two pages can repeat one entry and miss another |
| Listing.PagesAcrossOrdersExactlyWhen | internal/master/store.go:92-108 | pages over changing orders list every entry once, page after page, exactly when successive orders agree on the set of entries already listed |
| Registry.NodeRegistry.Register | internal/master/registry.go:81-89 | a registration replaces the entry, seen now and healthy |
| Registry.NodeRegistry.Heartbeat | internal/master/registry.go:101-116 | seen now, load overwritten, unhealthy becomes healthy; unknown nodes are refused |
| Registry.NodeRegistry.GetHealthyNodes | internal/master/registry.go:127-138 | the healthy entries in map order; none exactly when no node is healthy |
| Registry.NodeRegistry.IncrementActiveTasks | internal/master/registry.go:174-181 | one more, for a known node |
| Registry.NodeRegistry.DecrementActiveTasks | internal/master/registry.go:184-191 | one less, for a known node above zero |
| Registry.NodeRegistry.CheckHealth | internal/master/registry.go:208-231 | both loops: expired nodes deleted and reported once each in map order, late ones marked, the rest untouched |
| Registry.CountedAndUncounted | internal/master/registry.go:174-191 | increment then decrement restores the table exactly unless the load was negative |
| Ownership.AdvanceTouches | internal/master/scheduler.go:40-135 | what a step of a handler or goroutine does to queue and task map, and that no task changes its ID |
| Ownership.SingleOwnerMove | internal/master/dispatcher.go:87-148 | a step of a handler or goroutine leaves every task with one owner at most |
| Ownership.AdvanceRecord | internal/master/scheduler.go:72-135 | a step changes the task object of its own goroutine, in the way its stage says, and no other |
| Ownership.OwnedStep | internal/master/scheduler.go:40-135 | every action keeps ownership: one place per task, none vanished, and the task map finds the held object |
| Ownership.OwnedAlways | internal/master/dispatcher.go:71-148 | ownership holds in every reachable state of every interleaving, even when IDs repeat |
| Fates.ExactlyOneFate | internal/master/dispatcher.go:87-148 | conservation: every task has exactly one fate; an accepted one is queued, held, served, out of retries or lost |
| Fates.NeverDispatchedTwice | internal/master/dispatcher.go:78-82 | two running handlers or goroutines never have the same task, nor one that is queued |
| Fates.IgnoredErrorsNeverOccur | internal/master/dispatcher.go:125-157 | each Mark call and the rollback find the goroutine's own object, so no task-not-found error occurs |
| Fates.DropsExactlyWhenFull | internal/master/scheduler.go:129-134 | a task is dropped exactly when the requeueing send finds the queue at its capacity |
| Fates.FullMeansOverload | internal/master/scheduler.go:50-58 | pigeonhole: a goroutine that meets a full queue implies more live tasks than places |
| Fates.NoLoss | internal/master/dispatcher.go:97-135 | while live tasks never exceed the queue's capacity no task is dropped |
| Scenarios.NoLossIsTight | internal/master/scheduler.go:129-134 | for every capacity q some run has at most q + 1 live tasks at any moment and drops one |
| Fates.DispatchedInOrder | internal/master/scheduler.go:62-69 | tasks taken plus tasks waiting are the tasks sent, in order: first come, first served |
| Scenarios.AcceptedTaskCanBeLost | internal/master/dispatcher.go:97-105 | for every capacity, a run in which an accepted task is lost and its job stays pending |
| Retries.BalancedStage | internal/master/dispatcher.go:96-135 | each step of the holder keeps the account of sends, retried sends, waits and early waits |
| Retries.RetriesAreAccounted | internal/master/scheduler.go:121-127 | at every moment the retry counter is waits plus retried sends, capped it is early waits plus retried sends, and sends are retried sends plus the present one |
| Retries.SchedulerStatus | internal/master/scheduler.go:72-135 | what the scheduler calls a task at every stage: pending in the queue, running exactly during an attempt on a worker |
| Retries.SendBound | internal/master/dispatcher.go:118-135 | sendToWorker is called at most MaxRetries + 1 = 4 times per task, less one for each early wait for a node |
| Scenarios.SendBoundReached | internal/master/dispatcher.go:118-135 | a run with exactly MaxRetries + 1 calls |
| Scenarios.WaitsWithoutSend | internal/master/dispatcher.go:97-105 | for every n a run that requeues a task n times without one send |
| Retries.GivesUpOnlyWhenSpent | pkg/types/task.go:112-114 | when a task is given up its retries are spent, and it has had retries + 1 - waits, that is MaxRetries + 1 - early waits, sends |
| Retries.GivenUpEarlyExactlyWhen | internal/master/dispatcher.go:97-135 | given up with fewer than MaxRetries + 1 sends exactly when it waited for a node while it had retries left |
| Scenarios.GivenUpAfterWaits | internal/master/dispatcher.go:97-135 | for every w a run in which w waits leave MaxRetries + 1 - w sends, but one at least |
| Retries.CostDecreases | internal/master/dispatcher.go:87-148 | every step of the holder lowers the measure on retries left and stage, up to one round per wait |
| Retries.TaskTerminates | internal/master/dispatcher.go:87-148 | a task takes at most 50 steps plus 12 per wait for a node, and rests when it has taken them |
| Retries.HealthyTaskTerminates | internal/master/dispatcher.go:87-148 | with a healthy node at each pick it rests within 50 steps, given up only after MaxRetries + 1 sends |
| Progress.RunTerminates | internal/master/dispatcher.go:71-148 | all dispatch steps of a run together: at most 50 per task and 12 per wait |
| Retries.NeverStuck | internal/master/dispatcher.go:71-148 | if no dispatch step is possible, the queue is empty and every goroutine has returned |
| Progress.EveryRunCanFinish | internal/master/dispatcher.go:71-148 | from every reachable state some longer run brings queue, handlers and goroutines to rest |
| Results.StageStep | internal/master/dispatcher.go:117-141 | what job, task object and stage say about each other is kept by each step |
| Results.RecordedAlways | internal/master/store.go:54-77 | the store invariant in every reachable state, given fresh IDs |
| Results.AtMostOneResult | internal/master/dispatcher.go:138-140 | at most one result is saved per job in any run |
| Results.ResultIsFinal | internal/master/store.go:63-77 | a recorded result is never replaced or lost, in either index |
| Results.StoreAgrees | internal/master/store.go:54-77 | both indexes agree always; only pending, completed, failed and cancelled occur |
| Results.CompletedMeansSuccess | internal/master/store.go:69-76 | a stored status completed means a recorded success |
| Results.SchedulerAndStore | internal/master/dispatcher.go:138-141 | a task completed in the scheduler has a recorded result, and a result names the task's final worker |
| Results.JobsWithoutResult | internal/master/server.go:189-200 | rejected, exhausted and dropped tasks never have a result; a rejected job stays pending or cancelled, an exhausted one failed or cancelled |
| Results.ReusedIDHidesResult | internal/master/server.go:170-189 | a submission keeps the two indexes in agreement exactly when its ID has no result yet |
| Results.ResultWasReported | internal/master/dispatcher.go:173-200 | every recorded result is, in status, output, exit code, error, worker and time, the answer of a worker to the call for this very task |
| Results.ClientReadsTheAnswer | internal/master/server.go:216-236 | what GetStatus reports about a job with a result is that answer |
| Results.SuccessWasReported | internal/master/dispatcher.go:173-200 | a recorded success goes back to a worker's success reply for this task |
| Results.CreationTimeIsKept | internal/master/store.go:54-77 | no write to a job touches its creation time |
| Results.StatusMatchesUnlessLateCancel | internal/master/server.go:244-258 | after a result the status matches it, if and only if no cancel writes late |
| Results.AtomicCancelKeepsStatus | internal/master/server.go:249-252 | were Cancel one step, status and result would agree for ever |
| Scenarios.LateCancelReached | internal/master/server.go:244-253 | a run that ends with a recorded success and the status cancelled |
| Cancellation.StatusIsLastWritten | internal/master/store.go:39-77 | in every run the stored status is the one last written by a submission, a cancellation, a failure or a result |
| Cancellation.CancelledExactlyWhen | internal/master/server.go:244-258 | a job is cancelled exactly when a Cancel has written and neither failure nor result of its task has been stored since |
| Cancellation.SettledCancellationIsFinal | internal/master/dispatcher.go:125-140 | once the task rests a standing cancellation stands in every longer run |
| Cancellation.ServedAfterCancel | internal/master/store.go:63-77 | a served task is completed in the scheduler and has its result's status in the store, cancelled before or not, unless a Cancel wrote late; when the two agree |
| Scenarios.FailedResultCompletesTask | internal/master/dispatcher.go:138-140 | a run that ends with the task completed in the scheduler and its job failed in the store |
| Scenarios.CancelledThenCompleted | internal/master/dispatcher.go:138-140 | a run in which a cancelled job ends up completed |
| Outcomes.DecidedExactlyWhen | internal/master/store.go:54-77 | at every moment a job shows completed or failed exactly when a result or a failure has been stored and no cancellation written since |
| Outcomes.DecidedAtRestExactlyWhen | internal/master/dispatcher.go:125-140 | once the task rests only a cancellation can still change that |
| Outcomes.OutcomeAtRestExactlyWhen | internal/master/dispatcher.go:87-148 | a task at rest has a stored outcome exactly when it was ever sent to a worker |
| Finality.FailedIsFinalExactlyWhen | internal/master/dispatcher.go:125-135 | a failed status stays in every longer run exactly when the dispatch is over or can only end in failure and no Cancel is pending |
| Finality.CompletedIsFinalExactlyWhen | internal/master/server.go:244-253 | a completed status stays in every longer run exactly when no Cancel is pending |
| Finality.NeverDecidedExactlyWhen | internal/master/dispatcher.go:87-148 | no longer run shows the job completed or failed exactly when its dispatch is over or will never begin and it has no outcome or stands cancelled |
| Finality.CanStillSucceed | internal/master/dispatcher.go:87-148 | from every state in which a dispatch has not concluded some longer run brings the task to success |
| Finality.FailedThenCompleted | internal/master/dispatcher.go:126-140 | a run in which a job shows failed and later completed |
| Finality.LostTaskIsNeverDecided | internal/master/dispatcher.go:97-105 | the lost task of an accepted submission, never cancelled, is never decided |
| Load.IncrementsAreMatched | internal/master/dispatcher.go:141-175 | increments equal decrements plus dispatches in flight, for every node and run |
| Load.CounterStep | internal/master/registry.go:81-191 | what each action does to a node's load counter |
| Load.CounterWithinInFlight | internal/master/registry.go:174-191 | without heartbeats the counter lies between 0 and the dispatches in flight, through registrations and evictions |
| Load.ZeroAtQuiescence | internal/master/registry.go:184-191 | ... and is 0 when nothing is in flight |
| Load.CounterWithinEpoch | internal/master/registry.go:101-116 | since a report of h the counter lies between h + increments - decrements and h + increments, and at or above 0 for h at or above 0 |
| Dispatcher.Dispatcher.PickNode | internal/master/dispatcher.go:96-115 | no node exactly when none is healthy, otherwise a healthy one; the balancer-error branch is dead |
| Dispatcher.Dispatcher.SendToWorker | internal/master/dispatcher.go:150-203 | result exactly on connection and reply; a failed call leaves the load as if never counted |
| Dispatcher.Dispatcher.DispatchTask | internal/master/dispatcher.go:87-148 | one undisturbed dispatch: every outcome with its condition, the store's, task's, queue's and registry's new state |
| Balancer.RoundRobinBalancer.Select | internal/master/balancer.go:33-40 | error exactly on an empty list, otherwise the node at the ticked counter modulo the length |
| Balancer.SelectLeastConnections | internal/master/balancer.go:53-69 | the first node of least load; the zero node exactly when every load is the largest int |
| Balancer.WeightedRoundRobinBalancer.Select | internal/master/balancer.go:87-115 | the exact choice for every list, with the arithmetic of uint64 and int64; always a member |
| Balancer.FallbackUnreachable | internal/master/balancer.go:104-114 | for a positive total the first node at which the running total passes counter modulo total, never the fallback |
| Balancer.FallbackReachedExactlyWhen | internal/master/balancer.go:104-114 | for a negative total the first node whose running total exceeds the counter; the fallback exactly when none does |
| Balancer.OverloadedNodeGetsAll | internal/master/balancer.go:104-114 | an overloaded first node is chosen at every counter value when its overload is greater than the other node's room |
| Balancer.PassesIsRange | internal/master/balancer.go:105-111 | a node is chosen for the targets between the peaks of the running total before and after it |
| Fairness.RoundRobinIsFair | internal/master/balancer.go:33-40 | over k calls every position is chosen floor(k/n) or ceil(k/n) times |
| Fairness.RoundRobinAcrossWrap | internal/master/balancer.go:38 | across one wrap of the counter two positions differ by at most two |
| Balancer.ChoiceHasRoomExactlyWhen | internal/master/balancer.go:92-114 | the chosen node has room exactly when: total positive, or zero and round robin meets one with room, or negative and some running total exceeds the counter or the first node has room |
| Balancer.PassedHasRoom | internal/master/balancer.go:105-111 | a node that is passed has room even when other nodes are over their limit |
| Balancer.OverloadedNodeGetsTurns | internal/master/balancer.go:97-101 | with a zero total an overloaded node gets every other task although another has room |
| Fairness.WeightedShareIsExact | internal/master/balancer.go:87-111 | for any loads with total W > 0: W calls choose a node exactly its share of times, qW + r calls between q and q + 1 times that |
| Fairness.ShareIsCapacity | internal/master/registry.go:45-47 | while no node is over its limit, its share is its free capacity |
| Fairness.ShareWithinCapacity | internal/master/balancer.go:105-111 | a share never exceeds the free capacity; a node at or over its limit has none |
| Fairness.SharesAddUp | internal/master/balancer.go:87-111 | the shares make up the cycle of W calls |
| Fairness.CountRoundRobin | internal/master/balancer.go:33-40 | k calls of the balancer choose a node as often as `Turns` says |
| Fairness.CountWeighted | internal/master/balancer.go:87-115 | k calls of the balancer choose a node as often as `TimesChosen` says |
| Counting.HitsInWindow | internal/master/balancer.go:104-111 | how often consecutive counters, modulo n, fall into a range |
| Health.RegisteredExactlyWhen | internal/master/registry.go:208-231 | a node is in the table exactly when it registered, did not leave, and every later check found a contact in time |
| Health.HealthyExactlyWhen | internal/master/registry.go:101-116 | it is healthy exactly when no check since its last contact found that contact late |
| Health.PunctualNodeStaysHealthy | internal/master/registry.go:215-223 | a registered node whose contacts are never further apart than either timeout is in the table and healthy, whenever checks run |
| Health.BoundedStaleness | internal/master/registry.go:194-231 | with checks at most P apart, registered nodes were seen within the unhealthy timeout + P, healthy ones within the heartbeat timeout + P |
| Rosters.RosterIsItsRun | internal/master/registry.go:81-231 | the registry inside every run of the protocol is what its timed events make of it, so the health theorems hold there |
| Rosters.ChosenNodeIsFresh | internal/master/dispatcher.go:96-108 | a dispatch goes to a node in contact within the heartbeat timeout and the time since the last check |
| Scaler.AutoScaler.EnsureCapacity | internal/master/scaler.go:88-135 | cooldown, both cases and failures; an error changes nothing |
| Scaler.AutoScaler.ScaleUp | internal/master/scaler.go:138-179 | mock mode; otherwise the count grows by the request up to the maximum, in int32 arithmetic, an unset count read as 0; no change on an error |
| Scaler.AutoScaler.ScaleDown | internal/master/scaler.go:182-256 | fires exactly when over the minimum and mostly idle; sets healthy nodes less one |
| Scaler.WantedExactly | internal/master/scaler.go:103-132 | when and how much is asked for, in both cases |
| Scaler.WantedBounds | internal/master/scaler.go:110-132 | the request never passes the maximum; uncapped it is the least number that holds more than the pending tasks |
| Scaler.ScalesUpExactlyWhen | internal/master/scaler.go:88-135 | a call scales up exactly when enabled, a full cooldown has passed, something is asked for and the cluster accepts |
| Scaler.ScaleUpAdds | internal/master/scaler.go:154-173 | a successful scale-up adds the request up to the maximum; a deployment below it grows |
| Scaler.ReplicasAddUp | internal/master/scaler.go:154-173 | over any run without scale-downs the count is the start plus all requests, up to the maximum |
| Scaler.TotalIsTheBalancers | internal/master/scaler.go:103-107 | the capacity the scaler sums up is the one the balancer weighs |
| Scaler.ScaleDownLeavesRangeExactlyWhen | internal/master/scaler.go:206-223 | scaling down leaves the range exactly when it fires with more than Max + 1 healthy nodes |
| Scaler.ScaleDownCanLeaveRange | internal/master/scaler.go:206-223 | for every configuration, Max + 2 idle healthy nodes lift the deployment to Max + 1 |
| Scaler.EnabledExactlyWhen | internal/master/scaler.go:282-286 | after any calls the scaler is on exactly when last switched on with a cluster, or never switched and on from the start |
| Scaler.NeverOnWithoutCluster | internal/master/scaler.go:282-286 | without a cluster a scaler that is off stays off and changes nothing, whatever is called |
| Scaler.ReplicasStayInRange | internal/master/scaler.go:154-227 | every sequence of calls keeps the replicas within the bounds, given at most Max + 1 healthy nodes |
| Scaler.ScaleUpsAreSpaced | internal/master/scaler.go:96-99 | any k successive scale-ups of a run span at least k - 1 cooldown periods |
| Pool.ConnectionPool.Connect | internal/master/dispatcher.go:214-232 | a known node gets its connection and none is made, an unknown one a new connection exactly when the dial succeeds, a failed dial changes nothing |
| Pool.ConnectionPool.RemoveClient | internal/master/dispatcher.go:247-256 | closes and forgets a known connection, once |
| Pool.ConnectionPool.CloseConnections | internal/master/dispatcher.go:235-244 | closes every connection once and empties both maps |
| Pool.PoolIsSound | internal/master/dispatcher.go:205-256 | under any interleaving: same keys, one open connection per node, each connection in the pool or closed once |
| Pool.InPoolExactlyWhen | internal/master/dispatcher.go:205-256 | a node is in the pool exactly when a dial to it has succeeded and nothing has closed it since |
| Server.Server.Submit | internal/master/server.go:160-208 | accepted exactly with room and a free ID; the job is stored even when the task is refused |
| Server.Server.GetStatus | internal/master/server.go:211-236 | invalid, unknown, or the job with its result's own output, error, exit code, worker and time |
| Server.Server.Cancel | internal/master/server.go:239-260 | run alone: cancels exactly a pending or running job |
| Server.Server.ListJobs | internal/master/server.go:263-294 | the page for the clamped limit and offset, never more than 100 jobs |
| Runner.CountersAreExact | internal/worker/runner.go:52-62 | activeTasks and the wait group count exactly the calls between their two updates |
| Runner.CapacityUnderRaces | internal/worker/runner.go:40-52 | with at most P calls between check and increment, active + in between is at most maxTasks - 1 + P |
| Runner.CapacityWithoutRaces | internal/worker/runner.go:41-43 | without overlap the limit holds |
| Runner.CapacityBoundIsTight | internal/worker/runner.go:40-52 | for every limit and overlap a run reaches the bound |
| Runner.KeysAreInFlight | internal/worker/runner.go:48-58 | every key belongs to a call in flight with that ID |
| Runner.CallsHaveTheirKeys | internal/worker/runner.go:92-101 | with distinct IDs in flight every call past its insert is found under its ID |
| Runner.FoundExactlyWhen | internal/worker/runner.go:48-58 | a call past its insert is found under its ID, and reached by CancelTask, exactly when no other call with that ID has inserted or deleted since |
| Runner.CancelReaches | internal/worker/runner.go:92-101 | CancelTask cancels the call found under the ID, no other, and changes nothing else |
| Runner.CancelledExactlyWhen | internal/worker/runner.go:92-127 | in every run a call is cancelled exactly when a CancelTask with its own ID, or the deadline, met it in the map and undisturbed |
| Runner.SharedIDLosesKey | internal/worker/runner.go:55-58 | a run with two calls under one ID in which the first to end takes the other's key, and CancelTask misses it |
| Runner.DrainedLeavesExactly | internal/worker/runner.go:114-134 | with the wait group at zero exactly the admitted calls before their join are left, and activeTasks counts those about to join |
| Runner.DrainMissesCall | internal/worker/runner.go:50-53 | a run with the wait group at zero and one task counted and about to execute |
| Runner.CancelRunning | internal/worker/runner.go:123-128 | for every map order the loop cancels exactly the calls in the map |
| Runner.DeadlineCancelsExactly | internal/worker/runner.go:121-130 | the deadline cancels exactly the calls between insert and delete that no other call with their ID has interfered with |
| Operator.StartJobs | internal/operator/controller.go:203-233 | the job's tasks are the IDs of all accepted submissions in their order, as many as there are; none accepted, and only that, means failed |
| Operator.CheckJobStatus | internal/operator/controller.go:235-277 | succeeded exactly when all polled completed, failed exactly when all are decided and one failed; counts never exceed the tasks |
| Operator.Resource.Reconcile | internal/operator/controller.go:136-180 | the whole new status, for any copy of the resource, fresh or old, and for lost writes |
| Operator.PhasesMoveForward | internal/operator/controller.go:136-180 | with an up-to-date copy verdicts are final and started jobs keep their tasks |
| Operator.VerdictOverturnedExactlyWhen | internal/operator/controller.go:139-179 | exactly which old copies and answers take a verdict back |
| Operator.VerdictTakenBack | internal/operator/controller.go:235-277 | a run in which a job succeeds and is running again after a reconciliation of an old copy |
| Operator.SubmitsAgainExactlyWhen | internal/operator/controller.go:168-171 | in every run, a submitting turn is not the first exactly when its copy is older than a written start or an earlier submission's write failed |
| Operator.StartedExactlyWhen | internal/operator/controller.go:168-177 | a job counts as started exactly when some start has been written |
| Operator.StartsOnce | internal/operator/controller.go:168-171 | with up-to-date copies a job keeps, for ever, all tasks accepted at its one written start |
| Operator.StartedTwice | internal/operator/controller.go:168-171 | an old copy or a lost write starts a job twice and forgets the first tasks |
| Operator.TasksComeFromStart | internal/operator/controller.go:203-233 | in every run a running or successful job has tasks, those accepted at one of its starts |
| Operator.StartTimeExactlyWhen | internal/operator/controller.go:287-311 | over any sequence of reports: a start time exactly after an odd number of progress reports in a row (even if they began on one), holding the last report's time; none after a verdict |
| Operator.StartTimeInRuns | internal/operator/controller.go:287-311 | the same for every run of the controller: no finished job has a start time |
| Operator.SucceededMeansRecorded | internal/operator/controller.go:245-277 | whenever a run of the controller has reached success, every task of the job has a recorded, worker-reported success |
| Operator.EveryAcceptedTaskSucceeded | internal/operator/controller.go:203-277 | with up-to-date copies that is every task whose submission was accepted when the job was started |
| Operator.VerdictExactlyWhen | internal/operator/controller.go:235-277 | a reconciliation whose polls all come through gives a verdict exactly when each task had a stored outcome not overwritten by a cancellation |
| Operator.VerdictAtRestExactlyWhen | internal/operator/controller.go:235-277 | with all tasks at rest: exactly when each was ever sent to a worker and none stands cancelled |
| Operator.UndecidedTaskBlocksVerdict | internal/operator/controller.go:254-277 | a task that is never decided keeps the job from a verdict in every reconciliation that polls it |
| Operator.FailedVerdictPremature | internal/operator/controller.go:264-268 | a failed verdict on a task that later has a recorded success |

## Left out

- Balancer.FallbackReachedExactlyWhen: for the first 2^62 calls and partial sums within 62 bits; beyond that the choice is stated in wrapped arithmetic only (`Balancer.Selects`).
- Operator.CheckJobStatus: its counters are unbounded, because the task list comes from a loop that runs at most an int32 number of times.
- Dispatcher.Dispatcher.DispatchTask: run without interference and with the connection's outcome as an input; interleavings are the protocol's subject and the pool has its own module.
- Jobs are values under their ID: with a reused ID a Cancel could read a replaced job record. Theorems on results ask for fresh IDs.
- `RandomBalancer.Select` has the same body as round robin, so the round-robin results hold for it unchanged.
- `EnsureCapacity` inside a dispatch touches only the scaler and the deployment, so the protocol leaves it to `Scaler.dfy`.
- The node total in `EnsureCapacity` is summed without overflow, and other writers of the deployment's replica count are not modelled.
- Job payloads, types, priorities, timeouts and metadata are carried along unread and are not in the records.
- The operator's `SetNestedField` is taken to accept the status that `updateStatus` builds; client-go is not part of this model.
- gRPC, protobuf, health service, Kubernetes client and informers: replies, write failures and the age of the informer's copies are parameters.
- Process execution, executor registry, allow and block lists, command-line client, configuration and logging.
- Getters, `CountByStatus`, `GetCurrentScale`, enum conversions and `String` methods: one-line reads and finite tables.
- Worker registration and heartbeat loops appear as registry calls in any order and at any time.
- Sleeps and contexts: a wait for a node, a timeout or a shutdown is a choice of the next action or reply.
