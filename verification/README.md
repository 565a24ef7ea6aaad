# HKube scheduling model

A Dafny model of the scheduling core of HKube, with proofs about it. Values of the system are datatypes,
objects that are updated in place are classes, and every method is proved against a function of its inputs
or of the old state; the main results are lemmas about those functions. `dafny verify dfyconfig.toml`
checks the whole project.

| files | what they model |
|---|---|
| `Demand`, `Matching`, `HotWorkers`, `Resources`, `Stopping`, `Reconciler`, `Executor`, `Accounting` | the task executor: demand, matching against supply, placement on shared node records, the search for workers to stop, whole ticks and runs of ticks |
| `DrainSearch`, `TickExactly` | that search and a whole tick in terms of the fields of workers, jobs, requests, templates and nodes |
| `DriverQueue`, `Sorting` | the queue of pipelines that wait for a driver, with its scores and a bound on waiting |
| `AlgorithmQueue`, `BatchPlace` | the double-buffered queue of algorithm tasks as steps split at the awaits, and the enrichment by batch place |
| `RatioAllocator`, `RatioExactly`, `RatioRefills` | the random generator that hands out allocations by ratio |
| `Graphs`, `Pipelines`, `Validation`, `Caching`, `CachedRun` | validation of pipelines, sub-pipelines of cached executions and the outputs their nodes get |
| `Collections` | operations of JavaScript and lodash on sequences |

Things the proofs brought to light:

- `_findWorkersToStop` (`core/task-executor/lib/reconcile/resources.js:101`) empties the list of workers on every
  turn of its inner loop. The node list it returns accounts for every popped worker, the list of workers
  names the last one only. `Stopping.ReturnedWorkerAccounts` says exactly when the two agree.
- `MAX_JOBS_PER_TICK` counts skipped jobs as well as created ones, so a tick can create fewer jobs than the
  cap although later ones would fit (`Resources.SkippedUseTheCap`). That no such job is ever left out is certain exactly when
  there are no more jobs than the cap (`Resources.NoWasteExactly`).
- `normalizeHotWorkers` warms up as many cold workers as `minHotWorkers` says, not as many as are missing; the
  next tick cools down the surplus (`HotWorkers.OneTick`, `HotWorkers.TwoTicksConverge`).
- `r.allocations || allocations` (`core/resource-manager/lib/allocators/ratios-allocator.js:30`) fills up again
  every other algorithm that stands at 0 when one is removed. More than the allocations can be handed out exactly
  when there are three algorithms or more (`RatioRefills.ExactForAllDraws`). With a single algorithm, or when every
  value is 0, the ratios are 0 / 0 and the first draw throws (`RatioAllocator.DefinedExactly`,
  `RatioAllocator.AlgorithmRatios.Next`).
- `tryPop` and `_removeDuplicates` are not buffered, so a pop or a re-add inside the await of `updateScore` is
  overwritten (`core/algorithm-queue/lib/queue.js:122-123`). `AlgorithmQueue.TasksConserved` says that this is
  the only way the books fail to add up, and `AlgorithmQueue.PoppedComesBack` shows it happen.
- The caching service gives a node stored outputs for top-level string references to the start and the nodes above
  it only, and the driver then takes them in place of the outputs of the run. So a
  reference inside an object to a node above the start gets nothing, nor does one to a node beside the start, nor
  one to a node run again when the same node also reads a stored output. `CachedRun.ServedExactly` is the exact
  condition; `CachedRun.NestedInputNotServed`, `CachedRun.SiblingNotServed` and `CachedRun.OverriddenNotServed` are
  families that fail it.

## Model

| member | source | states |
|---|---|---|
| `Resources.CanHostExactly` | core/task-executor/lib/reconcile/resources.js:7-27 | a node can host a job exactly when every label of the selector is on it with the same value and, with the job on it, more than 10% cpu and 20% memory stay free and no gpu is overdrawn |
| `Resources.DecidedExactly` | core/task-executor/lib/reconcile/resources.js:29-48 | each job goes to the first node, in list order, that suits it in these terms with what earlier jobs left, and to none when none suits or the cap is reached |
| `Resources.BooksByQuantity` | core/task-executor/lib/reconcile/resources.js:43-46 | of cpu, gpu and memory alike, a node has left what it had less the sum over the jobs placed on it; nothing else of it changes |
| `Resources.EarlierFirst` | core/task-executor/lib/reconcile/resources.js:177-195 | within a round the kinds of jobs go in list order: an earlier kind with jobs left is never behind a later one |
| `Resources.AsksExact` | core/task-executor/lib/reconcile/resources.js:177-195 | the do-while loop looks at every kind of job exactly as often as it asked for jobs |
| `Resources.RoundRobinFair` | core/task-executor/lib/reconcile/resources.js:177-195 | at every moment of the loop no kind of job is more than one job ahead of another kind that has jobs left |
| `Resources.CapacitySafe` | core/task-executor/lib/reconcile/resources.js:29-48 | after any call every created job sits on a node its selector matches, every used node keeps more than 10% cpu and 20% memory free and no negative gpu, each node lost exactly what was placed on it, and total free dropped by the sum of the created requests |
| `Resources.AccountedCompose` | core/task-executor/lib/executor.js:75-78 | two runs on the same node records, one after the other, keep the same books as one run |
| `Resources.PassesCapacitySafe` | core/task-executor/lib/executor.js:75-78 | capacity safety of any sequence of calls that share the node records |
| `Resources.NoWaste` | core/task-executor/lib/reconcile/resources.js:170-198 | with non-negative requests every skipped job was refused by the cap or fits no node even in the final state |
| `Resources.PastTheCap` | core/task-executor/lib/reconcile/resources.js:30-32 | past the cap every job is skipped and no node changes |
| `Resources.NoWasteExactly` | core/task-executor/lib/reconcile/resources.js:170-198 | with non-negative requests no skipped job fits a node in the end, whatever the nodes, if and only if there are no more jobs than the cap |
| `Resources.SkippedUseTheCap` | core/task-executor/lib/reconcile/resources.js:182-188 | the failing family, for every cap: jobs that fit nowhere use up the cap, nothing is created, and the next job is refused although it fits |
| `Resources.CreatedPrefix` | core/task-executor/lib/reconcile/resources.js:177-195 | once one job of a kind is skipped, every later job of that kind is skipped |
| `Resources.CreatedPlusSkipped` | core/task-executor/lib/reconcile/resources.js:179-185 | created and skipped jobs together are the jobs looked at, as multisets |
| `Resources.CapHolds` | core/task-executor/lib/reconcile/resources.js:30-32 | a call creates at most MAX_JOBS_PER_TICK jobs; the cap counts skipped jobs too |
| `Resources.NodeRecord.constructor` | core/task-executor/lib/reconcile/normalize.js:209-224 | a record holds the name, labels, total, free and requested amounts it is given |
| `Resources.ShouldAddJob` | core/task-executor/lib/reconcile/resources.js:29-48 | the call succeeds exactly when the cap is not reached and some node can host the job; it then takes the request from the first such record and changes nothing else |
| `Resources.AddOrSkip` | core/task-executor/lib/reconcile/resources.js:177-191 | one turn of the callback keeps records, created and skipped jobs equal to the run over the jobs looked at |
| `Resources.Sweep` | core/task-executor/lib/reconcile/resources.js:192-195 | one pass over the kinds of jobs does the same for one job of every unfinished kind |
| `Resources.MatchJobsToResources` | core/task-executor/lib/reconcile/resources.js:170-198 | the do-while loop ends, with records, created (stamped) and skipped jobs those of the run over all jobs asked for |
| `Stopping.MatchWorkersToNodes` | core/task-executor/lib/reconcile/resources.js:129-134 | each node carries exactly the candidates that run on it |
| `DrainSearch.FreedExactly` | core/task-executor/lib/reconcile/resources.js:65-92 | giving back the requests of any workers moves, at the first node of that name, their sums of cpu, gpu and memory from requests to free, and changes nothing else |
| `DrainSearch.DrainExactly` | core/task-executor/lib/reconcile/resources.js:94-127 | the search succeeds if and only if some listed node has workers of other algorithms and, with the requests of all of those added to its free amounts, some listed node has room for the request |
| `DrainSearch.DrainedExactly` | core/task-executor/lib/reconcile/resources.js:94-127 | what a success returns: only the drained node changed, by the sums of the popped workers, which run on it and belong to other algorithms, and some node has room |
| `DrainSearch.SearchExactly` | core/task-executor/lib/reconcile/resources.js:144-153 | a skipped request is served if and only if two nodes, or one, carry its labels such that stopping the workers of other algorithms on the one makes room on the other |
| `DrainSearch.StopsExactly` | core/task-executor/lib/reconcile/resources.js:136-168 | some worker is stopped if and only if some skipped request is served so on the nodes as they are |
| `DrainSearch.ServedExactly` | core/task-executor/lib/reconcile/resources.js:144-165 | a served request: a node with its labels has room for it, one node changed, by the sums of the popped workers, the last of which is stopped and leaves the candidates |
| `Stopping.FirstPrefix` | core/task-executor/lib/reconcile/resources.js:100-112 | the inner loop stops at the least number of popped workers that makes a listed node fit |
| `Stopping.DrainExact` | core/task-executor/lib/reconcile/resources.js:94-127 | the search succeeds if and only if some listed node has a candidate of another algorithm and freeing all of its candidates makes a listed node fit |
| `Stopping.DrainNodeSound` | core/task-executor/lib/reconcile/resources.js:97-121 | a success returns a list in which the request fits, drained at one node by a non-empty prefix of its candidates, and not fitting one candidate earlier |
| `Stopping.DrainFirst` | core/task-executor/lib/reconcile/resources.js:97-117 | the drained node is the first that can be drained; failed nodes leave no trace in the list |
| `Stopping.DrainKeepsSum` | core/task-executor/lib/reconcile/resources.js:71-91 | free plus requests of every node survives the search, and nothing but those two changes |
| `Stopping.ReturnedWorkerAccounts` | core/task-executor/lib/reconcile/resources.js:100-107 | because the list of workers is emptied on every turn, the returned worker accounts for the returned node list exactly when the first candidate of the drained node is enough by itself |
| `Stopping.ReturnedWorkerMayNotSuffice` | core/task-executor/lib/reconcile/resources.js:100-107 | an input on which stopping the returned worker leaves no room although the returned node list says there is |
| `Stopping.FindWorkersToStop` | core/task-executor/lib/reconcile/resources.js:94-127 | both loops compute the first drained node, its node list and only the last popped worker, or leave the node list alone |
| `Stopping.PopWorkers` | core/task-executor/lib/reconcile/resources.js:100-115 | the inner loop pops the least sufficient prefix, or all candidates in vain |
| `Stopping.RankedNodes` | core/task-executor/lib/reconcile/resources.js:149-149 | the nodes tried are exactly those that match the selector, in descending order of free cpu |
| `Stopping.RankedExactly` | core/task-executor/lib/reconcile/resources.js:149-149 | each is tried as often as it is listed, and nodes with the same free cpu keep their order |
| `Stopping.PauseAccordingToResources` | core/task-executor/lib/reconcile/resources.js:136-168 | the workers to stop are those of serving the skipped requests in turn on copies of the nodes |
| `Stopping.ServeOne` | core/task-executor/lib/reconcile/resources.js:144-165 | one skipped request moves the nodes, the candidates and the stopped workers as one step of that process |
| `Stopping.PauseIsSafe` | core/task-executor/lib/reconcile/resources.js:136-168 | a stopped worker is a candidate, is stopped once, never for a request of its own algorithm, leaves the candidates, and there are no more of them than skipped requests |
| `Stopping.WriteBackExact` | core/task-executor/lib/reconcile/resources.js:154-161 | each matching record takes over exactly the values of its drained copy |
| `Stopping.WriteBackOthers` | core/task-executor/lib/reconcile/resources.js:154-161 | every other record keeps its values |
| `Stopping.ServeMakesRoom` | core/task-executor/lib/reconcile/resources.js:149-163 | after a served request a matching node has room for it, and only the drained node changed, by the sum of the popped requests; a request for which the search fails changes nothing |
| `Demand.TotalRequestsExact` | core/task-executor/lib/reconcile/normalize.js:56-83 | the demand for every algorithm is max(requests, minHotWorkers) |
| `Demand.NormalizeHotRequests` | core/task-executor/lib/reconcile/normalize.js:56-83 | the loop over the store yields, in order, the topped-up requests whose counts are stated above |
| `Matching.ExactDemand` | core/task-executor/lib/reconcile/reconciler.js:87-149 | d requests take from idle, paused, pending and recent in that order: max(0, d - all supply) jobs are asked for, clamp(d - idle, 0, paused) workers are woken, every list loses exactly what was matched |
| `Matching.AskedFromTemplates` | core/task-executor/lib/reconcile/reconciler.js:115-138 | every job asked for is one job with the resources, defaults included, and the selector of its template |
| `Matching.ThrowsExactly` | core/task-executor/lib/reconcile/reconciler.js:115-121 | the loop throws if and only if an algorithm without a template is requested more often than the lists can serve |
| `Matching.SupplyConserved` | core/task-executor/lib/reconcile/reconciler.js:89-114 | every worker is in its list still or was used exactly once; jobs are never invented |
| `Matching.Pools.constructor` | core/task-executor/lib/reconcile/reconciler.js:333-337 | the four lists start as given |
| `Matching.Pools.ProcessRequest` | core/task-executor/lib/reconcile/reconciler.js:88-148 | one turn of the loop splices, wakes or asks exactly as one step of the matching, and the counters stay true |
| `Matching.Pools.ProcessAllRequests` | core/task-executor/lib/reconcile/reconciler.js:83-150 | the loop ends in the state of the matching, a throw included, and required counts the jobs asked for per algorithm |
| `HotWorkers.NormalizeHotWorkers` | core/task-executor/lib/reconcile/normalize.js:89-107 | the warm-up list of all algorithms |
| `HotWorkers.NormalizeColdWorkers` | core/task-executor/lib/reconcile/normalize.js:113-132 | the cool-down list of all algorithms |
| `HotWorkers.OneTick` | core/task-executor/lib/reconcile/normalize.js:101-129 | one tick turns h hot workers of n, with m wanted, into min(h + m, n) when h < m and into m otherwise |
| `HotWorkers.TwoTicksConverge` | core/task-executor/lib/reconcile/normalize.js:89-132 | after two ticks on one population exactly min(minHotWorkers, workers) are hot, for every algorithm |
| `HotWorkers.NeverBoth` | core/task-executor/lib/reconcile/normalize.js:89-132 | no tick both warms and cools workers of one algorithm |
| `HotWorkers.FixpointExactly` | core/task-executor/lib/reconcile/normalize.js:89-132 | the commands change nothing if and only if every algorithm has min(minHotWorkers, workers) hot workers |
| `Reconciler.Merged` | core/task-executor/lib/reconcile/normalize.js:347-355 | every worker is joined with the first job whose name starts its pod name |
| `TickExactly.JoinedAllExactly` | core/task-executor/lib/reconcile/normalize.js:347-355 | each worker, in its position, is joined with the first job whose name is a prefix of its pod name, with none when there is none or no pod name, and is otherwise unchanged |
| `TickExactly.TakenExactly` | core/task-executor/lib/reconcile/normalize.js:357-359 | a job counts as found exactly when its name is not empty and some worker is joined with a job of that name |
| `Reconciler.ExtraJobs` | core/task-executor/lib/reconcile/normalize.js:357-359 | the pending jobs are exactly those no worker was found for |
| `TickExactly.DemandExactly` | core/task-executor/lib/reconcile/reconciler.js:322-388 | a tick that does not throw asks, for every algorithm, for max(requests, hot workers) less its ready, paused and unpaused, workers, its jobs without a worker and its created jobs that have not expired; it wakes the paused workers that the demand reaches; created + skipped is what was asked for |
| `TickExactly.ThrownExactly` | core/task-executor/lib/reconcile/reconciler.js:115-121 | a tick throws if and only if an algorithm without a template is requested more often than these can serve |
| `TickExactly.SupplyExactly` | core/task-executor/lib/reconcile/reconciler.js:32-55 | the idle and paused supply of an algorithm are its workers with status ready that are not paused, or are; the pending supply are its jobs that no worker was found for; the recent supply its created jobs younger than the time to live |
| `TickExactly.FirstComeFirstServed` | core/task-executor/lib/reconcile/reconciler.js:88-114 | within an algorithm the first ready workers of the snapshot serve its requests, the first paused ones are woken, and the ready workers after those are left idle in their order |
| `TickExactly.AskedExactly` | core/task-executor/lib/reconcile/reconciler.js:115-138 | the k-th job asked for an algorithm is one job with cpu, gpu, memory and selector of its template, defaults included, and is hot exactly as the (supply + k)-th topped-up request of that algorithm is |
| `TickExactly.ToppedUp` | core/task-executor/lib/reconcile/normalize.js:56-83 | the topped-up requests of an algorithm are its hot workers followed by its first requests |
| `TickExactly.HotAlgorithmsFirst` | core/task-executor/lib/reconcile/normalize.js:65-82 | those of algorithms that want hot workers come first; all other requests follow unchanged in their order |
| `TickExactly.CandidatesExactly` | core/task-executor/lib/reconcile/reconciler.js:152-225 | when a job was skipped, a candidate is the record (id, algorithm, pod, node of its job, amounts of its template) of a worker left idle, or of one neither ready nor paused of an algorithm without skipped jobs, not under debug, and every such worker is one; otherwise there are none |
| `TickExactly.CandidatesOnce` | core/task-executor/lib/reconcile/reconciler.js:152-225 | in a tick each such worker is a candidate once, those left idle before the others |
| `TickExactly.TickStopsExactly` | core/task-executor/lib/reconcile/reconciler.js:347-372 | a tick stops some worker if and only if a skipped job would fit a node with its labels once the candidates of other algorithms on one such node were stopped |
| `TickExactly.StoppedExactly` | core/task-executor/lib/reconcile/reconciler.js:333-372 | every worker a tick stops is not paused, not under debug, of an algorithm without skipped jobs, and neither served nor was woken; none is stopped twice |
| `TickExactly.TemplateExactly` | core/task-executor/lib/reconcile/createOptions.js:20-32 | what a container asks for, debug and the number of hot workers are those of the template of that name, with 0.1 cpu and 4 Mi in place of 0 or none |
| `TickExactly.CommandsExactly` | core/task-executor/lib/reconcile/normalize.js:89-132 | while fewer workers of an algorithm than wanted are hot its first cold ones are warmed up, as many as are wanted in all; otherwise its first hot ones beyond that number are cooled down |
| `Reconciler.RequiredIsCreatedPlusSkipped` | core/task-executor/lib/reconcile/reconciler.js:347-388 | for every algorithm required = created + skipped |
| `Reconciler.IdleLeftNotSkipped` | core/task-executor/lib/reconcile/reconciler.js:159-178 | an idle worker that is left belongs to an algorithm of which no job was skipped |
| `Reconciler.CandidateJustified` | core/task-executor/lib/reconcile/reconciler.js:152-225 | a stop candidate is idle or active, not under debug, of an algorithm without skipped jobs, and neither served a request nor was woken |
| `Reconciler.StopSafety` | core/task-executor/lib/reconcile/reconciler.js:333-372 | a whole tick stops only such workers, none twice, and none at all unless jobs were skipped |
| `Reconciler.TickFillsDeficit` | core/task-executor/lib/reconcile/reconciler.js:347-350 | created + skipped is what the algorithm lacked; the list grows by the created jobs; what is lacking afterwards is what was skipped |
| `Reconciler.NoOverCreation` | core/task-executor/lib/reconcile/reconciler.js:314-350 | over any number of ticks on one snapshot before expiry, jobs created plus what is still lacking equal what was lacking at first |
| `Reconciler.SatisfiedStays` | core/task-executor/lib/reconcile/reconciler.js:314-350 | once a tick skips no job of an algorithm, later ticks before expiry create none for it |
| `Reconciler.BuildReport` | core/task-executor/lib/reconcile/reconciler.js:384-388 | created, skipped and paused of the report are the counts of the tick for each algorithm |
| `Reconciler.CollectStopDetails` | core/task-executor/lib/reconcile/reconciler.js:152-225 | the loops push idle candidates first, then active ones, and nothing when nothing was skipped |
| `Reconciler.CollectActive` | core/task-executor/lib/reconcile/reconciler.js:180-225 | grouping, filtering and pushing the active workers yields those of algorithms with no skipped job and no debug flag |
| `Reconciler.Reconciler.constructor` | core/task-executor/lib/reconcile/reconciler.js:23-23 | the created-jobs list starts empty |
| `Reconciler.Reconciler.ClearCreatedJobsList` | core/task-executor/lib/reconcile/reconciler.js:74-81 | exactly the jobs younger than the time to live stay |
| `Reconciler.Reconciler.MatchRequests` | core/task-executor/lib/reconcile/reconciler.js:333-346 | the matching runs on clones: the created-jobs list keeps its value and the outcome is that of the matching on the snapshot |
| `Reconciler.Reconciler.PlaceAndStop` | core/task-executor/lib/reconcile/reconciler.js:347-388 | placement, candidates, workers to stop and the counts of the report follow from the jobs asked for and the idle workers left |
| `Reconciler.Reconciler.Reconcile` | core/task-executor/lib/reconcile/reconciler.js:314-400 | one tick leaves the list, the shared records, the commands and a report that adds up as the tick function, about which the results above are stated, says |
| `Executor.TurnsExact` | core/task-executor/lib/reconcile/resources.js:177-195 | a fractional number of missing drivers asks for its ceiling |
| `Executor.Surplus` | core/task-executor/lib/reconcile/drivers-reconciler.js:35-45 | the drivers to stop are the first idle ones, and min(idle, minAmount) idle drivers stay |
| `Executor.SurplusExactly` | core/task-executor/lib/reconcile/drivers-reconciler.js:35-45 | they are the first drivers with status ready that are not paused, as many as there are beyond minAmount |
| `Executor.MissingExactly` | core/task-executor/lib/reconcile/normalize.js:363-373 | the number asked for is the least that brings the jobs to the maximum, when more are requested than the minimum, and to the minimum otherwise |
| `Executor.ReconcileDrivers` | core/task-executor/lib/reconcile/drivers-reconciler.js:27-65 | the driver pass stops the surplus idle drivers, asks for the missing drivers, none when there are enough, and places them by the same loop |
| `Executor.Interval` | core/task-executor/lib/executor.js:75-78 | worker pass and driver pass on the same records together respect the capacity of every node and place exactly the created jobs; created and skipped drivers are the least number that brings the jobs to the minimum, or to the maximum when more than the minimum are requested, and the first ready drivers beyond the minimum are stopped |
| `Executor.TickAccounted` | core/task-executor/lib/reconcile/reconciler.js:347-347 | the placement of one tick respects capacity, also when the matching throws |
| `Accounting.UsageExact` | core/task-executor/lib/reconcile/normalize.js:234-264 | on each node requests = workersTotal + other = the sum over its Running or Pending pods |
| `Accounting.UsageExactly` | core/task-executor/lib/reconcile/normalize.js:174-190 | by quantity: requests, workersTotal and other are sums over the Running or Pending pods of the node, of its workers and of its other pods, of the limits of their containers when limits are used and not 0 and of their requests otherwise; limits are the sum of limits |
| `Accounting.WorkersExactly` | core/task-executor/lib/reconcile/normalize.js:252-257 | the listed workers are the algorithms of the Running or Pending worker pods of the node, in their order |
| `Accounting.ClusterExactly` | core/task-executor/lib/reconcile/normalize.js:225-279 | free of a node and total, requests, limits and free of the cluster by quantity |
| `Accounting.ClusterFree` | core/task-executor/lib/reconcile/normalize.js:156-160 | what is free in the cluster is the sum of what is free on its nodes |
| `Accounting.ClusterRequests` | core/task-executor/lib/reconcile/normalize.js:266-276 | the requests of the cluster count every Running or Pending pod of a schedulable node exactly once |
| `Accounting.Schedulable` | core/task-executor/lib/reconcile/normalize.js:162-164 | exactly the nodes without a NoSchedule taint are listed |
| `Accounting.NormalizeResources` | core/task-executor/lib/reconcile/normalize.js:192-279 | the reduces and the loop yield the record of every schedulable node, with free = total - requests, and the cluster sums |
| `Accounting.Initial` | core/task-executor/lib/reconcile/normalize.js:209-224 | the table starts with unused records of the listed nodes |
| `Accounting.AddPods` | core/task-executor/lib/reconcile/normalize.js:235-264 | after the reduce each entry holds the usage of the pods of its node; pods of other nodes are ignored |
| `DriverQueue.HeuristicRunner.constructor` | core/pipeline-driver-queue/lib/heuristic-runner.js:6-8 | no heuristic is registered at first |
| `DriverQueue.HeuristicRunner.AddHeuristicToQueue` | core/pipeline-driver-queue/lib/heuristic-runner.js:14-21 | a heuristic without a weight is left out, any other is appended |
| `DriverQueue.HeuristicRunner.Run` | core/pipeline-driver-queue/lib/heuristic-runner.js:23-32 | the score becomes the sum of all heuristics; nothing else of the job changes |
| `DriverQueue.Queue.constructor` | core/pipeline-driver-queue/lib/queue.js:9-15 | the queue starts empty |
| `DriverQueue.Queue.Enqueue` | core/pipeline-driver-queue/lib/queue.js:56-64 | the queue becomes the stable descending order of all jobs scored again with one clock reading |
| `DriverQueue.Queue.Peek` | core/pipeline-driver-queue/lib/queue.js:66-73 | the head, or null |
| `DriverQueue.Queue.Dequeue` | core/pipeline-driver-queue/lib/queue.js:75-83 | the head leaves the queue, or null and nothing changes |
| `DriverQueue.Queue.Remove` | core/pipeline-driver-queue/lib/queue.js:85-92 | all jobs of the id leave and are returned, the others stay in order |
| `DriverQueue.LagCovers` | core/pipeline-driver-queue/lib/heuristic/entrance-time.js:3-8 | with weights 0.5 and 0.5 a lag of 2,880,720 ms outweighs every priority gap and the 0.0001 fallback, and no smaller one does by this test |
| `DriverQueue.OlderOutscores` | core/pipeline-driver-queue/lib/heuristic/priority.js:8-8 | on any clock reading a job outscores every job that entered more than the lag after it, whatever the priorities |
| `DriverQueue.EnqueueFair` | core/pipeline-driver-queue/lib/queue.js:56-59 | an enqueue keeps every job ahead of all jobs that entered more than the lag after it |
| `DriverQueue.RunFair` | core/pipeline-driver-queue/lib/queue.js:56-92 | so does every run of enqueue, dequeue and remove, for all weights and lags that cover |
| `DriverQueue.NoStarvation` | core/pipeline-driver-queue/lib/queue.js:56-92 | with the configured weights, from an empty queue, nobody stands behind a job that entered more than 2,880,720 ms later |
| `DriverQueue.WaitIsBounded` | core/pipeline-driver-queue/lib/queue.js:56-92 | every job popped while a job waits entered at most the lag after it, and there are fewer pops than jobs with such an entrance time |
| `DriverQueue.LagIsTight` | core/pipeline-driver-queue/lib/queue.js:56-59 | one millisecond below the bound a job of priority 1 still overtakes a job of priority 5 |
| `DriverQueue.ScoreExactly` | core/pipeline-driver-queue/lib/heuristic-runner.js:23-32 | the score by formula: weight * age in hours, or 0.0001 when that is 0, plus weight * (6 - priority) / 5 |
| `DriverQueue.EnqueueByPriority` | core/pipeline-driver-queue/lib/queue.js:56-59 | after an enqueue, of two jobs with one entrance time the one of higher priority stands first |
| `DriverQueue.RunByPriority` | core/pipeline-driver-queue/lib/queue.js:56-92 | and so after every run of enqueue, dequeue and remove |
| `Sorting.OrderByDescStable` | core/pipeline-driver-queue/lib/queue.js:59-59 | orderby is descending, a permutation, and keeps the order of equal scores |
| `Sorting.StableOrderUnique` | core/pipeline-driver-queue/lib/queue.js:59-59 | and these three facts determine the result |
| `RatioAllocator.TilingExact` | core/resource-manager/lib/allocators/ratios-allocator.js:24-37 | the ranges start at 0, end at the sum of the ratios, follow one another without a gap and none is reversed |
| `RatioAllocator.DrawFinds` | core/resource-manager/lib/allocators/ratios-allocator.js:62-64 | every draw within the tiled interval finds an algorithm |
| `RatioAllocator.DefinedExactly` | core/resource-manager/lib/allocators/ratios-allocator.js:16-22 | the ratios are numbers exactly when there is not a single algorithm and not all values are 0 |
| `RatioAllocator.InitialValid` | core/resource-manager/lib/allocators/ratios-allocator.js:16-37 | the constructor then reaches a state with non-negative ratios that sum to 1 and ranges that tile [0, 1] |
| `RatioAllocator.RecalculatedValid` | core/resource-manager/lib/allocators/ratios-allocator.js:53-60 | removing an algorithm and sharing out its ratio keeps that state |
| `RatioAllocator.StepValid` | core/resource-manager/lib/allocators/ratios-allocator.js:40-50 | every turn of the generator keeps it, finds an algorithm, and leaves fewer algorithms or one allocation less |
| `RatioAllocator.StepAccounts` | core/resource-manager/lib/allocators/ratios-allocator.js:40-50 | a turn gives the yielded algorithm one allocation, from what it had left or from a whole refill |
| `RatioAllocator.YieldsExact` | core/resource-manager/lib/allocators/ratios-allocator.js:39-51 | for every sequence of draws an algorithm gets what it had left plus whole refills, none when there are at most two algorithms |
| `RatioAllocator.PositiveMultiple` | core/resource-manager/lib/allocators/ratios-allocator.js:39-51 | from the constructor on each algorithm is yielded a positive whole multiple of its allocation, exactly its allocation when there are two |
| `RatioAllocator.RecalculatedSum` | core/resource-manager/lib/allocators/ratios-allocator.js:28-35 | a removal refills exactly the other algorithms that stand at 0: the total stays if and only if there are none |
| `RatioAllocator.HandsOutExactly` | core/resource-manager/lib/allocators/ratios-allocator.js:28-51 | the generator hands out at least the sum of the allocations, and exactly that sum if and only if no draw removes an algorithm while another stands at 0 |
| `RatioExactly.InitialExactly` | core/resource-manager/lib/allocators/ratios-allocator.js:16-37 | the first ratio of an algorithm among n is (1 - value / sum of values) / (n - 1), and it has its whole allocation to hand out |
| `RatioExactly.DrawExactly` | core/resource-manager/lib/allocators/ratios-allocator.js:62-64 | a draw finds exactly the algorithm whose preceding ratios sum to less than it and whose own ratio reaches it; the first algorithm owns 0 as well |
| `RatioExactly.RemovalExactly` | core/resource-manager/lib/allocators/ratios-allocator.js:53-60 | a removal among n raises every other ratio by the removed ratio / (n - 1), keeps the order, and fills up what stands at 0 |
| `RatioExactly.StepExactly` | core/resource-manager/lib/allocators/ratios-allocator.js:41-49 | a turn gives one to the algorithm that owns the draw, or, when that one has nothing left, to the one that owns the draw after its removal |
| `RatioRefills.TwoNeverRefill` | core/resource-manager/lib/allocators/ratios-allocator.js:28-51 | with at most two algorithms no draw ever refills |
| `RatioRefills.MoreIsHandedOut` | core/resource-manager/lib/allocators/ratios-allocator.js:28-51 | with three algorithms or more some sequence of the draws 0 and 1, which the lemma returns, hands out more than the sum of the allocations |
| `RatioRefills.ExactForAllDraws` | core/resource-manager/lib/allocators/ratios-allocator.js:28-51 | every sequence of draws of four decimals, as the generator makes them, hands out exactly the sum of the allocations if and only if there are at most two algorithms |
| `RatioAllocator.AlgorithmRatios.constructor` | core/resource-manager/lib/allocators/ratios-allocator.js:8-14 | the constructor reaches the initial state above, with a positive total |
| `RatioAllocator.AlgorithmRatios.CalcRange` | core/resource-manager/lib/allocators/ratios-allocator.js:24-37 | the loop tiles the ranges, refills what stands at 0, and the total is the sum of the allocations |
| `RatioAllocator.AlgorithmRatios.ReCalcRange` | core/resource-manager/lib/allocators/ratios-allocator.js:53-60 | the removal with its redistribution, total included |
| `RatioAllocator.AlgorithmRatios.Next` | core/resource-manager/lib/allocators/ratios-allocator.js:39-51 | a call ends the generator when nothing is left, throws when the ratios are not numbers, and otherwise makes one turn that keeps the state valid and the measure (algorithms, allocations) falling |
| `RatioAllocator.AlgorithmRatios.NextYield` | core/resource-manager/lib/allocators/ratios-allocator.js:41-49 | one turn, removal and second search included |
| `RatioAllocator.AlgorithmRatios.Exhaust` | core/resource-manager/lib/metrics/algorithms-map/run-time.js:31-34 | running the generator to its end terminates for every sequence of draws and yields the sequence the results above are about |
| `BatchPlace.GetListOfJobsIDs` | core/algorithm-queue/lib/querier.js:6-21 | the table counts the tasks of every job and node, and lists no other |
| `BatchPlace.BatchPlace` | core/algorithm-queue/lib/enrichments/batch-place.js:4-28 | the loop that overwrites the tasks in place gives each the enrichment computed from counts taken before the first write |
| `BatchPlace.EnrichedExactly` | core/algorithm-queue/lib/enrichments/batch-place.js:4-28 | the length becomes the number of queued tasks of the job and node and the place moves by the change; a task without a place, or at place 0, starts at its own index with its initial length |
| `BatchPlace.EnrichedTelescopes` | core/algorithm-queue/lib/enrichments/batch-place.js:7-27 | an enrichment keeps place - length = index - initial length, also across the reset at place 0 |
| `BatchPlace.QueueTelescopes` | core/algorithm-queue/lib/enrichments/batch-place.js:4-28 | so does the enrichment of a whole queue, with lengths of at least 1 |
| `BatchPlace.PlaceScoreExact` | core/algorithm-queue/lib/heuristic/current-batch-place.js:7-13 | the place score is weight * abs(initial length + 1 - index) / current length with a divisor that is not 0, whatever the history |
| `AlgorithmQueue.StepOrdered` | core/algorithm-queue/lib/queue.js:100-200 | after every step of every schedule the queue descends by stored score, so tryPop takes a task of the highest score |
| `AlgorithmQueue.RemovedExactly` | core/algorithm-queue/lib/queue.js:149-159 | a task leaves exactly when some removal has its job id and either no task id or its own; the others keep their order |
| `AlgorithmQueue.DuplicatesExactly` | core/algorithm-queue/lib/queue.js:86-95 | add takes out exactly the queued tasks with both the job id and the task id of an added one |
| `AlgorithmQueue.SortThenFilter` | core/algorithm-queue/lib/queue.js:140-159 | the stable sort and the removal commute |
| `AlgorithmQueue.MergeExact` | core/algorithm-queue/lib/queue.js:168-187 | a merge is the stable descending sort of re-scored queue ++ buffered inserts without every task that matches a buffered removal |
| `AlgorithmQueue.MergedExactly` | core/algorithm-queue/lib/queue.js:168-187 | it holds exactly the re-scored and buffered tasks that no buffered removal names by job, or by job and task |
| `AlgorithmQueue.AddDoneExactly` | core/algorithm-queue/lib/queue.js:74-79 | a scored batch is sorted into the queue between two cycles and buffered during one; nothing else changes |
| `AlgorithmQueue.RemoveJobsExactly` | core/algorithm-queue/lib/queue.js:113-120 | removals are carried out between two cycles and buffered during one; nothing else changes |
| `AlgorithmQueue.CycleStartExactly` | core/algorithm-queue/lib/queue.js:182-183 | the start of a cycle enriches every queued task in its position, by formula |
| `AlgorithmQueue.ScoreDoneExactly` | core/algorithm-queue/lib/queue.js:123-187 | the write-back queues exactly the captured tasks with their new scores and the buffered tasks that no buffered removal names, and empties the buffers |
| `AlgorithmQueue.NextWriteBackApplies` | core/algorithm-queue/lib/queue.js:168-187 | over any schedule up to the next write-back nothing buffered is lost: no queued task is named by a removal buffered before, and a buffered task is queued unless a removal buffered until then names it |
| `AlgorithmQueue.StepAccounted` | core/algorithm-queue/lib/queue.js:70-200 | every step keeps: added + come back = queued + buffered + waiting for a score + popped + removed, as multisets |
| `AlgorithmQueue.AlwaysAccounted` | core/algorithm-queue/lib/queue.js:70-200 | so does every schedule, together with the order of the queue |
| `AlgorithmQueue.TasksConserved` | core/algorithm-queue/lib/queue.js:70-200 | on every schedule that ends outside the await of updateScore, the tasks added are exactly those queued, buffered, waiting, popped or removed if and only if no task was popped and no queued one re-added inside such an await |
| `AlgorithmQueue.UntouchedExactly` | core/algorithm-queue/lib/queue.js:70-200 | on every schedule, one that ends inside the await included, no task comes back or is missing from the live queue if and only if no such pop or re-add happened |
| `AlgorithmQueue.WriteBackExactly` | core/algorithm-queue/lib/queue.js:122-125 | the write-back brings back as many tasks as left the live queue inside the await, and none exactly when none left |
| `AlgorithmQueue.ShrinksExactly` | core/algorithm-queue/lib/queue.js:86-107 | inside the await a step shrinks the live queue if and only if it is such a pop or re-add |
| `AlgorithmQueue.AwaitShrinksExactly` | core/algorithm-queue/lib/queue.js:86-123 | over any schedule inside the await the live queue keeps its size if and only if no such step happened |
| `AlgorithmQueue.AwaitConservesExactly` | core/algorithm-queue/lib/queue.js:122-125 | one whole await brings no task back if and only if no such step happened in it |
| `AlgorithmQueue.PoppedComesBack` | core/algorithm-queue/lib/queue.js:122-125 | the failing schedule, for every task: added, captured, popped inside the await and written back, it is both popped and queued |
| `AlgorithmQueue.StepTelescopes` | core/algorithm-queue/lib/queue.js:70-200 | every task anywhere, captured and buffered ones included, keeps the telescoping invariant through every step |
| `AlgorithmQueue.AlwaysTelescoped` | core/algorithm-queue/lib/queue.js:70-200 | and through every schedule whose arrivals satisfy it, new tasks and those re-added from storage alike |
| `AlgorithmQueue.PlaceScoresExact` | core/algorithm-queue/lib/heuristic/current-batch-place.js:7-13 | on every such schedule the place score of every enriched queued task is the one by its own index and initial length |
| `AlgorithmQueue.Queue.constructor` | core/algorithm-queue/lib/queue.js:9-24 | queue and buffers start empty, between two cycles |
| `AlgorithmQueue.Queue.RemoveDuplicates` | core/algorithm-queue/lib/queue.js:86-95 | every queued task with the job and task id of a new one leaves |
| `AlgorithmQueue.Queue.AddCall` | core/algorithm-queue/lib/queue.js:70-73 | the duplicates leave at once, during a cycle too; the batch waits for its scores |
| `AlgorithmQueue.Queue.AddDone` | core/algorithm-queue/lib/queue.js:74-79 | the scored batch goes to the insert buffer during a cycle, into the ordered queue otherwise |
| `AlgorithmQueue.Queue.TryPop` | core/algorithm-queue/lib/queue.js:100-107 | the head leaves and is returned, or null |
| `AlgorithmQueue.Queue.RemoveJobs` | core/algorithm-queue/lib/queue.js:113-120 | the removals are buffered during a cycle and carried out otherwise |
| `AlgorithmQueue.Queue.InsertTasks` | core/algorithm-queue/lib/queue.js:135-143 | the queue becomes the stable descending order of queue ++ tasks, and stays as it is without tasks |
| `AlgorithmQueue.Queue.DropJobs` | core/algorithm-queue/lib/queue.js:149-165 | each removal in turn takes its tasks out |
| `AlgorithmQueue.Queue.CycleStart` | core/algorithm-queue/lib/queue.js:182-183 | buffering starts and the queue is enriched |
| `AlgorithmQueue.Queue.ScoreStart` | core/algorithm-queue/lib/queue.js:123-123 | the queue of that moment is captured |
| `AlgorithmQueue.Queue.ScoreDone` | core/algorithm-queue/lib/queue.js:123-187 | the captured tasks with their new scores replace the live queue, the buffers are merged and emptied |
| `AlgorithmQueue.Queue.CycleEnd` | core/algorithm-queue/lib/queue.js:188-189 | buffering ends after the store |
| `Graphs.IsAcyclic` | core/api-server/lib/validation/api-validator.js:202-204 | the acyclicity test answers true if and only if no node reaches itself, and then has a topological order |
| `Graphs.OrderedIsAcyclic` | core/api-server/lib/validation/api-validator.js:202-204 | a graph with a topological order has no cycle |
| `Graphs.StuckIsCyclic` | core/api-server/lib/validation/api-validator.js:202-204 | a non-empty set of nodes that all have a predecessor in it holds a cycle |
| `Graphs.OrderExists` | core/pipeline-driver/lib/tasks/task-runner.js:214-219 | what starting a run relies on: every acyclic graph has a topological order |
| `Graphs.EntryExists` | core/pipeline-driver/lib/tasks/task-runner.js:214-219 | a non-empty acyclic graph has a node without predecessors |
| `Pipelines.LinksExact` | core/api-server/lib/validation/api-validator.js:183-187 | the links are exactly the references from nodes to nodes |
| `Validation.FirstMissing` | core/api-server/lib/validation/api-validator.js:184-192 | the first reference that names no node, if any does |
| `Validation.InputFault` | core/api-server/lib/validation/api-validator.js:173-193 | the inputs of a node pass exactly when each has a known flow input, if checked, and names existing nodes only |
| `Validation.NoFaultExactly` | core/api-server/lib/validation/api-validator.js:164-196 | the loop passes exactly when every node is good |
| `Validation.AcceptedExactly` | core/api-server/lib/validation/api-validator.js:159-205 | a pipeline is accepted if and only if names are distinct, none is flowInput, every reference exists, checked flow inputs are known and the graph is acyclic |
| `Validation.FirstFaultIsReal` | core/api-server/lib/validation/api-validator.js:164-196 | a rejection before the graph test reports a fault that the node really has, and no earlier node has any |
| `Validation.GraphIsWellFormed` | core/api-server/lib/validation/api-validator.js:198-200 | the links join nodes of the graph only |
| `Validation.AcceptedRuns` | core/pipeline-driver/lib/tasks/task-runner.js:214-219 | an accepted non-empty pipeline has a topological order and a node that takes no input from another |
| `Validation.ForwardIsAccepted` | core/api-server/lib/validation/api-validator.js:159-205 | a pipeline whose nodes refer to earlier nodes only, with distinct and unreserved names, is accepted |
| `Validation.ValidateInputs` | core/api-server/lib/validation/api-validator.js:172-194 | the loops over the inputs of a node stop at its first fault or push exactly its links |
| `Validation.PushReferences` | core/api-server/lib/validation/api-validator.js:184-192 | the loop over the references of an input stops at the first missing one or pushes exactly its links |
| `Validation.ValidateNodes` | core/api-server/lib/validation/api-validator.js:159-205 | the whole check throws the first fault, then rejects a cycle, and accepts otherwise |
| `Caching.BuildGraph` | core/caching-service/lib/create-graph.js:18-41 | the graph gets one edge per referring pair, in the order of first reference, and every name; a node without an input list throws |
| `Caching.MapReaches` | core/caching-service/lib/create-graph.js:18-41 | it joins exactly the nodes that the validation graph joins |
| `Caching.Successors` | core/caching-service/lib/create-graph.js:67-68 | the successors are exactly the targets of the edges out of the node |
| `Caching.ReverseReaches` | core/caching-service/lib/create-graph.js:54-55 | predecessors are the successors of the reversed graph, for whole paths |
| `Caching.BelowShrinks` | core/caching-service/lib/create-graph.js:76-76 | on an acyclic graph the nodes below strictly shrink along every edge, which is why the recursion ends |
| `Caching.WalkExact` | core/caching-service/lib/create-graph.js:67-78 | the neighbours recorded by a traversal are exactly the nodes below its start |
| `Caching.WalkIsTruthful` | core/caching-service/lib/create-graph.js:75-75 | every record lists all successors of a node at or below the start |
| `Caching.Collect` | core/caching-service/lib/create-graph.js:54-78 | the recursive traversal pushes those records onto the shared array; it throws exactly for an unknown node and gives undefined exactly without neighbours |
| `Caching.Flatten` | core/caching-service/lib/runner.js:80-105 | the Set grown over the records, the undefined case included |
| `Caching.FlattenedSuccessors` | core/caching-service/lib/runner.js:80-91 | the flattened successors are exactly the nodes reachable from the node, itself first, each once |
| `Caching.FlattenedPredecessors` | core/caching-service/lib/runner.js:93-105 | the flattened predecessors are exactly the nodes that reach it, itself first, each once |
| `Caching.CreateSubPipeline` | core/caching-service/lib/runner.js:66-78 | the loop keeps, in order, the record of the first node of every name and skips names without a node |
| `Caching.SubNodesExactly` | core/caching-service/lib/runner.js:66-91 | the sub-pipeline of an accepted pipeline holds exactly the nodes at or below the start, each once, the start first |
| `Caching.SubPipelineIsClosed` | core/caching-service/lib/runner.js:66-78 | a node that takes input from a kept node is kept |
| `Caching.SubPipelineIsAcyclic` | core/caching-service/lib/runner.js:66-78 | the sub-pipeline is acyclic |
| `Caching.StartIsEntry` | core/caching-service/lib/runner.js:66-78 | the start takes no input from any kept node |
| `Caching.StartInputsCollected` | core/caching-service/lib/runner.js:93-105 | all node inputs of the start are in the flattened predecessors |
| `Caching.FlattenedMeetInStart` | core/caching-service/lib/runner.js:80-105 | the two flattened sets meet only in the start |
| `CachedRun.NameReadExactly` | core/caching-service/lib/input-parser.js:4-8 | a string reads exactly the name between its first @ and the next @, dot or end, whatever stands before, and none when that is empty |
| `CachedRun.SplitExact` | core/caching-service/lib/input-parser.js:1-17 | the names split off are exactly those of the given nodes that some string input reads |
| `CachedRun.SplitInput` | core/caching-service/lib/input-parser.js:1-17 | the loop pushes them in the order of the inputs |
| `CachedRun.PushOutputs` | core/caching-service/lib/runner.js:49-57 | the stored outputs are pushed node by node; a node whose outputs could not be read makes the spread throw |
| `CachedRun.MergeOne` | core/caching-service/lib/runner.js:45-62 | one node gets the stored outputs of its dependents, null when there are none |
| `CachedRun.MergeSubPipeline` | core/caching-service/lib/runner.js:44-64 | parentOutput of every kept record is overwritten so, or the merge throws |
| `CachedRun.MergeThrowsExactly` | core/caching-service/lib/runner.js:44-64 | the merge of a node throws if and only if it has no input list or reads, by a string input, a node at or above the start whose outputs could not be read |
| `CachedRun.MergedExactly` | core/caching-service/lib/runner.js:44-64 | parentOutput is null unless the node reads some stored output by a string input, and then holds outputs of exactly the nodes it so reads |
| `CachedRun.ResultsExactly` | core/caching-service/lib/runner.js:44-64 | result by result: an output is reused exactly when the storage holds it for a node at or above the start that the node reads by a string input |
| `CachedRun.ServedExactly` | core/pipeline-driver/lib/tasks/task-runner.js:349-362 | the output for a reference of a kept node is there if and only if the node reads some stored output and this reference is one of those, or it reads none and the reference is to a node that runs again |
| `CachedRun.NestedInputNotServed` | core/caching-service/lib/input-parser.js:4-4 | the start gets nothing when its reference is inside an object or a list, whatever the storage holds |
| `CachedRun.OverriddenNotServed` | core/pipeline-driver/lib/tasks/task-runner.js:360-360 | a node that reads the start and another kept node gets the stored output of the start and no output of the run |
| `CachedRun.SiblingNotServed` | core/caching-service/lib/runner.js:44-64 | a kept node does not get the output of a node beside the start |
| `CachedRun.Parse` | core/caching-service/lib/runner.js:21-41 | traversals, flattening, sub-pipeline and merge put together; nothing exactly when an input list is missing, the node is unknown or outputs to reuse cannot be read |

## Left out

- Floating point: amounts, scores, ratios and draws are reals, so rounding is not modelled.
- Units: resource requests are numbers; the converter of cpu and memory strings is not part of this model.
- Clocks and settings: clock readings, times to live and `MAX_JOBS_PER_TICK` are parameters; an enqueue makes one
  reading for all its jobs, and all jobs one call creates share one stamp.
- Sorting in Node before version 11 is not stable on more than ten elements; `Array.sort` is taken to be stable.
- Integer-like names: objects enumerate such keys first; entries and neighbours are taken in insertion order.
- `Accounting.NormalizeResources`: ratio fields of node records and the pressure log lines are left out, with their
  divisions by a total of 0; so is the call without pods or nodes, which returns no node list. Node names are
  distinct, as the API server keeps them.
- Specifications of jobs, image names and environment of jobs, and limits of container resources: copied only.
- etcd, Kubernetes, storage, discovery, metrics and logging: commands and jobs to create are results of methods.
- Idle and active counts of the tick report, statistics per node, and the unused `count` of active workers.
- `_sortWorkers`, and the parameters workers and resourcesToFree of `pauseAccordingToResources`, which nothing uses.
- `Executor.Interval`: the two passes are atomic, worker pass first; the driver pass may also run first, which
  `Resources.PassesCapacitySafe` covers, and may be left out by its own timer.
- `Matching.Pools.ProcessAllRequests`: the clones of `reconcile` make the four lists private to a tick, so aliasing
  with other lists does not occur and is not modelled; start commands sent before a throw are in its results.
- `DriverQueue.HeuristicRunner.Run`: the table of latest scores on the job is left out; nothing here reads it.
- `DriverQueue.Queue.Enqueue`: events and log lines are left out, and the heuristic
  must be set, as the service does before it enqueues.
- Persistence, flush, timers and error handling of both queues: a cycle of the algorithm queue never fails.
- `AlgorithmQueue.Queue.ScoreDone`: the new scores are parameters; a heuristic other than the place score is
  arbitrary. The asynchronous map is taken to read its array when it is called.
- `RatioAllocator.AlgorithmRatios.constructor`: needs distinct names, values that are not negative and allocations
  of at least 1, which the metrics get by grouping the queue.
- `RatioAllocator.AlgorithmRatios.Next`: ratios that are 0 / 0 are a flag instead of numbers that compare with nothing.
- `Validation.ValidateNodes`: the parser is given: an input comes with the node names it refers to and whether its
  flow input is known. The graph library is modelled by an acyclicity test of its own that meets the definition.
- `Caching.Collect`: one method serves both directions, on the graph and on its reverse; types on edges are left
  out, and a cyclic pipeline, on which the recursion would not end, is excluded as validation excludes it.
- `CachedRun.ServedExactly`: what the run itself delivers to a node is given, as the graph library is not part of this
  model: the outputs of exactly the nodes of the sub-pipeline that it refers to.
- `CachedRun.Parse`: the stored execution and the stored outputs are arguments, each node is read from the storage
  once, and the new name is left out.
- Worker state machine, sub-pipelines, algorithm executions and resource thresholds are not part of this model.
