# DirFuzz: verified model of the scan engine

DirFuzz is a concurrent web-path scanner. This project models the parts of it whose correctness depends on
more than one function or on more than one goroutine, and proves what they promise:

* the **job protocol** (`JobProtocol.dfy`, `JobInvariants.dfy`, `JobGuarantees.dfy`, `JobRaces.dfy`,
  `JobProgress.dfy`): `Submit`, the worker loop, recursive branches, bypass and source-map tasks, `ChangeWordlist`,
  `Wait` and `Shutdown` as a transition system over wait groups, queue, filter and the program counters of any number
  of goroutines; every theorem holds for every interleaving and any number of restarts;
* the **priority queue** (`JobHeap.dfy`, `JobQueue.dfy`, `QueueSystem.dfy`): the heap over an order that is no strict
  weak order, the critical sections of the queue as a class, and producers and consumers blocking on two one-token
  channels;
* the **discovery graph** (`DiscoveryGraph.dfy`, `DiscoveryRuns.dfy`, `DiscoveryTrees.dfy`, `DiscoveryScores.dfy`,
  `DiscoveryStore.dfy`, `CycleDetection.dfy`): nodes, indexes, action history and event ledger, what every run keeps,
  what runs below known parents keep besides, what each operation makes of its input, and the depth-first cycle
  search;
* **clustering** (`Fingerprints.dfy`, `Simhash.dfy`, `SwarmAggregation.dfy`, `Subsequences.dfy`): the soft-404 tracker
  and the aggregation of swarm results under Hamming distance;
* **HTTP/1.1 response framing** (`ByteStrings.dfy`, `ChunkedBody.dfy`, `ChunkedParts.dfy`, `ChunkedEnd.dfy`,
  `FramingHeaders.dfy`, `HeaderFields.dfy`, `ResponseFraming.dfy`, `ResponseDelivery.dfy`, `WrittenResponses.dfy`):
  chunked decoding, the end-of-body test, header fields, the read loop over a 4096-byte buffer, and what a stream
  gives for every way of cutting it into reads, up to whole responses as servers write them (sections 6.3 and 7.1 of
  RFC 9112);
* **exact algorithms**: parameter bisection (`ParamBisection.dfy`), the per-tool rate limiter (`RateLimiter.dfy`), the
  compiled scope index (`ScopeIndex.dfy`, `ScopeForms.dfy`) and the capped estimate of a recursive scan
  (`ScanEstimate.dfy`).

Code that updates state in place is a class or a method with loops, proved equal to a function on values; the
properties are lemmas about those functions. Verify the project with `dafny verify dfyconfig.toml`.

## What the proofs show about the code

Some properties hold only under a condition, which is proved to be exact or shown to matter:

* `Wait` is final only if no scanner is kicked off between its scanner wait and its job wait: from every reachable state
  between the two with no job active a kickoff lets it return while a scanner is about to submit
  (`JobRaces.KickBreaksWait`, `JobRaces.KickAddsFromZero`); the gap of a restart reaches such a state
  (`JobRaces.WaitRacesRestart`).
* Unless a scanner is kicked off meanwhile, the wait groups for jobs and submissions are never added to from zero while
  they are waited for, and neither is the one for scanners during a restart. During `Wait` and `Shutdown` the latter is:
  `ProcessHit` may register a branch after the last scanner has left (`JobGuarantees.ScannerAddFromZeroIff`,
  `JobRaces.ScannerRaceReached`), which a Go wait group does not allow against a pending wait.
* With some queued jobs dated and some not, the queue respects type and priority but not age
  (`JobHeap.UndatedBreaksAge`).
* `AddPathNode` keeps a graph valid exactly when the parent is empty or a node of the graph.
* A node proposes at most one action and one feedback action in its life, so the caps of 5 and 3 are never reached.
* A suppressed fingerprint is forgotten only when the full list of 5000 clusters evicts the one cluster that
  suppressed it; the order of seeds and observations does not matter, except for keeping the list sorted.
* `hasCompleteChunkedBody` does not follow chunk sizes: a chunked response is read to its end for every way of cutting
  exactly when no chunk holds a last-chunk line with an early end behind it, as is the case when no data holds a line
  feed or is a single zero.
* The end of a header does not depend on how the stream is cut exactly when no bare LF-LF precedes the first
  CRLF-CRLF and the header ends within the limit; a Content-Length body is returned in full, and no more, for every
  cut exactly when nothing follows it and header and body together stay within the limit, which counts the header bytes
  although it is named for the body. With bytes behind the body the response depends on the cut.
* Bisection equals probing every parameter exactly when no probed set hides a member that matches alone.
* A response without a body by its code is complete exactly when reading stopped right behind its header, except that
  under HTTP/1.0 an orderly close makes it complete even with bytes behind the header
  (`WrittenResponses.BodilessDelivered`).
* Lengths are read more loosely than section 8.6 of RFC 9110 allows: `+5` and `-0` are lengths
  (`FramingHeaders.LengthIff`), and what a folded line adds to a length is ignored (`HeaderFields.FoldedRead`).
* A target whose scheme is written in capitals is refused, although host names are compared without regard to case
  (`ScopeForms.OtherTarget`).

## Model

| member | source | states |
|---|---|---|
| JobGuarantees.TerminationDetection | pkg/engine/worker.go:1057-1093 | In every reachable state activeJobs equals queued jobs, submitters between Add and the end of Push, held jobs, live branches and auxiliary tasks and undrained releases; it is zero exactly when none of these exists, and no wait group goes negative |
| JobGuarantees.WaitIsFinal | pkg/engine/engine.go:1943-1947 | When Wait returns and no scanner was kicked off in between, the queue is empty, nobody holds or submits a job, and no later run of the engine without a kickoff changes that |
| JobGuarantees.NoAddFromZero | pkg/engine/recursive_tracker.go:64-72 | While activeJobs is waited for, after the scanner wait of Wait (with no kickoff since) or of Shutdown, or after the drain of a restart, every Add to it finds it positive |
| JobGuarantees.NoAddInRestart | pkg/engine/engine.go:1155-1164 | While a restart waits for submissions none is added, and while it waits for scanners none of those is |
| JobGuarantees.ScannerAddFromZeroIff | pkg/engine/recursive_tracker.go:64-72 | With no scanner registered some step registers one exactly when a worker stands between its two registrations of a branch or a kickoff is due; once Shutdown has begun only the former |
| JobRaces.BranchRacesWait | pkg/engine/recursive_tracker.go:58-73 | From every reachable state with no scanner registered and a worker at a job, one step leads to a registration from zero, whoever waits |
| JobRaces.ScannerRaceReached | pkg/engine/engine.go:1943-1962 | States with a registration from zero due are reached, for every path, while Wait waits for the scanners and while Shutdown does |
| JobGuarantees.GenerationIsolation | pkg/engine/engine.go:1141-1159 | While admission is open every queued, held or mid-submission job carries the current RunID; while a restart has closed it, the previous one |
| JobGuarantees.ResetIsQuiet | pkg/engine/engine.go:1179-1215 | Filter and counters are reset, and admission reopens, only when nothing is queued, held or being submitted and every scanner, branch and task has ended |
| JobGuarantees.PoppedDecides | pkg/engine/worker.go:127-130 | In every reachable state the stale check drops a popped job exactly while admission is closed and passes it exactly while it is open |
| JobGuarantees.PoppedStays | pkg/engine/worker.go:121-130 | No step of any goroutine or of the controller turns a worker with a popped job into a busy one while admission is closed, or makes it lose the job while it is open |
| JobGuarantees.NoJobTwice | pkg/engine/worker.go:1074-1082 | Across any number of restarts a (generation, key) passes the filter at most once, and no job is in flight twice or without having passed |
| JobInvariants.FilterIsNew | pkg/engine/engine.go:433-445 | A key the filter calls new was never accepted in this generation, given no false negatives |
| JobGuarantees.CloseIsSafe | pkg/engine/engine.go:1960-1973 | The job queue is closed only when it is empty and nobody can submit, and no Push is ever under way on the closed queue |
| JobGuarantees.NoSendAfterClose | pkg/engine/engine.go:1975-2006 | Before Results is closed every worker, scanner, fetcher, branch and task is past its last send, and none is live |
| JobRaces.KickBreaksWait | pkg/engine/engine.go:1943-1945 | From every reachable state between the two waits of Wait with no job active, either kind of kickoff lets Wait return while a scanner is live and admission open |
| JobRaces.KickAddsFromZero | pkg/engine/worker.go:1084-1090 | After such a kickoff the new scanner reaches an activeJobs.Add that finds the counter at zero while Wait waits for it, for every key not yet in the filter |
| JobRaces.WaitRacesRestart | pkg/engine/engine.go:1141-1217 | For every number of workers the gap of a restart reaches such a state, and jobs of the new run are admitted after Wait has returned |
| JobInvariants.ActBalanced | pkg/engine/recursive_tracker.go:58-79 | Every goroutine step changes each wait group by exactly what the goroutine, and any it starts, newly stand for, the double registration of branches included |
| JobInvariants.ActAccounted | pkg/engine/worker.go:121-130 | Push and Pop hand a job over without copying it; a job enters flight only at the filter |
| JobInvariants.OwnKeepsInv | pkg/engine/worker.go:108-979 | Every step of a worker, scanner, fetcher, branch or task keeps the whole protocol invariant |
| JobInvariants.OwnOwned | pkg/engine/passive_harvest.go:127-156 | A live source fetcher always has a live passive scanner that waits for it |
| JobInvariants.ControlKeepsInv | pkg/engine/engine.go:1110-1245 | Every step of kickoff, restart, Wait and Shutdown keeps the whole protocol invariant |
| JobInvariants.OwnStaysQuiet | pkg/engine/bypass403.go:116-140 | With no scanner left and the counter at zero no goroutine step can raise it again |
| JobInvariants.ReachableInv | pkg/engine/worker.go:1057-1093 | The protocol invariant holds after any interleaving of any number of workers, scanners, source fetchers, branches and tasks |
| JobProgress.JobIsQueued | pkg/engine/worker.go:1057-1093 | From every reachable state with admission open whoever is at work can bring a new key into the queue in five steps, after which the job is queued, accepted and counted once and nothing else has changed |
| JobProgress.JobIsCancelled | pkg/engine/worker.go:1084-1092 | When the context is gone or the push fails, the submission leaves nothing behind but its key in the filter |
| JobProgress.JobIsRefused | pkg/engine/worker.go:1071-1082 | An excluded path leaves no trace at all, and a key seen before none but itself |
| JobProgress.NotAdmitted | pkg/engine/worker.go:1061-1067 | A submission for another run, or while admission is closed, changes nothing |
| JobProgress.JobIsDone | pkg/engine/worker.go:121-130 | A parked worker can take any queued job out of the engine, processed or dropped, and either way it is released exactly once |
| JobProgress.TaskRuns | pkg/engine/bypass403.go:116-137 | A worker can schedule an auxiliary task, and when that has run every counter is what it was |
| JobProgress.BranchRuns | pkg/engine/recursive_tracker.go:58-79 | A worker can open a branch, counted in two wait groups while it runs and in none afterwards |
| JobProgress.FetchRuns | pkg/engine/passive_harvest.go:127-156 | A passive scanner can start a fetcher, which ends without touching a counter |
| JobProgress.ScannersStart | pkg/engine/engine.go:1233-1245 | A kickoff, also that of a restart, registers and starts one scanner or two, and nothing else changes but that a pending Wait is no longer final |
| JobProgress.RestartCompletes | pkg/engine/engine.go:1141-1215 | With only queued jobs left a restart runs through by its own steps: every queued job is released, and admission reopens for the next run with an empty filter |
| JobProgress.WaitCompletes | pkg/engine/engine.go:1943-1947 | With no scanner registered and no job active Wait can return, and then the work is finished |
| JobProgress.StopCompletes | pkg/engine/engine.go:1952-2006 | When the work is done Shutdown runs through: all workers leave, whatever their number, and queue and results are closed |
| JobProgress.NoneStuck | pkg/engine/worker.go:108-979 | In every reachable state every goroutine that is neither an idle worker nor dead has a step, except a scanner joining a fetcher, which then has one |
| JobHeap.LessDecides | pkg/engine/queue.go:106-119 | Either outcome of Less decides the coarser order by type score, priority and then, for dated classes, time and, for undated ones, run |
| JobHeap.LessIsNotWeakOrder | pkg/engine/queue.go:115-118 | Three jobs for which incomparability under Less is not transitive |
| JobHeap.UpOrders | pkg/engine/queue.go:190 | Sifting up restores the heap for the coarser order although Less is no weak order |
| JobHeap.DownOrders | pkg/engine/queue.go:211 | Sifting down restores the heap for the coarser order |
| JobHeap.PushKeepsOrder | pkg/engine/queue.go:190 | A push keeps the heap and adds exactly the job |
| JobHeap.PopTakesFirst | pkg/engine/queue.go:211 | A pop takes a job of the highest type score and priority, an oldest one if its class is dated and one of the earliest run if it is undated, keeps the heap and removes nothing else |
| JobHeap.UndatedBreaksAge | pkg/engine/queue.go:115-118 | For any two dated jobs and any undated one of one class and run (the older may also carry a later RunID), four pushes and a pop leave the younger due before the older |
| JobHeap.JobSlice.SiftUp | pkg/engine/queue.go:106-132 | The in-place loop of container/heap computes the sift-up function |
| JobHeap.JobSlice.SiftDown | pkg/engine/queue.go:106-132 | The in-place loop of container/heap computes the sift-down function |
| JobHeap.JobSlice.Push | pkg/engine/queue.go:122-124 | The slice becomes the heap with the job pushed |
| JobHeap.JobSlice.Pop | pkg/engine/queue.go:126-132 | The root is returned and the slice becomes the rest of the heap |
| JobQueue.PriorityJobQueue.PushLocked | pkg/engine/queue.go:182-205 | One pass of Push through the lock: refused when closed, parked when full, otherwise queued with both signals |
| JobQueue.PriorityJobQueue.PopLocked | pkg/engine/queue.go:207-230 | One pass of Pop through the lock: a job with both signals, the end of a closed queue, or parked |
| JobQueue.PriorityJobQueue.Close | pkg/engine/queue.go:238-246 | Closes queue and channels once, however often it is called |
| JobQueue.PriorityJobQueue.Drain | pkg/engine/queue.go:248-257 | Empties the queue, counts what was in it and signals the room |
| JobQueue.PriorityJobQueue.SignalNotEmptyLocked | pkg/engine/queue.go:158-166 | Leaves a notEmpty token when work remains in an open queue, without ever blocking |
| JobQueue.PriorityJobQueue.SignalNotFullLocked | pkg/engine/queue.go:172-180 | Leaves a notFull token when an open bounded queue has room, without ever blocking |
| JobQueue.PushSignalsIff | pkg/engine/queue.go:182-195 | An open push leaves a token for consumers exactly when the job went in and one for producers exactly when a bounded queue still has room, besides those that were there |
| JobQueue.PopSignalsIff | pkg/engine/queue.go:207-217 | A pop leaves a token for consumers exactly when it left a job behind and one for producers exactly when it made room within a bound |
| QueueSystem.NoLostWakeup | pkg/engine/queue.go:156-257 | In every reachable state work in an open queue has a token or a woken consumer, room with a parked producer has a token or a woken producer, and no send or close ever hits a closed channel |
| QueueSystem.BlockedForAReason | pkg/engine/queue.go:168-180 | If nobody can move, consumers are parked only on an empty open queue and producers only on a full one, so one Drain cascades to every parked producer there is room for |
| QueueSystem.BoundedAndConserved | pkg/engine/queue.go:182-257 | Every accepted job is queued or left exactly once by Pop or Drain, and a positive bound is never exceeded |
| QueueSystem.LockDecides | pkg/engine/queue.go:182-230 | A pass through the lock ends a producer exactly when its job went in or the queue is closed, a consumer exactly when it got a job or the queue is closed, and parks it otherwise with the queue untouched |
| QueueSystem.TokenWakesOne | pkg/engine/queue.go:198-204 | In every reachable state whoever takes a token leaves none in its channel unless that is closed, and whoever gives up changes nothing |
| QueueSystem.PopByType | pkg/engine/queue.go:92-105 | In every reachable state Pop returns a validation job if one is queued, else a parameter job, else a discovery job, else a fuzz or untyped one, and one of another type only when nothing else is queued |
| QueueSystem.PopIsBest | pkg/engine/queue.go:106-119 | Of the jobs of the type it takes Pop returns one of the highest priority, and, among the equals, an oldest one when all accepted ones carry a time and one of the earliest run when none does |
| QueueSystem.StepKeepsInv | pkg/engine/queue.go:182-257 | Every step of any producer or consumer, and Close and Drain, keeps signalling, bounds and conservation |
| QueueSystem.StepKeepsOrder | pkg/engine/queue.go:182-257 | Every step keeps the heap for every choice of dated and undated classes |
| CycleDetection.DetectCycles | pkg/engine/discovery_graph_export.go:52-90 | On every finite graph, missing children included, and for every iteration order, an error exactly when the Children links have a directed cycle |
| CycleDetection.Detector.Detect | pkg/engine/discovery_graph_export.go:57-80 | A failing search has found a cycle; a successful one restores the stack and has finished the node |
| CycleDetection.Detector.DetectCycles | pkg/engine/discovery_graph_export.go:82-89 | The loop over all nodes fails exactly when there is a cycle |
| CycleDetection.OrderedIsAcyclic | pkg/engine/discovery_graph_export.go:61-79 | A finishing order in which every link goes to an earlier node rules out every cycle |
| CycleDetection.RankedIsAcyclic | pkg/engine/discovery_graph_export.go:51-52 | Links that respect a rank form no cycle |
| DiscoveryTrees.BuiltGraphs | pkg/engine/discovery_graph.go:517-743 | Every graph built by any sequence of the three operations, with paths below known parents, is acyclic and passes validation, parent and child links are inverses, and both indexes are exact |
| DiscoveryRuns.EmittedOnce | pkg/engine/discovery_graph.go:383-409 | Along any run, with whatever parents, each node and action is emitted at most once by evaluation and at most once by feedback, the history is exactly what was emitted, its size and that of the executions equal the sum of the counters, each counter is at most 1, and the ledger is exactly the newest MaxEvents events the run had accepted |
| DiscoveryRuns.NothingForgotten | pkg/engine/discovery_graph.go:538-561 | Between any two points of a run no node is lost or moved, and its risk, priority, counters and children never shrink |
| DiscoveryRuns.DoSteps | pkg/engine/discovery_graph.go:517-743 | Every operation with any arguments keeps scores, index, counters and ledger sound, emits only what is new, and logs exactly its events |
| DiscoveryTrees.AddPathValidIff | pkg/engine/discovery_graph.go:668-743 | Adding a path keeps a graph valid exactly when the parent is empty or an existing node |
| DiscoveryTrees.AddSourceTree | pkg/engine/discovery_graph.go:612-665 | AddSourceNode keeps links and indexes exact and returns the one node of its signature |
| DiscoveryTrees.AddPathTree | pkg/engine/discovery_graph.go:668-743 | AddPathNode below a known parent keeps links and indexes exact and returns the one node of its signature |
| DiscoveryTrees.UpdateTree | pkg/engine/discovery_graph.go:517-609 | UpdateEvidence keeps links and indexes exact |
| DiscoveryTrees.DoKeeps | pkg/engine/discovery_graph.go:517-743 | Every operation below known parents keeps the whole invariant and emits only what is new to the history |
| DiscoveryTrees.EvaluateKeeps | pkg/engine/discovery_graph.go:332-412 | EvaluateNode keeps the invariant and the shape of the graph, and its emissions are exactly the growth of the history |
| DiscoveryTrees.InsertKeeps | pkg/engine/discovery_graph.go:720-739 | Storing a new node under its indexes and parent keeps the invariant and leaves the history alone |
| DiscoveryRuns.RecordedSound | pkg/engine/discovery_graph.go:386-403 | Recording an action keeps history, executions and counters in step, and every node and index in place |
| DiscoveryTrees.RunKeeps | pkg/engine/discovery_graph.go:517-743 | Any run from a valid graph keeps the invariant and never emits what the history already held |
| DiscoveryTrees.InvValidates | pkg/engine/discovery_graph_export.go:10-49 | Every graph with the invariant passes validation |
| DiscoveryRuns.EvaluateEmits | pkg/engine/discovery_graph.go:332-387 | In a graph the operations built, evaluation emits exactly when the path asks for an action the history does not hold; the cap suppresses nothing |
| DiscoveryRuns.EvaluateAgain | pkg/engine/discovery_graph.go:383-388 | A second evaluation of a node changes and emits nothing, in any graph |
| DiscoveryTrees.AddPathAgain | pkg/engine/discovery_graph.go:681-687 | Adding the same path again, with whatever evidence, returns the same node, changes nothing and emits nothing |
| DiscoveryRuns.EvidenceOnce | pkg/engine/discovery_graph.go:526-530 | The same evidence again moves no score, logs no event and emits nothing |
| DiscoveryStore.DiscoveryGraph.AddEvent | pkg/engine/discovery_graph.go:224-246 | The ledger ignores a duplicate id and otherwise gains the event and drops the oldest beyond the bound |
| DiscoveryStore.DiscoveryGraph.EvaluateNode | pkg/engine/discovery_graph.go:332-412 | The object and the emitted actions are those of the evaluation function |
| DiscoveryStore.DiscoveryGraph.EmitActions | pkg/engine/discovery_graph.go:383-409 | The loop with history check and cap computes the emission function |
| DiscoveryStore.DiscoveryGraph.AddSourceNode | pkg/engine/discovery_graph.go:612-665 | The object, the id and the actions are those of the source function |
| DiscoveryStore.DiscoveryGraph.AddPathNode | pkg/engine/discovery_graph.go:668-743 | The object, the id and the actions are those of the path function |
| DiscoveryStore.DiscoveryGraph.UpdateEvidence | pkg/engine/discovery_graph.go:517-609 | The object and the actions are those of the feedback function, the repeated-evidence and unknown-node exits included |
| DiscoveryStore.DiscoveryGraph.ValidateGraph | pkg/engine/discovery_graph_export.go:10-49 | Succeeds exactly on graphs with sound ids, scores, parents and children and without a cycle, for every iteration order |
| DiscoveryTrees.ValidatesIff | pkg/engine/discovery_graph_export.go:14-46 | Validity spelled out: own ids, scores in range, known parents and children, and no path of child links from a node back to itself |
| DiscoveryScores.UpdateEmits | pkg/engine/discovery_graph.go:563-609 | Exactly a 401 or 403 with new evidence calls for a follow-up, one validation, unless the node has had three or the history holds it |
| DiscoveryScores.FirstDenialEmits | pkg/engine/discovery_graph.go:563-609 | In every graph a run built, that is exactly the first 401 or 403 of a node: the limit of three never matters |
| DiscoveryScores.UpdateIgnores | pkg/engine/discovery_graph.go:517-531 | Exactly an unknown node or the evidence seen last changes and emits nothing |
| DiscoveryScores.UpdateScores | pkg/engine/discovery_graph.go:538-561 | How far each status moves confidence, risk and priority, with their bounds, and that nothing else changes in this or any other node |
| DiscoveryScores.PathEmits | pkg/engine/discovery_graph.go:332-381 | In any graph evaluation emits exactly for a parameter in an OpenAPI path, a sensitive part in a script path or a GraphQL mutation, in any letter case, a parameter scan for the first and a validation for the others, below the cap of five |
| DiscoveryScores.PriorityIs | pkg/engine/discovery_graph.go:263-309 | The first priority is 30 for an extracting source, half the quality, a fifth of the confidence, 50 for a sensitive word and minus 50 for a static file, within 0 and 100 |
| DiscoveryScores.NewPathNode | pkg/engine/discovery_graph.go:690-739 | A new path node holds what it was given, its quality filled in from the source, and starts without confidence, risk and children |
| DiscoveryScores.NewSourceNode | pkg/engine/discovery_graph.go:629-664 | A new source node starts with the quality of its source and emits nothing |
| DiscoveryRuns.LedgerIsNewest | pkg/engine/discovery_graph.go:224-246 | After any calls the ledger is exactly the newest MaxEvents accepted events in order, with distinct ids |
| Fingerprints.DistanceSymmetric | pkg/engine/simhash.go:84-86 | Hamming distance is symmetric |
| Fingerprints.DistanceZero | pkg/engine/simhash.go:84-86 | Distance zero means equal fingerprints |
| Fingerprints.DistanceTriangle | pkg/engine/simhash.go:84-86 | Hamming distance obeys the triangle inequality |
| Fingerprints.DistanceCounts | pkg/engine/simhash.go:84-86 | Hamming distance is the number of positions in which the words differ |
| Simhash.SimhashTracker.IsSoftFour | pkg/engine/simhash.go:128-165 | The scan, the hit and the bubble-up in place compute the new list and the verdict |
| Simhash.SimhashTracker.BubbleUp | pkg/engine/simhash.go:145-150 | Swapping forward moves the cluster before exactly those with a smaller count and keeps the order of the others |
| Simhash.SimhashTracker.SeedBaseline | pkg/engine/simhash.go:168-173 | A seed enters at the front with the limit as its count |
| Simhash.SimhashTracker.Configure | pkg/engine/simhash.go:112-117 | New settings leave the clusters alone |
| Simhash.SimhashTracker.Clear | pkg/engine/simhash.go:120-124 | Forgets every cluster |
| Simhash.SoftIff | pkg/engine/simhash.go:128-154 | A response is judged soft exactly when the first cluster differing in no more bits than the threshold reaches the limit with it |
| Simhash.ObserveCounts | pkg/engine/simhash.go:141-152 | It is counted in that cluster, and nothing else changes but the order |
| Simhash.ObserveFounds | pkg/engine/simhash.go:156-164 | Without such a cluster it founds one, which takes the place of the last when there are 5000; without a limit nothing changes |
| Simhash.OnceSoftAlwaysSoft | pkg/engine/simhash.go:126-165 | With fixed settings and under 5000 clusters a fingerprint once judged soft is judged soft at every later time, for seeds and observations in any order |
| Simhash.SeedsAlwaysSuppress | pkg/engine/simhash.go:167-173 | Whatever lies within the threshold of a seed is judged soft from the seeding on |
| Simhash.SuppressionSurvivesIff | pkg/engine/simhash.go:156-162 | An observation makes a suppressed fingerprint unsuppressed exactly when it evicts the last cluster of a full list and nothing else suppresses it |
| Simhash.VerdictSound | pkg/engine/simhash.go:141-154 | The first near cluster decides: everything suppressed is judged soft, and what is judged soft stays suppressed |
| Simhash.SeedSortsIff | pkg/engine/simhash.go:168-173 | A seed keeps the list sorted by count exactly when no cluster has outgrown the limit |
| Simhash.ClusterPasses | pkg/engine/simhash.go:126-165 | Over a whole run the cluster at any centroid lets through at most max(limit - 1, 1) responses, and from any point at which that centroid is seeded none |
| Simhash.ClustersApartAndSorted | pkg/engine/simhash.go:126-173 | Unseeded centroids stay more than the threshold apart, and with the seeds first the list is in descending order of count |
| SwarmAggregation.FindResultCluster | pkg/engine/distribute.go:420-427 | The index of the first cluster that differs in no more bits than the threshold, or -1 if all differ in more |
| SwarmAggregation.AggregateSwarmResults | pkg/engine/distribute.go:382-413 | The loop computes the aggregation function |
| SwarmAggregation.Aggregated | pkg/engine/distribute.go:382-413 | The output is a subsequence of the input with distinct keys; cluster fingerprints are pairwise more than the threshold apart, and each cluster holds between one and clusterLimit results |
| SwarmAggregation.ClusterDiameter | pkg/engine/distribute.go:397-407 | Results kept in one cluster lie at most twice the threshold apart |
| SwarmAggregation.DroppedForCause | pkg/engine/distribute.go:390-410 | Every result missing from the output repeats an earlier key or belongs to a full cluster |
| SwarmAggregation.KeptIff | pkg/engine/distribute.go:390-410 | The next result is kept exactly when no earlier one, kept or not, has its key and its cluster is new or not yet full |
| SwarmAggregation.Idempotent | pkg/engine/distribute.go:380-413 | Aggregating the output again changes nothing |
| ChunkedBody.DechunkBody | pkg/httpclient/client.go:806-908 | The buffered loops compute the decoding function, malformed, truncated and over-long input included |
| ChunkedBody.ReadData | pkg/httpclient/client.go:876-896 | The copy loop through a 32 KB buffer delivers as many of the wanted bytes as there are |
| ChunkedBody.ReadTrailerFields | pkg/httpclient/client.go:834-861 | The trailer loop computes the map of fields, folded lines included |
| ChunkedBody.DechunkInverts | pkg/httpclient/client.go:806-908 | For any chunks with any extensions, any trailers and anything behind them, decoding gives the first MaxBodySize bytes of the data, and the trailers exactly when the cap is not reached before the last chunk |
| ChunkedBody.CanonicalRoundTrip | pkg/httpclient/client.go:806-908 | For every list of non-empty chunks that fits, decoding the canonical encoding gives back their concatenation and the trailers |
| ChunkedBody.TrailerFieldsRead | pkg/httpclient/client.go:853-860 | Well-formed trailer fields come back as the map they stand for, the last of a name winning |
| ChunkedBody.HexTextValue | pkg/httpclient/client.go:825 | Reading a canonical hexadecimal size gives the size back |
| ChunkedBody.PieceHead | pkg/httpclient/client.go:813-825 | An encoded chunk line is read as its size, and its data and line break are skipped exactly |
| ChunkedParts.CutBody | pkg/httpclient/client.go:806-908 | A body cut off anywhere within its chunks gives exactly the data that has arrived, up to the cap, or itself if none has, and no trailers |
| ChunkedParts.GotIsPart | pkg/httpclient/client.go:876-904 | What has arrived is a part of the data, and all of it with the last byte of the data |
| ChunkedParts.EndMissing | pkg/httpclient/client.go:830-861 | A body that ends behind whole trailer lines, without the empty line, gives data and trailers all the same |
| ChunkedParts.InterruptedBody | pkg/httpclient/client.go:821-829 | A line that is no size, negative or beyond 64 bits ends the decoding with the data before it; at the start it leaves the body as it is |
| ChunkedParts.BlankSkipped | pkg/httpclient/client.go:817-820 | A line of white space between chunks is skipped |
| ChunkedBody.FoldedTrailer | pkg/httpclient/client.go:845-852 | A trailer that goes on behind white space has both parts as its value |
| ChunkedEnd.Occurrences | pkg/httpclient/client.go:977-985 | The search loop finds every occurrence of the pattern, overlapping ones too |
| ChunkedEnd.HasCompleteChunkedBodyWithEOL | pkg/httpclient/client.go:968-999 | True exactly when some zero chunk line is followed by an empty line, at once or later |
| ChunkedEnd.HasCompleteChunkedBody | pkg/httpclient/client.go:964-966 | True exactly when that holds with CRLF or with bare LF line ends |
| ChunkedEnd.CompleteWithIff | pkg/httpclient/client.go:968-999 | A body counts as complete exactly when it falls into two parts around a zero line at the start or behind a line break, of which the second starts with an empty line or holds one |
| ChunkedEnd.EncodedIsComplete | pkg/httpclient/client.go:964-999 | Every completely encoded body is recognised, with any chunks and trailers |
| ChunkedEnd.ShortPassesIff | pkg/httpclient/client.go:968-999 | Some part of an encoded body passes for complete exactly when its chunks hold a last-chunk line, with either line end, behind which the body seems to end early |
| ChunkedEnd.PlainChunks | pkg/httpclient/client.go:974-985 | Chunks whose data holds no line feed and is no single zero hold no last-chunk line |
| ChunkedEnd.DataMayLookComplete | pkg/httpclient/client.go:974-997 | A body cut off behind the data of any chunk passes for complete when that data holds a zero line and an empty line |
| FramingHeaders.TransferEncodingChunkedFinal | pkg/httpclient/client.go:1065-1084 | An error exactly when a coding is empty or chunked stands before the end; otherwise whether the last coding is chunked |
| FramingHeaders.ParseConsistentContentLength | pkg/httpclient/client.go:1043-1063 | Succeeds exactly when all values are lengths and equal, and gives that length, or none for no values |
| FramingHeaders.LengthIff | pkg/httpclient/client.go:1043-1054 | A value declares a length exactly when it is digits, with a sign or none, of a number that fits 63 bits, and a negative one only if it is zero |
| FramingHeaders.SplitJoins | pkg/httpclient/client.go:1066 | Splitting is undone by joining, and no part holds the separator |
| FramingHeaders.CodingBack | pkg/httpclient/client.go:1067-1072 | Parameters and letter case do not matter to a coding |
| FramingHeaders.FramingOf | pkg/httpclient/client.go:1202-1218 | Rejected exactly for ill-formed or conflicting fields; chunked and Content-Length never hold together |
| HeaderFields.ReadFields | pkg/httpclient/client.go:1162-1201 | The loop over header lines computes the map of fields and the list of Content-Length values, folded and repeated lines included |
| HeaderFields.ParseHeader | pkg/httpclient/client.go:1142-1218 | Status line and fields together give the framing the header function declares |
| HeaderFields.LinesBack | pkg/httpclient/client.go:1143-1147 | Splitting undoes the joining of lines by CRLF |
| HeaderFields.AnyLinesBack | pkg/httpclient/client.go:1145-1147 | Lines come back whichever of CRLF, LF and CR stands behind each of them |
| HeaderFields.StatusBack | pkg/httpclient/client.go:1150-1158 | The status read from a line HTTP/1.x with three digits and any reason is the number written, and the version counts as 1.0 exactly when x is zero |
| HeaderFields.FoldedRead | pkg/httpclient/client.go:1167-1176 | A field that goes on behind white space has both parts as its value, except that a length is not read on |
| HeaderFields.FirstFieldStays | pkg/httpclient/client.go:1186-1200 | Of fields with one name, other than Transfer-Encoding, the first one counts |
| HeaderFields.HeaderBack | pkg/httpclient/client.go:1142-1218 | For every status line and list of well-formed fields the framing read back is what all their Transfer-Encoding and Content-Length values declare together, in any letter case, number and order |
| ResponseFraming.SearchNew | pkg/httpclient/client.go:1119-1140 | Searching from four bytes before the new ones finds the same terminator as scanning the whole buffer |
| ResponseFraming.ReadLoop | pkg/httpclient/client.go:1110-1244 | The incremental loop, which reads the header once, collects what the simple loop collects that rescans everything after every read |
| ResponseFraming.ParseRawResponse | pkg/httpclient/client.go:1246-1325 | Header, body, trailers and completeness for every series of reads, from the bytes of the header on, the framing error and the empty response included |
| ResponseDelivery.BoundaryIff | pkg/httpclient/client.go:1110-1140 | Every way of cutting the stream into reads of at most 4096 bytes gives the same end of header exactly when no bare LF-LF precedes the first CRLF-CRLF and the header ends within the limit |
| ResponseDelivery.WholeIff | pkg/httpclient/client.go:1221-1243 | Every way of cutting a response within the limit reads all of it exactly when nothing short of its body passes for complete |
| ResponseDelivery.ContentLengthIff | pkg/httpclient/client.go:1231-1236 | A body of a declared length is returned in full, and no more, for every way of cutting, and as complete unless the error comes with its last bytes, exactly when nothing follows it and header and body fit the limit together |
| ResponseDelivery.ExcessDiffers | pkg/httpclient/client.go:1297-1301 | With bytes behind the declared body two ways of cutting the same stream give different bodies, one a longer version of the other and both complete |
| ResponseDelivery.UntilClose | pkg/httpclient/client.go:1272-1294 | A body that ends with the connection is returned in full and is complete only for HTTP/1.0 and an orderly close |
| ResponseDelivery.ShortOfLength | pkg/httpclient/client.go:1258-1294 | A stream that ends before the declared length gives what there is of the body, for every way of cutting, never as complete |
| ResponseDelivery.HeaderMissing | pkg/httpclient/client.go:1246-1305 | A stream without the end of a header is handed over as it is, never as complete, and an empty one is an error |
| ResponseDelivery.ChunkedIff | pkg/httpclient/client.go:1226-1230 | All of a chunked response is read for every way of cutting exactly when its chunks hold no last-chunk line with an early end behind it |
| ResponseDelivery.ChunkedWhole | pkg/httpclient/client.go:1311-1325 | Such a response is returned decoded with its trailers for every way of cutting |
| ResponseDelivery.DataCutsShort | pkg/httpclient/client.go:1226-1230 | Data of any chunk with a zero line and an empty line lets some way of cutting end the response within its body |
| ResponseDelivery.BareLineFeeds | pkg/httpclient/client.go:1132-1140 | A bare LF-LF before the CRLF-CRLF is taken for the end when the bytes arrive one at a time, or, beyond the limit, neither is found |
| WrittenResponses.HeaderEnds | pkg/httpclient/client.go:1132-1140 | In a written response the terminator found is the one that was written |
| WrittenResponses.WrittenLengthIff | pkg/httpclient/client.go:1093-1325 | A response written with any fields that declare the length of its body is returned in full, and no more, for every way of cutting, exactly when nothing follows it and header and body fit the limit together |
| WrittenResponses.WrittenChunks | pkg/httpclient/client.go:1093-1325 | A response written in chunks without line feeds or a single zero as data is returned decoded with its trailers for every way of cutting |
| WrittenResponses.LengthDelivered | pkg/httpclient/client.go:1086-1325 | From the status line to the last byte: with any code but 1xx, 204 and 304 and a Content-Length in decimal among any other fields, the body is returned in full for every way of cutting exactly when nothing follows it and all fits the limit |
| WrittenResponses.ChunksDelivered | pkg/httpclient/client.go:1086-1325 | The same for Transfer-Encoding: chunked, decoded with its trailers, for chunks without line feeds or a single zero as data |
| WrittenResponses.BodilessDelivered | pkg/httpclient/client.go:1086-1305 | With a code 1xx, 204 or 304, or when no body is expected, every way of cutting gives the header and no body, complete exactly when reading stopped right behind the header before an error, or HTTP/1.0 without a length ended in order |
| WrittenResponses.BodilessAlone | pkg/httpclient/client.go:1254-1294 | With nothing behind the header that is unless the error came with its last bytes |
| WrittenResponses.CloseDelivered | pkg/httpclient/client.go:1272-1294 | Without either field the body is returned in full, complete only for HTTP/1.0 and an orderly close |
| WrittenResponses.ConflictRefused | pkg/httpclient/client.go:1202-1218 | Both fields, lengths that disagree or are none, or an ill-formed list of codings are refused for every way of cutting |
| ParamBisection.DiscoverParamHits | pkg/engine/paramfuzz.go:423-460 | The recursion with its chunk loop finds the hits, with the number of probes, of the bisection function |
| ParamBisection.FiftyAtATime | pkg/engine/paramfuzz.go:434-444 | Up to fifty candidates are one bisection, and more go on behind the first fifty |
| ParamBisection.DiscoverSound | pkg/engine/paramfuzz.go:446-459 | Whatever the server does, every hit is one candidate whose own probe matched, with that response, in candidate order |
| ParamBisection.DiscoverCompleteIff | pkg/engine/paramfuzz.go:446-459 | The hits equal those of probing every candidate exactly when no probed set hides a member that matches alone |
| ParamBisection.AdditiveComplete | pkg/engine/paramfuzz.go:423-460 | If a set matches exactly when some member does, the hits are exactly the matching candidates |
| ParamBisection.BisectCost | pkg/engine/paramfuzz.go:446-459 | A chunk of n candidates with k matches costs at most 1 + 2k * ceil(log2 n) probes |
| ParamBisection.CeilLog2Is | pkg/engine/paramfuzz.go:456 | The logarithm in the bound is the least exponent whose power of two reaches the size of the chunk |
| ParamBisection.DiscoverCost | pkg/engine/paramfuzz.go:434-444 | The whole list costs at most one probe a chunk and twelve for each match |
| RateLimiter.ToolRateLimiter.Allow | cmd/mcp/main.go:114-140 | Only the entry of the tool changes, to the pruned calls and the new one if it is allowed |
| RateLimiter.SortSearch | cmd/mcp/main.go:122-125 | The binary search loop computes the search function |
| RateLimiter.SearchSplits | cmd/mcp/main.go:122-125 | On ordered calls the search separates those up to the cutoff from those after it |
| RateLimiter.WindowHoldsLimit | cmd/mcp/main.go:114-140 | For every run of non-decreasing times no window of length W holds more than Limit allowed calls |
| RateLimiter.RefusedIff | cmd/mcp/main.go:129-136 | A call is refused exactly when Limit calls were allowed in the last window |
| RateLimiter.RetryAfterIsLeast | cmd/mcp/main.go:130-134 | retryAfter is positive and exactly the least wait after which the call is allowed |
| ScopeIndex.CompileAssets | pkg/scope/validator.go:75-112 | The index holds exactly the keys of eligible URL assets with a host, the eligible wildcards and the parsable eligible networks |
| ScopeIndex.AnyMatch | pkg/scope/validator.go:147-161 | The loops over networks and wildcards find out whether one of the elements matches |
| ScopeIndex.IsAllowed | pkg/scope/validator.go:127-167 | Two key lookups and two loops decide whether the index covers the target |
| ScopeIndex.IsTargetAllowed | pkg/scope/validator.go:119-124 | A target is allowed exactly when some eligible asset matches it by the rule of its type |
| ScopeIndex.IndexAgrees | pkg/scope/validator.go:126-167 | The compiled index and linear matching decide the same for every target |
| ScopeIndex.KeysInjective | pkg/scope/validator.go:91-97 | Host and port keys are injective: bracketed IPv6 hosts, plain hosts and any-port keys never meet |
| ScopeIndex.KeysDecide | pkg/scope/validator.go:134-145 | The specific and the any-port lookup together find exactly the URL matches |
| ScopeForms.WildcardIff | pkg/scope/validator.go:279-296 | A wildcard covers exactly the hosts that end in a dot and its base, with whatever before, on its port if it has one |
| ScopeForms.WrittenAssetCovers | pkg/scope/validator.go:204-296 | A host written as a URL asset covers that host and no other, and written as a wildcard exactly the hosts below it, on its port if it has one |
| ScopeForms.HostAndPort | pkg/scope/validator.go:237-247 | Host and port of an asset are read apart, whatever path, query or fragment follows |
| ScopeForms.Brackets | pkg/scope/validator.go:227-236 | A bracketed address is read with or without its port |
| ScopeForms.BareAddress | pkg/scope/validator.go:237-247 | An address with several colons and no brackets is a host without a port |
| ScopeForms.WebTarget | pkg/scope/validator.go:174-199 | A target with http or https is parsed as it is |
| ScopeForms.OtherTarget | pkg/scope/validator.go:174-186 | Any other scheme is refused, one in capitals too, and a name before digits is a host with its port |
| ScanEstimate.RecursiveWorst | pkg/engine/engine.go:1479-1497 | The estimate is the sum of jobs^(d+1) over the depths, capped at 10^9 and flagged exactly when the sum is larger, and no intermediate value leaves 64 bits |
| ScanEstimate.EndsIff | pkg/engine/engine.go:1482-1495 | In arithmetic that wraps the loop ends exactly when there are jobs or the depth is not the largest 64-bit integer |
| ScanEstimate.GuardExact | pkg/engine/engine.go:1483 | The division guard decides exactly whether the product would pass the cap |

## Left out

- JobProtocol: liveness is not modelled (workers may leave when the scan context is cancelled, so Wait, Shutdown and a restart may block); what holds if they return is proved, and that they can run through.
- JobProtocol: submissions from outside the engine during Wait, and Shutdown or KickoffScanner concurrent with ChangeWordlist, are assumed away; Wait concurrent with a restart is modelled.
- JobProtocol: the engine's methods are steps of a transition system and not methods of a class, because their interleaving is the point; the job queue in it is a multiset, and `QueueSystem` has its order.
- JobProtocol: the semaphores and the context checks that only make a goroutine do less are not modelled, nor is a scanner wait left open when no scan context exists at KickoffScanner.
- JobProtocol: a passive scanner may start any number of fetchers at any time, more than the two or three of the engine.
- JobProtocol: hidden-parameter tasks and their channel, replay workers, Nuclei and worker resizing have no part in it; parameter tasks never submit jobs.
- JobProtocol: the Bloom filter is a set that may report false positives; hashing and sharding are not modelled.
- JobHeap: `container/heap` is modelled from its documented algorithm; heap.Fix and heap.Remove are not used by the queue.
- JobQueue: `ChannelQueue` and fairness among waiting goroutines.
- DiscoveryGraphs: ids are numbers with 0 for the empty id, fresh ids are given by the caller, and signatures and action keys are the tuples they are built from (no hash collision, no separator inside a part).
- DiscoveryGraphs: timestamps, lifecycle, budgets, circuit breakers, the negative cache, action completion, snapshots and the DOT and JSON exports; an event without an id gets a fresh one.
- Simhash: computing a fingerprint from a body; Clear forgets seeds too.
- SwarmAggregation: identity key and fingerprint of a result are given; the distribution of jobs to swarm workers.
- ChunkedBody.DechunkBody: white space and letter case outside ASCII are not modelled.
- ResponseFraming.ParseRawResponse: content decoding (gzip, deflate, brotli), rebuilding Raw, the status code as part of the result and merging trailers into the header map are not modelled; white space and letter case outside ASCII neither.
- ResponseDelivery.ChunkedWhole: one direction only; `ChunkedIff` has both for what is read, and a body cut short may by chance decode to the same data.
- ParamBisection: the probe is a fixed function of the candidate set; building requests, noise controls and request errors inside it are its business, and a server that answers differently each time is not covered.
- RateLimiter: the rule of a tool stays the same over a run, and times do not decrease.
- ScopeIndex: parsing of URLs, addresses and networks, trimming and lower-casing are arbitrary functions of which only the shape of a parsed port is used; the text of the reason is not modelled.
- ScanEstimate.RecursiveWorst: the one input on which the loop does not end, no jobs at the largest possible depth, is excluded; `EndsIff` states it.
- ScanEstimate: counting the jobs of a wordlist.
- Everything else: request building and TLS, WAF and 403 heuristics, harvesting of paths from responses, campaigns, knowledge, playbooks, replay, reports, monitoring, the terminal and web interfaces and the command line are not part of this model.
