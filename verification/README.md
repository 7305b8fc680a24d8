# Mallob's decentralised scheduling layer in Dafny

Mallob schedules malleable jobs without a central scheduler: every process balances, matches and suspends on its
own, by exchanging messages. This project models that layer and proves what its protocols promise for every run,
every number of processes and every input. `dafny verify dfyconfig.toml` checks all of it.

An object which the program updates in place is a class here, and a loop stays a loop. Its methods are proved
against functions on values, and these functions are the steps of the protocols, whose runs are then reasoned about:
messages lie in channels and are delivered one at a time, timers fire whenever they like, random draws are inputs.

| files | what is modelled |
|---|---|
| `JobTreeIndex`, `JobNodes`, `ChildSessions`, `SessionReactions`, `LocalScheduling`, `SchedulerObjects` | lists of inactive job nodes; sessions with children, and exactly what they ask for and release; the local scheduler of a job node, as functions and as objects |
| `PackageTokens`, `Reactivation`, `Conservation`, `RecordAges`, `AgingRun`, `Suspensions`, `Deliveries`, `SchedulerRequests` | the reactivation protocol of all schedulers of a job, its invariant and its runs; the requests, releases and packages of a scheduler |
| `InOrderTree`, `Monoids`, `DensePrefixSum`, `SparsePrefixSum`, `AsyncCollectives` | the in-order communication tree, all-reductions and prefix sums to which all contribute once, sparse prefix sums in many rounds, and the object behind them |
| `Sums`, `BalancingEntries`, `ExcessCalculation`, `EntryOrder`, `Assignments`, `FairShares`, `VolumeCalculators`, `BalancingResult` | fair volumes for all jobs by a root search over a multiplier |
| `RequestMatching`, `MatchingRuns`, `SentRequests`, `BulkRequests` | matching idle workers with requests by global indices; which requests are sent; requests which multiply |
| `Pigeonhole`, `Feistel`, `ExpanderGraphs`, `Routing` | pseudorandom permutations, disjoint permutations as the edges of a graph, next-hop tables |
| `JobEvents`, `EventMaps`, `BalancerTree`, `BalancerProtocol`, `EndedJobs`, `RevivedJob`, `Balancers` | maps of epoch-stamped events, and the reduction and broadcast of events to all workers, as a protocol and as objects |
| `DistributedTermination` | the order to exit, flooded up and down a tree |
| `ExternalBlocks`, `ExternalInvariants`, `ExternalMemories` | lists of objects by address in blocks of a file |

## Main results

* **Reactivation.** In every run, `childHasNodes` of a session is set exactly if one package is outstanding for that
  child, and no arriving package ever meets an existing session (`ExactlyOnePackage`). No inactive rank is ever
  forgotten unless it was marked lost or freed (`NoRankIsForgotten`), and every node which suspends is on record from
  then on under the same condition (`SuspendedIsRemembered`). There are at most three deliveries for each child which
  joins (`DeliveriesEnd`), and a suspension which has begun everywhere ends with all records in the root's two
  sessions (`SuspensionCompletes`). In every run, a new balancing result makes a scheduler emit exactly one request
  for each child which is missing, within the volume and without nodes, and to the first usable node of the child's
  index (`RequestsInRun`). Two promises one might expect are false. A record can be replaced by an older one:
  `RejectionCanAge` is a run which does so, and `RejectionAgesExactly` and `JoiningAgesExactly` give the exact
  conditions. Returned nodes can be attributed to the wrong child: `SameRankConfusesReturns` is an example,
  `ReturnSideExactly` the exact condition.
* **Prefix sums.** For every communicator size and every order of delivery, every rank gets the rank-ordered
  aggregates over any monoid, commutative or not. In the sparse form, the intervals of one broadcast tile the total,
  every contribution is counted in exactly one broadcast, and each process's contributions count in the order made.
* **Volumes.** The search for the multiplier ends on all inputs, its assertions hold, and with more workers than jobs
  the volumes lie between one and the demand, add up to exactly what is available or demanded, and respect strict
  priorities; among equal priorities a larger demand gets less by at most one worker. The volumes are proportional to
  the priorities: there are two multipliers at which the rounded and clamped products differ by one at most, and each
  job has one of the two products, the larger one only if all jobs of higher priority do (`ComputeVolumes`).
* **Matching.** All processes keep the same counters, and every matching ID gets exactly one idle worker and exactly
  one request. The requests which a process sends are those contributed to it, unchanged and in order, and all of them
  once there are as many idle workers (`ContributedAreSent`). A bulk request multiplies into exactly the missing nodes
  of its subtree, with consecutive IDs.
* **Permutations and routing.** The Feistel network with cycle walking is a bijection for every size and all round
  tables; the tables undo the rounds, and can send any number to any other one. Whatever swaps are drawn, the
  permutations differ everywhere, and a suitable swap exists at all times exactly because there are at most half as
  many permutations as nodes (`HalfIsExact`). Each process following only its own next-hop table reaches the current
  root in the shortest possible number of hops.
* **Balancing.** Workers of the same balancing epoch hold the same event state, no event is lost, and a run which has
  come to rest leaves every worker with the newest event of every job, unless this event says that the job has ended.
  One might expect every worker to have forgotten such a job, but this is false in general: `ZeroIsForgotten` is a run
  which ends with an older event everywhere. `ForgottenExactly` and `EndedAtRest` give the exact condition on the
  broadcasts. Every worker does end up with the last event of a job, or with nothing if it says that the job has
  ended, if the job's events have increasing epochs and are pushed at another rank only after some worker has digested
  the event before (`HandedOverAtRest`). The code keeps to this: the process which is probed for a new job pushes
  epoch 1, the job's root is only requested when this process digests its own event, and all further events come from
  the root.
* **Termination.** When no message is under way, no process or every process has been triggered, after no more than
  2(n-1) deliveries.
* **External memory.** The block allocator behaves like a list of objects per address.

## Model

| member | source | states |
|---|---|---|
| `JobNodes.ExtractSubtree` | src/scheduling/job_scheduling_update.hpp:105-130 | the nodes taken out are exactly those whose index lies in the (strict) subtree of the root, the others stay, for every root |
| `JobTreeIndex.LayersAreSubtree` | src/scheduling/job_scheduling_update.hpp:107-125 | an index lies in one of the doubling index ranges of the loop if and only if its chain of parents meets the root |
| `JobTreeIndex.LayersBelowRoot` | src/scheduling/job_scheduling_update.hpp:107-125 | starting one layer further down leaves out exactly the root |
| `JobNodes.Split` | src/scheduling/job_scheduling_update.hpp:260-298 | the loop computes the two parts of `SplitParts`, which together are the given nodes |
| `JobNodes.SplitRespectsSubtrees` | src/scheduling/job_scheduling_update.hpp:260-298 | every node is in exactly one part; nodes below the left child go left and nodes below the right child go right |
| `JobNodes.SplitDealsEvenly` | src/scheduling/job_scheduling_update.hpp:260-298 | the nodes above the children, which come first in the list, are dealt out so that the left part has as many as the right part or one less |
| `JobNodes.SplitGoesOn` | src/scheduling/job_scheduling_update.hpp:260-298 | where a node goes does not depend on the nodes after it, so the even deal is kept while the descendants follow |
| `JobNodes.CleanUpStatuses` | src/scheduling/job_scheduling_update.hpp:132-143 | lost nodes are dropped, all others are kept and available, in order |
| `JobNodes.FilterDuplicates` | src/scheduling/job_scheduling_update.hpp:145-172 | exactly the newest record of each rank remains, the first in order among equally new ones |
| `JobNodes.MergePreferringNewer` | src/scheduling/job_scheduling_update.hpp:88-91 | the union of both lists, with one record per rank |
| `JobNodes.MergeKeepsNewest` | src/scheduling/job_scheduling_update.hpp:88-91 | after merging, each rank of either list has exactly one record, and its epoch is the maximum of that rank |
| `ChildSessions.UpdateKeepsRanks` | src/scheduling/session.hpp:177-200 | updating a node drops no rank, and a record is replaced only by one of the same rank which is no older or has the epoch of the update |
| `ChildSessions.BalancingUpdateAnswersEveryone` | src/scheduling/session.hpp:35-63 | after a balancing update either nobody is left available, or a request went to an available node with the child's index, or it went out undirected after all nodes with that index were released |
| `ChildSessions.RecruitedExactly` | src/scheduling/session.hpp:140-163 | a directed request goes out if and only if a suitable node is available and fewer than four have been asked; otherwise the request is undirected |
| `SessionReactions.BalancingUpdateExactly` | src/scheduling/session.hpp:35-63 | for a newer epoch: a request goes out if and only if the child is missing, within the volume and without nodes; it is directed if and only if a record of the child's index is not lost, and goes to the first of these; otherwise exactly the nodes within the volume are released; epoch, volume and every status of the new session |
| `SessionReactions.FindsNewest` | src/scheduling/session.hpp:177-186 | the record found has this rank and index, and none of them is newer |
| `SessionReactions.UpdatedExactly` | src/scheduling/session.hpp:177-200 | exactly the record found is replaced by one with the new epoch and status, unless such a record exists; the others stay |
| `SessionReactions.RejectionExactly` | src/scheduling/session.hpp:73-78 | another request goes out if and only if the child is still wanted; it is directed if and only if somebody else can be asked and fewer than four have been; otherwise exactly the remaining candidates are released |
| `SessionReactions.JoiningExactly` | src/scheduling/session.hpp:80-104 | the session waits for the nodes of the child, nobody stays available, and exactly the available nodes outside of the child's subtree, apart from the child itself, are released |
| `SessionReactions.RemovalExactly` | src/scheduling/session.hpp:129-136 | exactly the record with this rank, index and epoch is removed |
| `SchedulerObjects.ChildInterface.constructor` | src/scheduling/session.hpp:24-27 | a new session has the given nodes and no child |
| `SchedulerObjects.ChildInterface.HandleBalancingUpdate` | src/scheduling/session.hpp:35-63 | state, directive and releases are those of the balancing step of a session: with `SessionReactions.BalancingUpdateExactly`, a request goes out if and only if the child is wanted |
| `SchedulerObjects.ChildInterface.AddJobNodesFromSuspendedChild` | src/scheduling/session.hpp:66-71 | the nodes are merged, and the child's package is no longer outstanding |
| `SchedulerObjects.ChildInterface.HandleRejectionOfPotentialChild` | src/scheduling/session.hpp:73-78 | the record found becomes lost or busy with the given epoch, and the next candidate is asked only if a child is still wanted |
| `SchedulerObjects.ChildInterface.HandleChildJoining` | src/scheduling/session.hpp:80-104 | the package holds the cleaned nodes strictly below the child; what remains is released |
| `SchedulerObjects.ChildInterface.RemoveNode` | src/scheduling/session.hpp:129-136 | exactly the record with this rank, index and epoch is gone |
| `SchedulerObjects.ChildInterface.RecruitChild` | src/scheduling/session.hpp:140-163 | the first available node with the child's index is asked, unless four have been asked already |
| `SchedulerObjects.ChildInterface.NotifyRemainingInactiveNodes` | src/scheduling/session.hpp:165-175 | exactly the available nodes (of one index) are released and busy from then on |
| `SchedulerObjects.ChildInterface.FindAndUpdateNode` | src/scheduling/session.hpp:177-200 | the newest record with this rank and index gets the new epoch and status |
| `SchedulerObjects.LocalScheduler.InitializeScheduling` | src/scheduling/local_scheduler.hpp:73-102 | a past update goes back unchanged; any other one is distributed over two new sessions, provided there are none yet |
| `SchedulerObjects.LocalScheduler.UpdateBalancing` | src/scheduling/local_scheduler.hpp:105-122 | stale epochs are ignored; both sessions are updated, and their requests and releases are returned, as `SchedulerRequests` states exactly; a node outside the volume begins to suspend |
| `SchedulerObjects.LocalScheduler.BeginSuspension` | src/scheduling/local_scheduler.hpp:124-133 | the epoch is remembered, and nodes are returned at once if no child has nodes |
| `SchedulerObjects.LocalScheduler.ReturnInactiveJobNodesToParent` | src/scheduling/local_scheduler.hpp:240-271 | one package with the merged nodes and this node itself, without lost ones; both sessions are closed |
| `SchedulerObjects.LocalScheduler.ResumeAsRoot` | src/scheduling/local_scheduler.hpp:198-216 | the nodes of both sessions are distributed anew over two fresh sessions |
| `SchedulerObjects.LocalScheduler.Handle` | src/scheduling/local_scheduler.hpp:135-156 | the handlers of both kinds of packages, followed by the return or resumption which has become possible |
| `SchedulerObjects.LocalScheduler.HandleRejectReactivation` | src/scheduling/local_scheduler.hpp:158-165 | the session of the child's index handles the rejection; without such a session nothing happens |
| `SchedulerObjects.LocalScheduler.HandleChildJoining` | src/scheduling/local_scheduler.hpp:167-173 | the session of the child's index sends its package |
| `SchedulerObjects.LocalScheduler.HandleNodeFreed` | src/scheduling/local_scheduler.hpp:175-180 | the record is removed from both sessions |
| `SchedulerObjects.LocalScheduler.BeginResumptionAsRoot` | src/scheduling/local_scheduler.hpp:190-196 | the root resumes at once if no child has nodes, and remembers to do so otherwise |
| `SchedulerObjects.LocalScheduler.ResetRole` | src/scheduling/local_scheduler.hpp:294-299 | epochs and sessions are forgotten |
| `SchedulerRequests.UpdateRequestsExactly` | src/scheduling/local_scheduler.hpp:105-122 | a new balancing result: exactly one request for each child which is missing, within the volume and without nodes, with the right side, the new epoch, and the rank of the first usable record of this index or -1 |
| `SchedulerRequests.OpeningRequestsExactly` | src/scheduling/local_scheduler.hpp:73-102 | opening sessions: exactly one such request for each child within the volume, once a volume is known |
| `SchedulerRequests.RejectionRequestsExactly` | src/scheduling/local_scheduler.hpp:158-165 | a rejection: exactly one request for this child, with the epoch of its session, if the child is still wanted, and none otherwise; it goes to another candidate, or to anyone after four |
| `SchedulerRequests.ForeignRejection` | src/scheduling/local_scheduler.hpp:158-165 | a rejection for an index without a session changes nothing and emits nothing |
| `SchedulerRequests.NoRequests` | src/scheduling/local_scheduler.hpp:105-122 | a stale result, or one which meets a suspending or suspended scheduler, makes nobody do anything |
| `SchedulerRequests.UpdateReleasesExactly` | src/scheduling/local_scheduler.hpp:105-122 | a new balancing result releases exactly the nodes within the volume, not lost, on the sides which want no child |
| `SchedulerRequests.OpeningReleasesExactly` | src/scheduling/local_scheduler.hpp:73-102 | opening sessions releases exactly the nodes within the volume on the sides outside of it |
| `SchedulerRequests.RejectionReleasesExactly` | src/scheduling/local_scheduler.hpp:158-165 | a rejection releases exactly the remaining candidates, if four have been asked |
| `SchedulerRequests.JoiningReleasesExactly` | src/scheduling/local_scheduler.hpp:167-173 | a joining child gets one package, with its epoch, the volume of the session and the nodes below it |
| `SchedulerRequests.FreedExactly` | src/scheduling/local_scheduler.hpp:175-180 | a freed node is removed from both sessions, and no other node is |
| `SchedulerRequests.ReturningExactly` | src/scheduling/local_scheduler.hpp:240-271 | one package for the scheduler of the parent, with exactly the nodes which are not lost, and this node with the last epoch |
| `SchedulerRequests.PastExactly` | src/scheduling/local_scheduler.hpp:73-133 | after a suspension, a package goes back unchanged if and only if it is not newer than the suspension, or than anything seen if no epoch was given |
| `SchedulerRequests.ResetOpensAll` | src/scheduling/local_scheduler.hpp:294-299 | after a reset any package is opened, with the requests of its own epoch and volume |
| `SchedulerRequests.ResumptionExactly` | src/scheduling/local_scheduler.hpp:190-216 | the root resumes if and only if no child has nodes, with exactly one request for each child within the volume; before, it only remembers to resume |
| `PackageTokens.Bounce` | src/core/reactivation_scheduler.hpp:86-97 | returning a package for an unknown scheduler to its sender keeps the invariant: one token per child index, in one place |
| `Reactivation.StepKeeps` | src/core/reactivation_scheduler.hpp:32-97 | every step of start, resumption, commitment, joining, rejection, balancing, suspension, forgetting, freeing and delivery keeps the invariant |
| `Reactivation.InvIsSafe` | src/scheduling/local_scheduler.hpp:89-92 | the invariant implies the assertions of the code: an arriving package never finds an existing session |
| `Conservation.ExactlyOnePackage` | src/scheduling/local_scheduler.hpp:73-271 | in every reachable state both sessions exist if and only if the scheduler is not suspended, and a session's `childHasNodes` holds if and only if exactly one package is outstanding for that child, otherwise none is |
| `Conservation.OneActiveSchedulerPerIndex` | src/core/reactivation_scheduler.hpp:32-97 | at no time are two schedulers of the same index active |
| `SchedulerRequests.RunTimely` | src/scheduling/local_scheduler.hpp:73-122 | in every run, no session knows a newer balancing result than its scheduler |
| `SchedulerRequests.RequestsInRun` | src/scheduling/local_scheduler.hpp:105-122 | in every reachable state, a new balancing result makes a scheduler which is neither suspending nor suspended emit exactly one request for each child which is missing, within the volume and without nodes |
| `Conservation.StepConserves` | src/scheduling/session.hpp:66-104 | in each step, a recorded rank stays recorded in a session or package with no older epoch (or the epoch which an update wrote), unless it is lost or freed |
| `Conservation.NoRankIsForgotten` | src/scheduling/local_scheduler.hpp:73-271 | the same between any two points of any run; the record is not replaced by an older one unless an event in between found a record of this very rank and wrote an older epoch into it |
| `Suspensions.SuspendedIsRemembered` | src/scheduling/local_scheduler.hpp:240-271 | in every run, whenever an inner node's scheduler suspends, its own rank is on record at every later point before it is marked lost or freed |
| `Suspensions.UpdateSuspendsExactly` | src/scheduling/local_scheduler.hpp:105-122 | a new balancing result suspends a node if and only if it is not the root and lies outside of the volume |
| `Conservation.SuspensionCompletes` | src/scheduling/local_scheduler.hpp:218-271 | in every run, once all inner schedulers are suspending and no package is in flight, all of them are suspended, no session waits for a child, and every record is in one of the root's two sessions |
| `Deliveries.DeliveriesEnd` | src/scheduling/local_scheduler.hpp:73-271 | between any two points of any run there are no more deliveries than were pending at first, plus three for each child which joined in between |
| `Deliveries.ThreePerJoin` | src/scheduling/local_scheduler.hpp:73-271 | a run has at most three deliveries for each child which joins |
| `Deliveries.AllReturned` | src/scheduling/local_scheduler.hpp:218-271 | if no child joins, then after as many deliveries as were pending no package is in flight and all inner schedulers are suspended |
| `RecordAges.RejectionAgesExactly` | src/scheduling/session.hpp:73-78 | in every run and for every session, a rejection replaces no record by an older one if and only if its epoch is no older than that of the record it finds |
| `RecordAges.JoiningAgesExactly` | src/scheduling/session.hpp:80-104 | the same for what remains in a session when a child joins |
| `RecordAges.OneRecordPerRank` | src/scheduling/local_scheduler.hpp:73-271 | in every run, every session and every package to a child has at most one record per rank |
| `AgingRun.RejectionCanAge` | src/scheduling/session.hpp:73-78 | a run of eight events in which a child returns its record and a later rejection lowers the record's epoch, with no newer record of this rank left anywhere |
| `Conservation.ReturnSideExactly` | src/scheduling/local_scheduler.hpp:320-331 | a returning child is attributed to its own session if and only if the children are on different ranks or it is the left one |
| `Conservation.SameRankConfusesReturns` | src/scheduling/local_scheduler.hpp:320-331 | with both children on one rank, nodes returned by the right child are attributed to the left one |
| `InOrderTree.SetUpCommunicationTree` | src/comm/async_collective.hpp:543-572 | the loops compute the parent, left and right child of the in-order tree, for every size |
| `InOrderTree.LeftSubtree` | src/comm/async_collective.hpp:559-562 | there is a left child if and only if the block of a rank begins before it; the child's block ends right before the rank, and its parent is the rank |
| `InOrderTree.RightSubtree` | src/comm/async_collective.hpp:563-571 | there is a right child if and only if the block ends after the rank; its block begins right after the rank and ends with the rank's block |
| `InOrderTree.ParentHasChild` | src/comm/async_collective.hpp:552-557 | parent and child ranks are mutually inverse |
| `InOrderTree.SubtreeIsBlock` | src/comm/async_collective.hpp:541-572 | the ranks below a rank are exactly a contiguous block, cut at the size |
| `InOrderTree.OneTree` | src/comm/async_collective.hpp:541-572 | there is exactly one root, and all ranks are below it |
| `DensePrefixSum.ResultsAreRight` | src/comm/async_collective.hpp:104-112 | for any order of starts and deliveries and any monoid, each published result is what its mode promises: the rank-ordered aggregates over the ranks before, up to and all |
| `DensePrefixSum.OperationCompletes` | src/comm/async_collective.hpp:328-369 | once all processes have joined and no message is in flight, every rank has its result |
| `DensePrefixSum.StepKeeps` | src/comm/async_collective.hpp:437-519 | the invariant of all processes and messages, kept by every step |
| `SparsePrefixSum.ResultsArePrefixSums` | src/comm/async_collective.hpp:467-519 | in every FIFO run, the n-th result of a rank is the exclusive, inclusive and total aggregate of what each rank contributed to the n-th broadcast |
| `SparsePrefixSum.IntervalsTile` | src/comm/async_collective.hpp:467-519 | within one broadcast the results of neighbouring ranks meet, the first begins with the neutral element and the last ends with the total |
| `SparsePrefixSum.CountedInOrder` | src/comm/async_collective.hpp:259-269 | what has been counted of a process is a prefix of its contributions in the order made, so none counts twice |
| `SparsePrefixSum.QuietMeansCounted` | src/comm/async_collective.hpp:272-321 | when nothing is pending, all contributions have been counted, each in one broadcast |
| `SparsePrefixSum.AllPublished` | src/comm/async_collective.hpp:401-423 | in every run, when no broadcast is under way, every process has published one result for each broadcast of the root, and it is its part of the prefix sums |
| `SparsePrefixSum.BundleIsBlock` | src/comm/async_collective.hpp:117-134 | a bundle aggregates exactly the contributions of its subtree to that broadcast, in rank order |
| `SparsePrefixSum.SlotFilled` | src/comm/async_collective.hpp:381-396 | contributions of one kind fill the bundles without a gap |
| `AsyncCollectives.AsyncCollective.constructor` | src/comm/async_collective.hpp:543-572 | the object's parent, children and number of desired contributions are those of the in-order tree |
| `AsyncCollectives.AsyncCollective.InitOp` | src/comm/async_collective.hpp:328-342 | the object's step when its process joins, in terms of the protocol |
| `AsyncCollectives.AsyncCollective.HandleUp` | src/comm/async_collective.hpp:357-362 | its step for a contribution of a child |
| `AsyncCollectives.AsyncCollective.HandleDown` | src/comm/async_collective.hpp:365-369 | its step for a result: what goes to the children and what is published; the call is forgotten |
| `AsyncCollectives.AsyncCollective.Forward` | src/comm/async_collective.hpp:437-465 | the aggregate goes to the parent, or starts the broadcast at the root with what the mode needs |
| `AsyncCollectives.AsyncCollective.Contribute` | src/comm/async_collective.hpp:259-269 | the loop finds the first bundle not sent yet with a free slot |
| `AsyncCollectives.AsyncCollective.HandleSparseUp` | src/comm/async_collective.hpp:381-399 | the same for the contribution of a child; the attempt to advance which follows is a step of its own |
| `AsyncCollectives.AsyncCollective.AdvanceSparse` | src/comm/async_collective.hpp:272-321 | the bundle in preparation is sent up or, at the root, broadcast, and the next one is begun |
| `AsyncCollectives.AsyncCollective.HandleSparseDown` | src/comm/async_collective.hpp:401-423 | messages to the children carry their own contribution IDs; the previous-previous bundle is erased |
| `BalancingEntries.VolumeIsClamped` | src/balancing/balancing_entry.hpp:26-35 | in spite of its overflow protection, the volume is the floor of multiplier times fair share, clamped to one and the demand |
| `BalancingEntries.VolumeMonotone` | src/balancing/balancing_entry.hpp:26-35 | the volume never decreases with the multiplier |
| `BalancingEntries.VolumeIsFair` | src/balancing/balancing_entry.hpp:26-35 | no less share and no less demand mean no less volume |
| `BalancingEntries.VolumeSpread` | src/balancing/balancing_entry.hpp:26-43 | if volumes at two multipliers differ by two, the distance times the share exceeds one |
| `BalancingEntries.Dismissed` | src/balancing/balancing_entry.hpp:45-69 | both entries' jobs and volumes change places, the active one keeps its cached bounds, and `originalDemand` stays at its position |
| `FairShares.SearchRange` | src/balancing/volume_calculator.hpp:115-144 | the initial range contains one and the centre of mass; at its ends all volumes are one, and all demands are met |
| `FairShares.CappingIsHarmless` | src/balancing/volume_calculator.hpp:126-127 | capping demands does not change the smaller of the available volume and the sum of demands |
| `FairShares.AllShares` | src/balancing/volume_calculator.hpp:124-125 | the fair shares add up to the available volume |
| `ExcessCalculation.ConsideredKeeps` | src/balancing/volume_calculator.hpp:257-283 | one turn of the loop, with cached bounds, dismissal by swapping and the guarded sum, keeps utilisation and dismissed volumes right |
| `ExcessCalculation.CachedIsRight` | src/balancing/volume_calculator.hpp:260-276 | equal volumes at both bounds are the volume in between |
| `EntryOrder.SortedFacts` | src/balancing/volume_calculator.hpp:94-113 | sorting permutes the entries and orders them by the comparator |
| `EntryOrder.SortedByKeys` | src/balancing/volume_calculator.hpp:94-113 | higher priorities come first, then larger original demands, then smaller hashes |
| `EntryOrder.SortingIsCanonical` | src/balancing/volume_calculator.hpp:94-113 | the same entries, in whatever order they are given, are sorted into the same list, so all processes agree |
| `Assignments.OneMoreIsBalanced` | src/balancing/volume_calculator.hpp:177-213 | one more worker for the first jobs in order of priority keeps bounds and fairness and reaches exactly the available volume |
| `Assignments.OneMoreIsUniform` | src/balancing/volume_calculator.hpp:177-213 | each volume is that at the left or at the right multiplier, which differ by one at most, and the larger one is given in order of priority |
| `VolumeCalculators.WideRange` | src/balancing/volume_calculator.hpp:146-233 | while some job differs by two between the bounds, every halving lowers the floor of the range's width times the available volume |
| `VolumeCalculators.VolumeCalculator.ComputeFairShares` | src/balancing/volume_calculator.hpp:115-144 | shares, capped demands, range, centre of mass and sum of demands of all entries |
| `VolumeCalculators.VolumeCalculator.CalculateExcess` | src/balancing/volume_calculator.hpp:240-291 | the excess is right, or negative if the guarded sum stopped early; the entries are permuted, and the cache is that of the new range |
| `VolumeCalculators.VolumeCalculator.ChooseNext` | src/balancing/volume_calculator.hpp:215-232 | the next range and multiplier; within a phase the measure decreases |
| `VolumeCalculators.VolumeCalculator.FinishBalanced` | src/balancing/volume_calculator.hpp:177-213 | the last round meets its assertions and leaves a balanced assignment |
| `VolumeCalculators.VolumeCalculator.SearchMultiplier` | src/balancing/volume_calculator.hpp:146-238 | the search ends on every searchable input, with volumes within bounds, fair, and adding up to exactly the available volume |
| `VolumeCalculators.VolumeCalculator.CalculateResult` | src/balancing/volume_calculator.hpp:62-83 | in all three cases: nothing changes with too many jobs; otherwise volumes are within demand, fair, those at one of two multipliers of the shares, and use the smaller of available and demanded volume |
| `BalancingResult.ComputeVolumes` | src/balancing/event_driven_balancer.cpp:239-263 | for every event map, each active job gets a volume from one to its demand, the sum is the smaller of available volume and all original demands (or one each with too many jobs), a job of strictly higher priority and no less demand never gets less, one of equal priority and no less demand gets less by at most one, and there are two multipliers such that each volume is the product of one of them and the priority, rounded down and clamped to one and the capped demand, and the two products differ by one at most |
| `RequestMatching.DestinationIsModulo` | src/balancing/prefix_sum_request_matcher.hpp:261-261 | the destination of a matching ID is its remainder modulo the number of processes |
| `RequestMatching.Matcher.Contribute` | src/balancing/prefix_sum_request_matcher.hpp:162-168 | new requests join those in the prefix sum, and their multiplicities are contributed |
| `RequestMatching.Matcher.DigestIdles` | src/balancing/prefix_sum_request_matcher.hpp:354-374 | offsets move on, old unmatched idles stay to be matched, and the own idle gets its global index |
| `RequestMatching.Matcher.DigestRequests` | src/balancing/prefix_sum_request_matcher.hpp:376-405 | the loop gives each own request, unchanged, the interval after the previous one; with `SentRequests.ContributedAreSent`, what is sent is what was contributed |
| `RequestMatching.Matcher.TryMatch` | src/balancing/prefix_sum_request_matcher.hpp:251-319 | the loop performs all matchings which are possible, and sends what this process has to send |
| `SentRequests.NothingIsDropped` | src/balancing/prefix_sum_request_matcher.hpp:162-168 | in every local run, what was contributed is the digested batches, in order, followed by what is still waiting |
| `SentRequests.ContributedAreSent` | src/balancing/prefix_sum_request_matcher.hpp:251-405 | in every local run, the job, node index and multiplicity of the requests sent, in order, are a prefix of those contributed, and all of the digested ones if there are as many idle workers as requests |
| `MatchingRuns.CountersAgree` | src/balancing/prefix_sum_request_matcher.hpp:172-200 | after every event of a shared sequence, idle offset plus matched, request offset plus matched and running ID are all the minimum of idles and requests so far |
| `MatchingRuns.EveryIdIsMatchedOnce` | src/balancing/prefix_sum_request_matcher.hpp:251-323 | for every matching ID exactly one process sends one idle token, and exactly one process sends one request covering it |
| `MatchingRuns.MessagesAreAddressed` | src/balancing/prefix_sum_request_matcher.hpp:259-306 | in every run, each idle token carries its sender's rank, and tokens and requests go to the matching ID modulo the number of processes, where they meet |
| `MatchingRuns.SentCounts` | src/balancing/prefix_sum_request_matcher.hpp:251-323 | a process sends exactly its own idle tokens and requests among the matchable IDs, none skipped and none twice |
| `MatchingRuns.IdleHasOwner` | src/balancing/prefix_sum_request_matcher.hpp:354-374 | every idle index belongs to some process |
| `MatchingRuns.IdleOwnerIsUnique` | src/balancing/prefix_sum_request_matcher.hpp:354-374 | and to only one, at one position |
| `MatchingRuns.RequestHasOwner` | src/balancing/prefix_sum_request_matcher.hpp:376-405 | every request index lies in the interval of some process |
| `MatchingRuns.RequestOwnerIsUnique` | src/balancing/prefix_sum_request_matcher.hpp:376-405 | and in only one interval |
| `BulkRequests.DesiredMultiplicity` | src/core/request_manager.hpp:288-309 | the search over an explicit stack counts the nodes of the subtree within the volume |
| `BulkRequests.MultiplicityIsExact` | src/core/request_manager.hpp:288-309 | the positions below the multiplicity are exactly those whose node index is within the volume |
| `BulkRequests.BulkRequestIsExact` | src/data/job_transfer.hpp:121-158 | a bulk request multiplies into as many requests as its multiplicity, for exactly the subtree's indices below the volume, with different matching IDs from its base on, each sent to its ID modulo the size |
| `BulkRequests.MultipliedOnce` | src/data/job_transfer.hpp:126-158 | no two of them have the same target position |
| `BulkRequests.AnnouncedMultiplies` | src/balancing/prefix_sum_request_matcher.hpp:261-282 | the request which the matcher sends multiplies into exactly the IDs of its interval |
| `BulkRequests.SingleRequest` | src/core/request_manager.hpp:288-309 | outside the volume the multiplicity is one |
| `Feistel.PassIsInjective` | src/util/permutation.cpp:237-252 | the rounds are injective on all m·m numbers, for all round tables |
| `Feistel.RoundTrip` | src/util/permutation.cpp:237-252 | subtracting the entries of the tables in reverse order undoes the rounds, for all tables |
| `Feistel.LastTableShifts` | src/util/permutation.cpp:237-252 | adding a number to the last table adds it to the upper half of every result, and leaves the lower half |
| `Feistel.EveryImageIsPossible` | src/util/permutation.cpp:237-252 | for two or more rounds and any two numbers below m·m there are permutations as tables which send one to the other |
| `Feistel.WalkIsShort` | src/util/permutation.cpp:237-270 | a walk outside the domain visits no number twice, so cycle walking ends |
| `Feistel.ImageIsInjective` | src/util/permutation.cpp:223-273 | different inputs have different images |
| `Feistel.ImagesArePermutation` | src/util/permutation.cpp:203-273 | the images of 0 to n-1 are a permutation of 0 to n-1 |
| `Feistel.ImageIsOnto` | src/util/permutation.cpp:203-273 | every number below n is an image |
| `Feistel.AdjustablePermutation.Get` | src/util/permutation.cpp:223-273 | the loops compute the adjusted value or the image under the rounds of all tables, also of inputs outside the domain |
| `Feistel.AdjustablePermutation.Adjust` | src/util/permutation.cpp:275-282 | exactly the value at this position changes |
| `ExpanderGraphs.CreateCycle` | src/util/permutation.cpp:22-35 | the first row is a permutation without fixed points and a single cycle |
| `ExpanderGraphs.CycleIsSingle` | src/util/permutation.cpp:22-35 | following the row from any node reaches every node |
| `ExpanderGraphs.FindSwap` | src/util/permutation.cpp:62-78 | the first draw for which the swap is valid at both positions is taken; none is found exactly if no remaining draw is suitable, and then all draws are used up |
| `ExpanderGraphs.RepairRow` | src/util/permutation.cpp:56-84 | repairing from left to right with the first suitable draws leaves a permutation which is valid everywhere; it fails only with all draws used up |
| `ExpanderGraphs.RepairedIsValid` | src/util/permutation.cpp:56-84 | what a repair ends in is a permutation which is valid everywhere |
| `ExpanderGraphs.GetPermutations` | src/util/permutation.cpp:18-100 | the result is that of completing the cycle row by row with the draws given; whenever there is one, all rows are permutations without fixed points, any two differ everywhere, and the first is a single cycle; with at most half as many permutations as nodes there is one as soon as the draws contain all positions often enough |
| `ExpanderGraphs.CompletedIsDisjoint` | src/util/permutation.cpp:18-100 | completed rows are disjoint permutations and extend the given ones |
| `ExpanderGraphs.SwapExists` | src/comm/randomized_routing_tree.hpp:36-41 | below the caller's bound of half as many permutations as nodes, every invalid value of every permutation can be swapped with some other one |
| `ExpanderGraphs.HalfIsExact` | src/comm/randomized_routing_tree.hpp:36-41 | this bound is exact: for all numbers of nodes and rows, a suitable swap always exists if and only if twice the number of rows, the new one included, is at most the number of nodes |
| `ExpanderGraphs.NoDrawsSuffice` | src/util/permutation.cpp:56-84 | beyond the bound there are, for all numbers of nodes and rows, disjoint rows and a permutation which no draws can repair |
| `ExpanderGraphs.EnoughDraws` | src/util/permutation.cpp:18-100 | within the bound, all rows are completed if the draws have one block with every possible draw for each position of each further row |
| `ExpanderGraphs.RowsDiffer` | src/util/permutation.cpp:40-47 | two different rows differ at every position |
| `ExpanderGraphs.IngoingEdges` | src/util/permutation.cpp:18-100 | every node has one ingoing edge per row, from different nodes: the graph is regular in both directions |
| `Routing.First` | src/util/permutation.cpp:151-163 | the first unvisited node in the order of distance and tie-breaking hash |
| `Routing.Visit` | src/util/permutation.cpp:165-184 | relaxing all edges of a node keeps distances and first edges those of shortest walks |
| `Routing.BestOutgoingEdges` | src/util/permutation.cpp:143-199 | in a strongly connected graph, the entry for each node is the first edge of a shortest path |
| `Routing.RowsAreConnected` | src/util/permutation.cpp:22-35 | because of the first row the graph is strongly connected |
| `Routing.TablesFormTree` | src/comm/randomized_routing_tree.hpp:62-69 | following each process's own table towards the root reaches it after exactly the shortest distance, and not before |
| `Routing.RootsGoRound` | src/comm/randomized_routing_tree.hpp:62-65 | each process is the root for its own rank as hash value, and the roots repeat after as many values as there are processes |
| `Routing.EveryoneReachesRoot` | src/comm/randomized_routing_tree.hpp:62-69 | on the graph of the permutations, for every epoch and every process, following current parents reaches the current root on a shortest path |
| `Routing.HasDistance` | src/util/permutation.cpp:143-199 | connected nodes have a shortest distance |
| `EventMaps.EventMap.Aggregate` | src/balancing/event_map.hpp:73-113 | the simultaneous iteration takes, for each job, the event which `aggregate` prefers |
| `EventMaps.EventMap.InsertIfNovel` | src/balancing/event_map.hpp:124-132 | an event is inserted if and only if its epoch is not negative and exceeds that of the job's event |
| `EventMaps.EventMap.UpdateBy` | src/balancing/event_map.hpp:160-168 | all events of the other map are inserted if novel; a change is reported if and only if the events or the epoch have changed |
| `EventMaps.EventMap.FilterBy` | src/balancing/event_map.hpp:136-159 | aborts if and only if the maps hold different events of the same job and epoch; otherwise exactly the events which the other map knows no older are removed |
| `EventMaps.EventMap.RemoveOldZeros` | src/balancing/event_map.hpp:169-180 | exactly the events without demand and priority are removed |
| `EventMaps.UpdatedByFacts` | src/balancing/event_map.hpp:160-168 | for each job the updated map holds the newer of both events |
| `EventMaps.BothJoin` | src/balancing/event_map.hpp:73-168 | with consistent events and no negative epochs, both operations compute the join |
| `EventMaps.AgreeExactly` | src/balancing/event_map.hpp:73-168 | the exact condition under which both operations agree |
| `EventMaps.TheyDiffer` | src/balancing/event_map.hpp:73-168 | inputs on which they do not |
| `EventMaps.JoinLaws` | src/balancing/event_map.hpp:73-168 | the join of two events is idempotent, commutative on consistent events, and associative |
| `EventMaps.UpdateLaws` | src/balancing/event_map.hpp:160-168 | on whole maps, updates are idempotent and associative |
| `EventMaps.UpdatesCommuteExactly` | src/balancing/event_map.hpp:160-168 | two maps updated by each other become equal if and only if their events of equal epochs are equal and no event of a negative epoch stands alone |
| `EventMaps.MergeLaws` | src/balancing/event_map.hpp:73-113 | on whole maps, aggregation is idempotent and associative |
| `EventMaps.MergesCommuteExactly` | src/balancing/event_map.hpp:73-113 | it does not depend on the order of the maps if and only if their events of equal epochs are equal |
| `EventMaps.SameResult` | src/balancing/event_map.hpp:73-168 | the merged lists themselves are equal, and are the join |
| `BalancerTree.FindParent` | src/balancing/event_driven_balancer.cpp:34-46 | the loop finds the rank without its lowest set bit |
| `BalancerTree.FindChildren` | src/balancing/event_driven_balancer.cpp:48-61 | the loop lists exactly the ranks whose parent this is, each once, for every size |
| `BalancerTree.ReachesRoot` | src/balancing/event_driven_balancer.cpp:34-61 | parents lead from every rank to the root 0 |
| `BalancerProtocol.SameEpochSameState` | src/balancing/event_driven_balancer.cpp:171-237 | in every FIFO run, a worker's epoch is the number of broadcasts it has digested, and workers of the same epoch hold the same state |
| `BalancerProtocol.PushedIsSomewhere` | src/balancing/event_driven_balancer.cpp:155-237 | in every run, a pushed event or a newer one of its job is at all times in some worker's diffs, in a message, or has been broadcast |
| `BalancerProtocol.PushedIsDigested` | src/balancing/event_driven_balancer.cpp:155-237 | once nothing is pending, every worker has digested it |
| `BalancerProtocol.RestIsUpToDate` | src/balancing/event_driven_balancer.cpp:155-237 | then every worker's state holds the newest event pushed for each job, unless this event is a zero, and nothing that was not pushed |
| `EndedJobs.StateIsLast` | src/balancing/event_driven_balancer.cpp:216-237 | if the events of a job are broadcast in the order of their epochs, the state holds exactly the last one, and nothing once the job has ended |
| `EndedJobs.ForgottenExactly` | src/balancing/event_driven_balancer.cpp:216-237 | for a job whose newest event is its only zero, the state has forgotten the job if and only if no broadcast after the last one of the zero holds an event of the job |
| `EndedJobs.EndedAtRest` | src/balancing/event_driven_balancer.cpp:155-237 | in every run which has come to rest the zero was broadcast, and every worker has forgotten the job under exactly this condition |
| `EndedJobs.HandedOverInOrder` | src/balancing/event_driven_balancer.cpp:77-181 | in every run in which each event of a job has a larger epoch than the one before, and is pushed at the same rank or after some worker has digested the one before, the job's events are broadcast in the order of their epochs |
| `EndedJobs.HandedOverAtRest` | src/balancing/event_driven_balancer.cpp:77-237 | when such a run has come to rest, every worker holds the last event pushed for the job, or nothing if it is a zero or there is none |
| `EndedJobs.HandsOver` | src/core/scheduling_manager.cpp:317-323 | once the newest event of a job has been broadcast, no event of the job is on its way, so that the next one may be pushed at any rank |
| `RevivedJob.ZeroIsForgotten` | src/balancing/event_driven_balancer.cpp:155-237 | a run of two workers with pushes at both, which comes to rest with an older event in every state although the job's zero is the newest event and the last one pushed; the zero is pushed before anybody has digested the older event |
| `Balancers.Balancer.constructor` | src/balancing/event_driven_balancer.cpp:24-66 | parent and children as in the tree, empty maps |
| `Balancers.Balancer.PushEvent` | src/balancing/event_driven_balancer.cpp:155-169 | a novel event is inserted and the worker tries to advance; any other one changes nothing |
| `Balancers.Balancer.Advance` | src/balancing/event_driven_balancer.cpp:171-181 | the diffs are handed on if there are any and it is time |
| `Balancers.Balancer.HandleReduce` | src/balancing/event_driven_balancer.cpp:188-202 | a child's events are taken in, and sent to the parent or, at the root, broadcast with the next epoch; aborts exactly on conflicting events |
| `Balancers.Balancer.HandleBroadcast` | src/balancing/event_driven_balancer.cpp:203-213 | every child gets a copy, in order, also if the data is the map of diffs itself; then the broadcast is digested |
| `Balancers.Balancer.Digest` | src/balancing/event_driven_balancer.cpp:216-237 | the new state, epoch and remaining diffs; aborts exactly on conflicting events |
| `Balancers.StepsAreWorkerSteps` | src/balancing/event_driven_balancer.cpp:171-237 | the steps of the protocol other than pushes are those of the objects |
| `Balancers.PushIsWorkerStep` | src/balancing/event_driven_balancer.cpp:155-181 | pushing an event at an object is the protocol's push, followed by its advance if the event is novel and it is time; any other event changes nothing |
| `Balancers.NeverAborts` | src/balancing/event_map.hpp:139-150 | if events of the same job and epoch are equal, no digest of any run aborts |
| `DistributedTermination.Termination.Trigger` | src/comm/distributed_termination.hpp:25-34 | the first call sends UP to the parent or, at the root, DOWN to all children; later calls send nothing |
| `DistributedTermination.Termination.Downwards` | src/comm/distributed_termination.hpp:42-49 | exactly the existing children are told, each once |
| `DistributedTermination.Termination.Handle` | src/comm/distributed_termination.hpp:17-21 | what each kind of message makes a process send |
| `DistributedTermination.StepsAreObjectSteps` | src/comm/distributed_termination.hpp:25-49 | the steps of the protocol are those of the objects: the process is triggered and posts exactly the messages which its object returns |
| `DistributedTermination.AtMostOneEach` | src/comm/distributed_termination.hpp:25-49 | in every run each process sends at most one UP and is sent at most one DOWN, the root none |
| `DistributedTermination.NoneOrAll` | src/comm/distributed_termination.hpp:25-49 | in every run, with no message in flight, all processes agree, and they are triggered if and only if some process was asked to exit |
| `DistributedTermination.FloodEnds` | src/comm/distributed_termination.hpp:25-49 | a run delivers at most 2(n-1) messages |
| `ExternalMemories.FullMeansFull` | src/util/categorized_external_memory.hpp:64-64 | with the wrap-around of unsigned subtraction, a block counts as full if and only if it is within the block size and has no room for another object |
| `ExternalMemories.CategorizedExternalMemory.Add` | src/util/categorized_external_memory.hpp:48-74 | the object becomes the last one at its address; all other addresses are unchanged; the size grows by one |
| `ExternalMemories.CategorizedExternalMemory.FetchAndRemove` | src/util/categorized_external_memory.hpp:76-102 | exactly the objects of the address in the order in which they were added, from memory and from disk; the address is then empty, the others are unchanged, and the size shrinks accordingly |
| `ExternalMemories.CategorizedExternalMemory.Size` | src/util/categorized_external_memory.hpp:104-106 | the number of all objects |
| `ExternalMemories.CategorizedExternalMemory.Sync` | src/util/categorized_external_memory.hpp:110-117 | the whole block is overwritten, filled up with zeros |
| `ExternalMemories.CategorizedExternalMemory.FetchFreshBlock` | src/util/categorized_external_memory.hpp:119-126 | the last free block, or a new one at the end of the file |
| `ExternalMemories.CategorizedExternalMemory.AppendBlockToDisk` | src/util/categorized_external_memory.hpp:128-134 | the file grows by one block of zeros, which is free |
| `ExternalInvariants.FreshGood` | src/util/categorized_external_memory.hpp:119-126 | taking a free block keeps every block of the file free or owned by one address, and all contents |
| `ExternalInvariants.SyncedGood` | src/util/categorized_external_memory.hpp:110-117 | writing a block to disk changes the contents of no address |
| `ExternalInvariants.PoppedGood` | src/util/categorized_external_memory.hpp:82-100 | freeing the first block of an address keeps the invariant and all other addresses |
| `ExternalBlocks.WrittenElsewhere` | src/util/categorized_external_memory.hpp:110-117 | writing a whole block leaves the bytes of all other blocks as they are |

## Notes on the code

* The comment of `getCurrentParent`'s table speaks of probabilistically balanced trees; only the shape of the paths is
  proved, nothing about balance.
* A node-freed message is handled by the scheduler whose index is that of the freed node
  (src/core/reactivation_scheduler.hpp:99-111), not by its parent's; the model follows the code.
* A rejection updates the record of the rank which the session asked last, not of the sender
  (src/scheduling/session.hpp:73-78); the model follows the code.
* `dismissAndSwapWith` does not move `originalDemand` (src/balancing/balancing_entry.hpp:45-69), so that the order among
  equal priorities is not reliable after dismissals. What is proved is that a job of strictly higher priority and no
  smaller demand never gets less, and that a job of equal priority and no smaller demand gets less by at most one worker.

## Left out

- Reactivation: which RELEASE messages and job requests are emitted is stated exactly, but what becomes of them is not followed; commitments, adoption offers, rejections and balancing updates happen at any time the code lets them through, which includes all orders that a real run has.
- Reactivation: the root is started once per job and resumed where the code allows it; packages may overtake each other; the two children of one node which hold nodes are on different ranks (see `ReturnSideExactly` for why).
- Reactivation: the map of schedulers of `ReactivationScheduler` is a map in the state of the protocol, not an object, so the bookkeeping of the job registry is not captured.
- 32-bit overflow of tree indices, epochs and request indices: integers are unbounded, except for the sizes in the external memory.
- Doubles are real numbers: no rounding, no narrowing to float in `dismissAndSwapWith`; the ceiling of the square root is any m with m·m at least n.
- BalancingResult.ComputeVolumes: does not fix the available volume as workers times load factor, because the factor is a parameter of the program; any natural number is allowed.
- Volume calculation: latencies, callbacks and logging; std::sort is the unique order of its comparator, the hash of job IDs is an arbitrary function.
- Routing: the tie-breaking hash is an arbitrary function, and std::set with this comparator behaves as a set of nodes of which the first is taken.
- ExpanderGraphs.GetPermutations: does not promise to return for all draws, because the swap loop may draw unsuitable positions forever; the draws are an input, and the result is `None` if they run out.
- The identity and other permutations which `get` can be told to avoid: no other code does so.
- AsyncCollective: the differential mode and the counter of results (src/comm/async_collective.hpp:442,472); lookups of a bundle do not insert an empty one, which no other operation can tell apart.
- MatchingRuns: event IDs 1, 2, 3, … are the same on all processes, and a process's contributions reach its prefix sum in order, which is what the sparse prefix sum provides.
- Matching: what the destination does with a pair of idle token and request, cancelled requests, and callbacks for discarded requests.
- Balancing: the callbacks within a digest are left out, so a digest is one step; the global epoch is not truncated to 32 bits; latency statistics.
- BalancerProtocol.RestIsUpToDate: does not speak of a job whose newest event is a zero, because the state forgets zeros and can then take in an older event; `EndedJobs` says exactly when.
- Balancing: probes, job requests and roots are not modelled; the pushes of a run are arbitrary, and `HandedOver` is the condition which probing (src/core/scheduling_manager.cpp:317-323,968), activation (src/core/request_manager.hpp:124-131) and the root's counter (src/balancing/event_driven_balancer.cpp:104-141) establish together.
- ExternalMemories.CategorizedExternalMemory.Add: requires that the size of a block remains a signed 32-bit number, because the code's behaviour is undefined otherwise; this can only fail if an object is larger than a block.
- External memory: failures of the file system.
- MPI, serialisation, message queues, logging, options, worker and client classes, demand growth and job temperature, the routing-tree matcher, compression, ring buffers and job-tree broadcasts would add dispatching or easy members only.
