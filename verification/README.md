# Auto node repair, modelled and verified

A Dafny model of the parts of the node repair controller in which something can go wrong over many
steps, with proofs of what those parts keep:

- **Balance** – the allocator that spreads new nodes over node groups (`utils/nodegroupset/scale_up.go`).
- **UsageTracking** – the capped two-way index of which node counts on which other node (`simulator/tracker.go`).
- **RepairTrace**, **Repair** – the repair protocol: confirm NotReady nodes, grow or shrink the group,
  taint, drain and terminate (`core/`, `cloudprovider/aws/`).
- **AsgCache** – the cache from instances to auto scaling groups (`cloudprovider/aws/auto_scaling_groups.go`).
- **ClusterState**, **ClusterStateLaws**, **ClusterStateRegistries**, **StatusConditions**, **Streak** – the
  cluster state registry: scale requests, backoff, readiness, acceptable sizes, and times of first
  observation (`clusterstate/clusterstate.go`).
- **Labels**, **Drain**, **NodeGroupSpecs** – choosing node labels, selecting pods for a drain, and the
  textual form of a node group (`utils/labels/`, `utils/drain/`, `simulator/`, `config/dynamic/`).
- **Sorting**, **Wrappers** – a sort with the contract of `sort.Slice`, and shared datatypes.

`dafny verify dfyconfig.toml` verifies the project.

## How the model is built

Code that updates things step by step is imperative here as well: the allocator works in place on an
array, the tracker, the controller, the cache and the registry are classes. Each such method is
proved against a function of its old state, and the properties over whole runs are lemmas about those
functions. The repair protocol is nondeterministic, so its properties are stated in the contracts of
its methods. Each call to the cloud or to Kubernetes is a method of its own that appends what it did or
saw to the controller's log, or counts the failure among its `faults`; all other methods only compose
those. A contract says that the log has grown by exactly a trace, `log == Extended(old(log), trace)`, what
that trace looks like, and what holds if no call failed, `faults == old(faults)`.

Everything outside the program is a parameter or a nondeterministic choice: the clock, the node
lists, the answers of the cloud and of Kubernetes. Any read of a target size, increase, lookup, taint,
eviction, poll or termination may fail, and a wait may run out of time, which counts as a failure too.
The repair protocol assumes that this controller alone changes the target sizes and that an instance
keeps its group; times are in seconds.

The protocol's contracts read as follows.

- `Transition` – the targets moved by exactly the accepted increases minus the decrementing
  terminations of the trace; a group that was within its limits stayed there after every event; every
  taint comes right after the selection of the node's pods and is followed, after nothing but evictions
  and polls of these pods, by an attempt to remove it or by the termination of the node in its own group;
  a termination comes only after every pod was evicted and a last round of polls saw all of them gone; and
  there are no other evictions, polls, removals or terminations.
- `Accounted` – nothing happens to a node more often than it is taken up, and each taint has one end.
- `TakesUp` – the nodes of a batch are taken up in order, all of them or up to the first whose deletion fails.
- `Smooth` – the target ends where it started, never exceeds the maximum, and is below its start, by
  one, only if it started at the maximum with room below.
- `Repairing`, `Pass` – the above for the nodes of a group and for a whole pass: if no call failed, exactly
  the given nodes were taken up and terminated, and the targets are smooth.
- `Batchwise`, `AllVisited` – the trace splits into the repairs of consecutive batches, and of all groups in turn.

Where a documented property turned out not to hold in general, the code is modelled as it is and the
exact condition is proved.

- The allocator documents that requests are capped to the total free capacity
  (`utils/nodegroupset/scale_up.go:55-57`). A group above its maximum is deducted from that capacity,
  so fewer nodes than fit may be added: `Balance.CappedToFreeCapacity` and
  `Balance.OversizedGroupHidesRoom`. The loop invariants in the source's comment
  (`utils/nodegroupset/scale_up.go:103-109`) speak of the current sizes, which never change; the ones
  proved here are about the new sizes.
- Unregistering a node whose record has overflowed may leave stale entries behind
  (`simulator/tracker.go:89-104`): `UsageTracking.MirrorsThroughoutIff` gives the condition,
  `UsageTracking.OverflowHidesAUser` a run that leaves one.
- A failed read of the target size is ignored by the repair (`core/util.go:211`). If the next read then
  finds the group full, the round takes no node and is repeated, or its slice expression panics:
  `Repair.ProgressLostIff`, with the inputs in `Repair.FailedReadLosesProgress`. Accounting, limits and the
  order of the steps hold all the same.
- Deleting several nodes at once compares the minimum size only once
  (`cloudprovider/aws/aws_cloud_provider.go:312-316`): `Repair.DeletedTogetherKeepsMinimumIff` says when the
  group keeps its minimum, `Repair.DeletingTogetherPassesMinimum` shows a group that does not. The repair
  itself deletes one node at a time.
- Two requests of one group that time out in the same update end with the initial backoff, even where
  one alone would have doubled it (`clusterstate/clusterstate.go:229-241`): `ClusterStateLaws.BackoffAfterUpdate`
  and, on concrete runs, `ClusterStateLaws.SecondTimeoutRestartsBackoff`.
- An instance that was looked up before it joined its group is denied until the cache happens to be
  regenerated: `AsgCache.LookupIsRightIff`, `AsgCache.MemberIsFoundIff` and `AsgCache.EarlyLookupSticks`.
- The detailed drain check documents an error for unreplicated pods and a check that controllers
  exist (`simulator/drain.go:63-66`), but forces all removals and checks neither:
  `Drain.FastAgreesWithDetailed` says exactly how it differs from the fast check, and
  `Drain.UnreplicatedPodIsMoved` shows a pod that it returns all the same.
- The pods required on a new node are told apart by self link, so a required pod that shares its link
  with a removed one is lost: `Drain.RequiredIffApart` and `Drain.SharedLinkLosesPod`.

## Model

| member | source | states |
|---|---|---|
| Balance.CollectInfos | utils/nodegroupset/scale_up.go:64-86 | fails exactly if some target size cannot be read, else yields the groups that are not exactly at their maximum and the sum of their listed room |
| Balance.OrderedCandidates | utils/nodegroupset/scale_up.go:110-112 | the candidates in ascending order, without added nodes, and with room for what is listed |
| Sorting.SortBy | utils/nodegroupset/scale_up.go:110-112 | ascending by key and a permutation, ties in any order |
| Balance.AddStep | utils/nodegroupset/scale_up.go:118-121 | adding a node to the current group keeps the water line, the limits, the groups and the count of nodes still to place |
| Balance.RemoveStep | utils/nodegroupset/scale_up.go:122-130 | swapping out a full group keeps all of that, and another group remains |
| Balance.RoomIsAhead | utils/nodegroupset/scale_up.go:98-101 | while nodes remain, some group that has not been removed has room |
| Balance.WaterlineIsLevel | utils/nodegroupset/scale_up.go:103-109 | the loop state implies that the sizes are level |
| Balance.Visit | utils/nodegroupset/scale_up.go:115-146 | one iteration never leaves the array, keeps the loop state, and either places a node or removes a group |
| Balance.Distribute | utils/nodegroupset/scale_up.go:113-146 | the greedy loop places all nodes within the limits, only permutes the groups, ends level, and takes at most one iteration per node and group |
| Balance.ResizedOnly | utils/nodegroupset/scale_up.go:148-154 | the groups whose size changed, in order |
| Balance.BalanceScaleUpBetweenGroups | utils/nodegroupset/scale_up.go:58-157 | both errors, and otherwise the resized part of a balanced plan that adds the request capped to the listed capacity, for any sizes and any request |
| Balance.PlanIsOptimal | utils/nodegroupset/scale_up.go:49-57 | a balanced plan costs no more than any other way of adding as many nodes within the limits, for every convex cost of a group's size |
| Balance.LevelPaysLeast | utils/nodegroupset/scale_up.go:113-146 | level sizes pay the least over the price of one more node, among all sizes within the limits |
| Balance.PlanMinimisesSquares | utils/nodegroupset/scale_up.go:49-51 | in particular it minimises the sum of squared sizes |
| Balance.CapacitiesCompared | utils/nodegroupset/scale_up.go:74-86 | the capacity that is counted never exceeds the free one, and equals it exactly if no group is above its maximum |
| Balance.CappedToFreeCapacity | utils/nodegroupset/scale_up.go:55-90 | exactly when the request is capped to the free capacity, as documented |
| Balance.OversizedGroupHidesRoom | utils/nodegroupset/scale_up.go:74-90 | two groups, one above its maximum: a request that fits is refused |
| UsageTracking.UsageTracker.constructor | simulator/tracker.go:44-48 | a new tracker has no records and an empty history |
| UsageTracking.UsageTracker.RegisterUsage | simulator/tracker.go:57-87 | records both directions, or flags a full record, and appends the call to the history |
| UsageTracking.UsageTracker.RemoveUser | simulator/tracker.go:92-96 | takes the node out of the usedBy map of every node it uses |
| UsageTracking.UsageTracker.RemoveUsed | simulator/tracker.go:97-101 | takes the node out of the using map of every node that uses it |
| UsageTracking.UsageTracker.Unregister | simulator/tracker.go:90-104 | drops the node's record and its mentions in the records it points to |
| UsageTracking.FilterOutOld | simulator/tracker.go:106-116 | keeps exactly the entries that are not before the cutoff |
| UsageTracking.DropOld | simulator/tracker.go:122-127 | filters each map of a record unless it is flagged |
| UsageTracking.UsageTracker.DropOldEntries | simulator/tracker.go:120-131 | all records filtered, and exactly the keys of those that became empty |
| UsageTracking.UsageTracker.CleanUp | simulator/tracker.go:119-135 | filters the maps that have not overflowed and drops records that became empty |
| UsageTracking.KeysToRemove | simulator/tracker.go:139-158 | decides for every other key whether it is dropped with the node |
| UsageTracking.RemoveNodeFromTracker | simulator/tracker.go:138-164 | exactly which keys are left of the utilization map; overflow or not, none of them shares a used node with the removed one |
| UsageTracking.ExactIsLastUse | simulator/tracker.go:56-135 | the exact relation holds a pair with a time exactly if a call registered it and no later call ended it |
| UsageTracking.RunCovers | simulator/tracker.go:57-135 | in every run every exact pair is in both records with its time, or the record is flagged |
| UsageTracking.RunIsCapped | simulator/tracker.go:57-79 | in every run no map exceeds the cap |
| UsageTracking.OverflowMeansWasFull | simulator/tracker.go:59-76 | a flag is set only after the record was full |
| UsageTracking.RunMirrors | simulator/tracker.go:57-135 | in every run that never unregisters an overflowed node, unflagged records mirror each other and the exact relation, with equal times |
| UsageTracking.UnregisterKeepsMirrorIff | simulator/tracker.go:90-104 | unregistering a node keeps the two directions in agreement exactly if its record lists every unflagged record that mentions it |
| UsageTracking.UnflaggedKnowsMentions | simulator/tracker.go:90-104 | the condition holds for every node that has not overflowed |
| UsageTracking.MirrorsThroughoutIff | simulator/tracker.go:57-135 | a run keeps the directions in agreement throughout exactly if that condition holds at every unregistration |
| UsageTracking.OverflowHidesAUser | simulator/tracker.go:73-104 | after fifty-one users of one node both directions agree, and after unregistering that node they do not |
| UsageTracking.RemovalIsSafe | simulator/tracker.go:137-164 | overflow or not, every node that shares a used node with the removed one is dropped |
| UsageTracking.RemovalIsExact | simulator/tracker.go:137-164 | without overflow exactly those are dropped, in every run that keeps the directions in agreement |
| RepairTrace.TransitionAppend | core/util.go:210-230 | what a step keeps (accounting, limits, order of taint, drain and termination), a sequence of steps keeps |
| RepairTrace.StaysIff | core/util.go:210-230 | staying within limits means exactly being there after every prefix of the trace |
| RepairTrace.DeletionIsSafe | core/delete_nodes.go:59-97 | selection, taint, drain and the removal of the taint, or after a complete drain the termination, form a safe trace |
| RepairTrace.AccountedAppend | core/util.go:154-242 | what is accounted for in two steps is so in both together |
| RepairTrace.AccountedFor | core/util.go:154-195 | the nodes selected, tainted, untainted or terminated are among those taken up, with multiplicity |
| RepairTrace.NoTaintForgotten | core/delete_nodes.go:68-78 | after a safe trace every newly tainted node was terminated or its taint could not be removed |
| RepairTrace.EventsOfExtended | core/delete_nodes.go:59-97 | a log that was extended by a trace holds the old events followed by exactly that trace |
| Repair.CommonNodes | core/util.go:44-62 | the nodes of the first list whose names are in the second |
| Repair.CommonIsIntersection | core/util.go:44-62 | each node as often as in the first list if it is in both, else not at all |
| Repair.BatchMakesProgress | core/util.go:65-80 | exactly when the two reads of the target size make a batch non-empty and no larger than the list |
| Repair.ProgressLostIff | core/util.go:65-80 | a round takes no node, or a negative number of them, exactly if the first read fails and the second finds the group at, or above, its maximum |
| Repair.FailedReadLosesProgress | core/util.go:210-228 | a full and an overfull group for which that happens |
| Repair.DeletedTogetherKeepsMinimumIff | cloudprovider/aws/aws_cloud_provider.go:312-316 | a group within its limits keeps its minimum exactly if it is there already or has that many nodes to spare |
| Repair.DeletingTogetherPassesMinimum | cloudprovider/aws/aws_cloud_provider.go:312-316 | the terminations of one call that leave a group below its minimum |
| Repair.Controller.NodeGroupForNode | cloudprovider/aws/aws_cloud_provider.go:138-145 | an answered group is the node's owner; any other answer for an owned node counts as a failure |
| Repair.Controller.GetAsgSize | cloudprovider/aws/aws_manager.go:102-118 | the desired capacity, or -1 with a counted error |
| Repair.Controller.SetAsgSize | cloudprovider/aws/aws_manager.go:121-133 | sets the desired capacity and logs the change if the cloud accepts, else changes nothing |
| Repair.Controller.AsgIncreaseSize | cloudprovider/aws/aws_cloud_provider.go:232-244 | grows only by a positive amount that fits below the maximum, always does so if no call fails, and keeps every group within its limits |
| Repair.Controller.TerminateInstance | cloudprovider/aws/aws_manager.go:154-164 | an accepted termination is logged and decrements the capacity of the instance's group, if asked to |
| Repair.Controller.TerminateEach | cloudprovider/aws/aws_manager.go:154-166 | stops at the first refusal, and succeeds exactly if there is none; the targets move by the accepted terminations |
| Repair.Controller.TerminateInstances | cloudprovider/aws/aws_manager.go:136-167 | terminates a prefix of the instances, each in its own group; if no call fails it succeeds exactly for instances of one group |
| Repair.Controller.Belongs | cloudprovider/aws/aws_cloud_provider.go:271-287 | a positive answer means the group owns the node; if no call fails the answer is right, and there is none for a node without group |
| Repair.Controller.AsgDeleteNodes | cloudprovider/aws/aws_cloud_provider.go:290-317 | terminates a prefix of the nodes, with decrement exactly if the group is above its minimum; if no call fails it succeeds exactly if all are in the group |
| Repair.Controller.DeleteNodeFromCloudProvider | core/delete_nodes.go:202-223 | one termination in the node's own group, or nothing; if no call fails it succeeds exactly for a node that has one |
| Repair.Controller.MarkToBeDeleted | utils/deletetaint/delete.go:40-58 | the node is tainted and that is logged, or nothing happened |
| Repair.Controller.CleanToBeDeleted | utils/deletetaint/delete.go:101-126 | the attempt is logged with its outcome, and the taint is gone if it succeeded |
| Repair.Controller.SelectPods | core/util.go:175-187 | the selection is logged, or there is none |
| Repair.Controller.AskEviction | core/delete_nodes.go:108-120 | an accepted eviction, or a pod that is not there, is logged |
| Repair.Controller.EvictPod | core/delete_nodes.go:100-125 | success means exactly one logged eviction; there is no failure without a refusal |
| Repair.Controller.GetPod | core/delete_nodes.go:164-173 | whether the pod was seen gone is logged |
| Repair.Controller.EvictPods | core/delete_nodes.go:132-157 | in whatever order, success means that every pod was evicted or not there; there is no failure without a refusal or a timeout |
| Repair.Controller.PollPods | core/delete_nodes.go:162-179 | a round succeeds only if it saw every pod gone, and fails only if it saw one that is not or a poll failed |
| Repair.Controller.DrainNode | core/delete_nodes.go:129-183 | success means a complete drain; there is no failure without a refusal or a timeout |
| Repair.Controller.DeleteNode | core/delete_nodes.go:59-97 | after the selection of the pods, the logged calls are a safe deletion of this node alone, which shrinks its group or ends in removing the taint; if no call fails it succeeds exactly for a node that has a group |
| Repair.Controller.AttemptNode | core/util.go:172-194 | one node is taken up, terminated exactly on success, and only taken up if its pods cannot be selected; if no call fails an owned node is terminated |
| Repair.Controller.DeleteNodes | core/util.go:154-207 | a batch is taken up in order to the first deletion that fails, skipping nodes whose pods cannot be selected; if no call fails every owned node is terminated and the target shrinks as by single deletions |
| Repair.Controller.DeleteNext | core/util.go:172-195 | one more node of a batch |
| Repair.Controller.IncreaseSize | core/util.go:124-151 | grows the group at most by the amount, and if no call fails exactly if that fits |
| Repair.Controller.RepairBatch | core/util.go:210-226 | a round whose reads may fail: how many nodes it takes, that it takes them up, and that it does nothing if they are none; if no call fails they are replaced and the target is smooth |
| Repair.Controller.DeleteThenIncrease | core/util.go:218-221 | the round of a full group |
| Repair.Controller.IncreaseThenDelete | core/util.go:222-226 | the round of a group with room |
| Repair.Controller.ExpandAndDelete | core/util.go:65-80 | the same, with the number of nodes from a second read |
| Repair.Controller.RepairUntilProgress | core/util.go:214-228 | rounds that take no node change nothing, and happen only after a failed read of a group that is exactly at its maximum; a negative number only if it is above |
| Repair.Controller.AsgRepairNodes | core/util.go:210-230 | the trace splits into the repairs of non-empty batches that are taken up and concatenate to the list, or to a part of it if it does not finish; it finishes if no read fails, whatever else does, and does not crash for a group within its limits |
| Repair.Controller.AsgNotReadyNodes | core/util.go:83-99 | members of the group among the nodes, and exactly those if no lookup fails |
| Repair.Controller.RepairGroup | core/util.go:237-240 | the members that were found are repaired, all of them if no lookup fails |
| Repair.Controller.RepairNext | core/util.go:236-241 | a pass over the first n groups is continued to one over the first n + 1 |
| Repair.Controller.RepairNodes | core/util.go:233-242 | every group is visited, whatever fails in others, if no read fails; every attempt is on behalf of the node's owner; if no call fails all members are replaced and all targets are smooth |
| Repair.Controller.RunOnce | core/static_autorepair.go:67-100 | the same for the nodes that are NotReady in both samples; only such nodes are taken up, selected, tainted or terminated, and each at most once; every newly tainted node was terminated or its taint could not be removed |
| Repair.GrowThenShrink | core/util.go:222-226 | growing by a batch and deleting it is smooth |
| Repair.ShrinkThenGrow | core/util.go:218-221 | at the maximum, deleting one node and growing by one is smooth, also when the minimum is the maximum |
| Repair.CountPlan | core/util.go:233-242 | a node is planned as often as it is listed if its owner is a known group, else not at all |
| Repair.ConfirmedAndAtMostOnce | core/static_autorepair.go:72-92 | nodes bounded by the plan are of both samples, each at most once if names are distinct |
| Repair.PassIsConfirmed | core/static_autorepair.go:72-92 | in every pass this holds of the nodes taken up, selected, tainted, untainted and terminated |
| AsgCache.AutoScalingGroups.constructor | cloudprovider/aws/auto_scaling_groups.go:39-45 | a new cache is empty |
| AsgCache.AutoScalingGroups.Register | cloudprovider/aws/auto_scaling_groups.go:59-66 | appends the group and touches neither cache |
| AsgCache.AutoScalingGroups.RegenerateCache | cloudprovider/aws/auto_scaling_groups.go:93-111 | replaces the positive cache by the current membership, or changes nothing on failure |
| AsgCache.AddInstances | cloudprovider/aws/auto_scaling_groups.go:103-106 | enters exactly the instances of the group |
| AsgCache.AutoScalingGroups.FindForInstance | cloudprovider/aws/auto_scaling_groups.go:69-91 | the answer and the new caches, in all cases |
| AsgCache.NegativeIsTold | cloudprovider/aws/auto_scaling_groups.go:75-90 | the negative cache holds exactly the instances some lookup denied |
| AsgCache.PositiveIsLastRefresh | cloudprovider/aws/auto_scaling_groups.go:93-111 | the positive cache holds exactly the groups that instances were in at the last successful regeneration |
| AsgCache.GroupsAreHome | cloudprovider/aws/auto_scaling_groups.go:93-111 | if instances never change group, every cached group is the right one |
| AsgCache.MembersAreNotDenied | cloudprovider/aws/auto_scaling_groups.go:75-90 | an instance that is looked up only as a member is never denied |
| AsgCache.AnswerExplained | cloudprovider/aws/auto_scaling_groups.go:69-91 | every error-free answer, told by the history of calls and memberships |
| AsgCache.LookupIsRightIff | cloudprovider/aws/auto_scaling_groups.go:69-91 | exactly when an error-free lookup of any instance answers the very group the cloud has it in |
| AsgCache.MemberIsFoundIff | cloudprovider/aws/auto_scaling_groups.go:69-91 | exactly when a member that never changes group is found, by id |
| AsgCache.MemberIsFound | cloudprovider/aws/auto_scaling_groups.go:68-91 | in any interleaving, members that are never looked up before they join are found, as the very group if no id is registered twice |
| AsgCache.EarlyLookupSticks | cloudprovider/aws/auto_scaling_groups.go:75-80 | a lookup before the join makes later ones wrong until a regeneration |
| ClusterStateRegistries.ClusterStateRegistry.constructor | clusterstate/clusterstate.go:139-159 | a new registry is empty |
| ClusterStateRegistries.ClusterStateRegistry.RegisterScaleUp | clusterstate/clusterstate.go:162-166 | appends the request and changes nothing else |
| ClusterStateRegistries.ClusterStateRegistry.RegisterScaleDown | clusterstate/clusterstate.go:169-173 | appends the request and changes nothing else |
| ClusterStateRegistries.ClusterStateRegistry.RegisterFailedScaleUp | clusterstate/clusterstate.go:253-258 | backs the group off and changes nothing else |
| ClusterStateRegistries.ClusterStateRegistry.BackoffNodeGroup | clusterstate/clusterstate.go:228-248 | the new backoff of the group |
| ClusterStateRegistries.ClusterStateRegistry.UpdateReadinessStats | clusterstate/clusterstate.go:451-495 | the counts of every group and of all nodes |
| ClusterStateRegistries.CountNodes | clusterstate/clusterstate.go:456-488 | the same for the loop over the nodes |
| ClusterStateRegistries.SubtractIncreases | clusterstate/clusterstate.go:410-423 | ranges with the pending increases subtracted |
| ClusterStateRegistries.AddDeletions | clusterstate/clusterstate.go:424-428 | ranges with the pending deletions added |
| ClusterStateRegistries.ClusterStateRegistry.UpdateAcceptableRanges | clusterstate/clusterstate.go:409-430 | every range is the target less pending increases and plus pending deletions |
| ClusterStateRegistries.ClusterStateRegistry.DropStaleBackoffs | clusterstate/clusterstate.go:177-182 | keeps exactly the backoffs that are not stale |
| ClusterStateRegistries.ClusterStateRegistry.SortScaleUps | clusterstate/clusterstate.go:184-201 | surviving and timed-out requests in order; finished ones end their group's backoff |
| ClusterStateRegistries.ClusterStateRegistry.BackoffTimeouts | clusterstate/clusterstate.go:202-216 | one failure per timed-out request whose group has no survivor |
| ClusterStateRegistries.DropExpired | clusterstate/clusterstate.go:218-224 | the unexpired scale-down requests, in order |
| ClusterStateRegistries.ClusterStateRegistry.UpdateScaleRequests | clusterstate/clusterstate.go:176-225 | the registry with its requests sorted |
| ClusterStateRegistries.FindIncorrectSizes | clusterstate/clusterstate.go:498-532 | the groups whose registered nodes miss their range, with the time carried over |
| ClusterStateRegistries.ClusterStateRegistry.UpdateIncorrectNodeGroupSizes | clusterstate/clusterstate.go:498-532 | replaces the incorrect sizes and changes nothing else |
| ClusterStateRegistries.ClusterStateRegistry.UpdateUnregisteredNodes | clusterstate/clusterstate.go:534-544 | unregistered nodes keep their time, new ones get the current one |
| ClusterStateRegistries.GetTargetSizes | clusterstate/clusterstate.go:290-300 | fails exactly if a target cannot be read |
| ClusterStateRegistries.GetNotRegisteredNodes | clusterstate/clusterstate.go:836-864 | fails exactly if a group's nodes cannot be listed, else the nodes Kubernetes does not list |
| ClusterStateRegistries.ClusterStateRegistry.UpdateEverything | clusterstate/clusterstate.go:273-286 | the parts of an update in this order make up the whole update |
| ClusterStateRegistries.ClusterStateRegistry.UpdateNodes | clusterstate/clusterstate.go:261-287 | the updated registry, or the unchanged one if the cloud provider cannot be read |
| ClusterStateLaws.ClassesPartition | clusterstate/clusterstate.go:456-470 | the classes partition the registered nodes, per group and in total |
| ClusterStateLaws.TalliesAge | clusterstate/clusterstate.go:451-470 | with the same nodes, counts at a later time differ only by nodes that moved from not started to long not started |
| ClusterStateLaws.GroupsMakeUpTotal | clusterstate/clusterstate.go:472-494 | in every class the groups and the unmanaged nodes make up the total |
| ClusterStateLaws.RangeContainsTarget | clusterstate/clusterstate.go:404-430 | a range contains its target if no increase is negative |
| ClusterStateLaws.SurvivingPositionsExact | clusterstate/clusterstate.go:186-200 | a position survives exactly if its request has nodes to come and is unexpired |
| ClusterStateLaws.SurvivingPositionsAscend | clusterstate/clusterstate.go:186-200 | the surviving positions ascend |
| ClusterStateLaws.SurvivorsInOrder | clusterstate/clusterstate.go:186-201 | the surviving requests are the old ones at those positions, in order |
| ClusterStateLaws.UpcomingIsKnown | clusterstate/clusterstate.go:360-378 | a group with nodes to come is known, its target exceeds what is provisioned, and sorting the requests does not change that |
| ClusterStateLaws.RemainingRequests | clusterstate/clusterstate.go:381-392 | after an update every request is unexpired and for a known group with nodes to come, and a group is scaling up exactly if it has one |
| ClusterStateLaws.RemainingDowns | clusterstate/clusterstate.go:218-224 | exactly the unexpired scale-down requests remain |
| ClusterStateLaws.BackoffsStayWellFormed | clusterstate/clusterstate.go:228-248 | in every reachable state a backoff lasts 5, 10, 20 or 30 minutes from the last failure |
| ClusterStateLaws.EntryAfterTimeouts | clusterstate/clusterstate.go:202-216 | the effect of any number of failures of one group in one update |
| ClusterStateLaws.BackoffAfterUpdate | clusterstate/clusterstate.go:176-216 | what an update does to the backoff of every group, in closed form |
| ClusterStateLaws.SecondTimeoutRestartsBackoff | clusterstate/clusterstate.go:202-241 | two runs from a new registry: one late request gives 10 minutes, two give 5 |
| ClusterStateLaws.UnexpiredEndsOnlyBySuccess | clusterstate/clusterstate.go:177-194 | an unexpired backoff disappears exactly if a scale-up of its group finished |
| ClusterStateLaws.RequestsAreSorted | clusterstate/clusterstate.go:186-201 | of a group with nodes to come every request survives or times out, of any other group none does |
| ClusterStateLaws.FinishedOrTimedOut | clusterstate/clusterstate.go:176-216 | in one update a group either finishes, and then no request of it times out or remains and its backoff is over, or each of its requests times out or remains |
| ClusterStateLaws.TimedOutIsUnsafe | clusterstate/clusterstate.go:352-358 | a timed-out group without survivor is unsafe to scale up for at least five more minutes |
| ClusterStateLaws.FirstObservedIsStreakStart | clusterstate/clusterstate.go:514-528 | over every run a group is listed exactly while it mismatches, with the time of the update that started the current unbroken streak of that mismatch |
| ClusterStateLaws.UnregisteredSinceStreakStart | clusterstate/clusterstate.go:534-544 | over every run, the time of the update since which the node has been unregistered throughout |
| Streak.CarriedIsStreak | clusterstate/clusterstate.go:521-528 | a carried time exists exactly if there is a current streak, and is the time of its start |
| StatusConditions.UpdateLastTransitionSingleList | clusterstate/clusterstate.go:786-802 | each condition takes over the time of the first old one of its kind, if the status is unchanged |
| StatusConditions.UpdateLastTransition | clusterstate/clusterstate.go:763-784 | the same for the cluster and every group |
| StatusConditions.FindConditions | clusterstate/clusterstate.go:768-774 | the conditions of the first old status of the group |
| StatusConditions.TransitionCarries | clusterstate/clusterstate.go:763-802 | one status call carries the time of every kind of condition in every scope |
| StatusConditions.LastTransitionIsStreakStart | clusterstate/clusterstate.go:763-802 | over any status calls a condition is reported exactly if its status has a current unbroken run, with the probe time that started that run |
| Labels.RequestedCpu | utils/labels/labels.go:88-97 | the sum of the container requests, or the default if that is zero |
| Labels.FindSelector | utils/labels/labels.go:105-111 | the entry of the selector, or that there is none |
| Labels.AddPod | utils/labels/labels.go:99-117 | one more pod keeps one entry per selector with its total, and adds the pod's CPU |
| Labels.CalculateNodeSelectorStats | utils/labels/labels.go:85-120 | one entry per selector with the CPU of its pods; the total CPU is conserved |
| Labels.IsBlocked | utils/labels/labels.go:57-70 | the selector contradicts the labels or asks for an infrastructure label they lack |
| Labels.MergeSelectors | utils/labels/labels.go:47-76 | every selector ends up within the final labels or blocked by them |
| Labels.BestLabelSet | utils/labels/labels.go:44-77 | contains a selector with the most CPU, gains no infrastructure labels, consists of requested labels, and fits exactly the pods it does not block |
| Drain.CheckKubeSystemPDBs | utils/drain/drain.go:227-239 | whether a budget matches, or an earlier malformed one |
| Drain.KubeSystemPDBs | utils/drain/drain.go:53-59 | the budgets of the system namespace, in order |
| Drain.PodsToMove | utils/drain/drain.go:61-77 | exactly the pods that are neither mirror nor daemon pods nor gone soon |
| Drain.GetPodsForDeletionOnNodeDrain | utils/drain/drain.go:41-198 | the pods that must move, in order, or the first objection |
| Drain.CheckPod | utils/drain/drain.go:178-194 | the objection to moving one pod |
| Drain.CheckPdbsIff | simulator/drain.go:90-106 | no error exactly if all budgets parse and those that match allow a disruption |
| Drain.NoObjectionIff | utils/drain/drain.go:178-194 | there is no first objection exactly if no pod to move is objected to |
| Drain.FastAgreesWithDetailed | simulator/drain.go:40-88 | the fast check succeeds exactly if the detailed one does and nothing is objected to, with the same pods |
| Drain.UnreplicatedPodIsMoved | simulator/drain.go:63-88 | a pod without controller that the fast check refuses and the detailed one returns |
| Drain.GetRequiredPodsForNode | simulator/nodes.go:51-80 | the pods left by the self-link filter, and exactly when they are the required ones |
| Drain.RequiredPods | simulator/nodes.go:70-79 | exactly the undeleted mirror and daemon pods |
| Drain.RequiredIffApart | simulator/nodes.go:65-79 | the filter returns the undeleted mirror and daemon pods exactly if none shares a link with a moved pod |
| Drain.SharedLinkLosesPod | simulator/nodes.go:65-79 | two pods with one link of which the required one is lost |
| Drain.DistinctLinksAreApart | simulator/nodes.go:65-79 | which holds when self links are distinct |
| NodeGroupSpecs.ItoaReadsBack | config/dynamic/node_group_spec.go:48-59 | a printed size is read back and contains no colon |
| NodeGroupSpecs.SplitInThreeIff | config/dynamic/node_group_spec.go:42-45 | exactly which three tokens a value splits into |
| NodeGroupSpecs.AcceptedIff | config/dynamic/node_group_spec.go:41-68 | exactly which values are accepted, and as which specification |
| NodeGroupSpecs.ParsingUndoesPrinting | config/dynamic/node_group_spec.go:91-93 | parsing undoes printing on every valid specification, also with colons in the name |
| NodeGroupSpecs.PrintingIsCanonical | config/dynamic/node_group_spec.go:41-93 | printing what was parsed yields a canonical form with the same meaning |

## Left out

- Kubernetes and AWS clients, listers, leader election, flags, event recording and logging: their answers are choices or parameters.
- Sleeping and polling for new nodes to become ready or for the target to settle (`core/util.go:140-148`, `core/util.go:197-204`): they change nothing that is modelled.
- Repair.Controller.RepairUntilProgress: a repair that goes on forever is seen as one that has taken no node in any number of rounds.
- Repair.Controller.NodeGroupForNode: the owner of an instance does not change during a repair, and group ids are distinct; answers may still fail or be missing.
- Repair.Controller.DeleteNode: does not register the scale-down with the cluster state registry, because the registry is modelled on its own.
- Repair.Controller.EvictPods: evicts in any order, but retries for one pod are not interleaved with those for another.
- UsageTracking.UsageTracker.RegisterUsage: records are values in the map, so sharing a record obtained with Get is not modelled.
- UsageTracking.RemoveNodeFromTracker: returns the reduced utilization map instead of changing the caller's map in place.
- Labels.BestLabelSet: returns the labels as a value, where the source extends the selector map of a pod in place; CPU quantities are whole millicores.
- NodeGroupSpecs.ParsingUndoesPrinting: sizes fit a 64-bit integer, as the source's integers do.
- AsgCache.AutoScalingGroups.FindForInstance: one call at a time, as the mutex ensures; the hourly regeneration is a step of a run.
- Status messages, scale-down candidates and the count of upcoming nodes (`clusterstate/clusterstate.go:546-622`, `clusterstate/clusterstate.go:813-833`): reporting only.
- Finding empty nodes, utilization, predicates, similarity of node groups, instance types, ASG tags and templates: easy or foreign computations.
- Drain.GetPodsForDeletionOnNodeDrain: does not model the check that the controllers of the pods still exist (`utils/drain/drain.go:88-173`), because no caller asks for it.
