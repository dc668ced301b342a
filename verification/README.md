# A verified model of HoraeMeta's metadata and scheduling core

HoraeMeta keeps the metadata of a sharded database in etcd and decides which node serves which shard. This Dafny
project models the parts of it where correctness rests on an argument about all inputs, all runs or all
interleavings, and proves that argument. `dafny verify dfyconfig.toml` checks the whole project.

The code that changes state in place is modelled by classes and methods with loops. Each of them is proved against a
function or a state machine, and the laws are lemmas about those.

| file | part of the system |
|---|---|
| Placement.dfy, Affinity.dfy, RepairOutcomes.dfy, ConsistentHash.dfy, HashTheorems.dfy, HashExamples.dfy | the consistent uniform hash with bounded loads and its affinity repair |
| NodePicker.dfy, Rebalanced.dfy | picking nodes for shards with that hash, and rebalancing batch by batch |
| IdAllocator.dfy | allocators that lease ranges of IDs from one etcd key |
| ClusterViews.dfy, TopologyViews.dfy | versioned cluster views with optimistic updates by many managers |
| TableCatalogue.dfy, TableManager.dfy | the two keys of a table, and the table manager's maps |
| ShardViews.dfy, ShardManager.dfy | shard views, the table-to-shards index and their storage |
| EntryLocks.dfy, Procedures.dfy, ProcedureManager.dfy | shard locks and the concurrent procedure manager |
| DelayQueue.dfy, Promotion.dfy, Versions.dfy | the delay queue over its heap, promotion from start to end, validity and batch merging |
| Scan.dfy, KeyPath.dfy | paged range reads and the key encoding |
| ReusableId.dfy, ShardCompare.dfy | the reusable ID allocator and the comparison of reported shards |
| Common.dfy | string order, sorting by contract, runs of a state machine |

How the environment is modelled:

- The hasher is an arbitrary function. The iteration order of a Go map is an arbitrary choice. Clocks are parameters.
- etcd is a map with atomic requests. In IdAllocator and ClusterViews a request may fail before its effect or lose its
  response after it, and participants may crash and start again. In TableManager and ShardManager there is one writer,
  and a request that fails is not applied.
- The storage classes count the requests that fail, stay unanswered or do not find what they ask for, so that a method
  that reports a failure has met one.
- Where participants interleave, a class has a method `Others` that stands for whatever the others may do between two
  atomic sections. Each method is proved to be a run of the state machine under that interference.
- A Go panic, whether from an assertion, a nil map entry or a slice index, is an outcome of the method.

Where the code does not do what its comments or names suggest, the code is modelled as it is, an input is given at
which it fails, and the exact condition under which it does what is asked is proved:

- "Not enough room to distribute partitions" can fail when hash collisions leave members without a ring slot
  (HashTheorems.RoomExactly, HashExamples.OutOfRoom), and the balance then holds only when the floor load is zero
  (HashTheorems.EvenlyPlaced, HashExamples.Uneven).
- A later affinity rule with a smaller allowance can move an earlier ruled partition away (Affinity.StaysExactly for
  one rule, HashTheorems.StaysInEveryBuild for all builds of the same inputs, HashExamples.RuledPartitionMovedAway).
- RemoveTable is right for one table that no other shard has, and for few lists besides (ShardViews.FilterExactly,
  ShardViews.RemoveExactly, ShardViews.RemovedFromBoth). Several tables at once can leave memory different from storage
  (ShardManager.MemoryFollowsStorageExactly, ShardManager.ThirdTableDoubled) or panic (ShardManager.PanicExactly,
  ShardManager.TwoAtOncePanics), and with no table at all the shard is emptied. MigrateTable calls it with a list.
- AddTable appends to the index where a reload would sort by shard (ShardViews.AddExactly, ShardViews.AddedOutOfOrder).
- UpdateShardVersionWithExpect does not compare the expected version with anything (ShardManager.ExpectationExactly,
  ShardManager.StoredAgainstExpectation).
- CreateShardViews puts two operations per view into a transaction, so that a chunk can exceed MaxOpsPerTxn
  (ShardManager.OpsExactly, ShardManager.TooManyOps). A failure leaves the chunks before it stored, and memory is then
  what a reload builds exactly when there are none (ShardManager.TopologyManager.CreateShardViews).
- DropTable dereferences nil exactly when the schema has no table in memory
  (TableManager.TableManagerImpl.DropTable), and the drop of the only table of a schema, and no other, leaves an empty
  entry that a reload would not have (TableManager.DropExactly, TableManager.LastDropLeavesEntry).
- A failed requeue drops the ready procedures with their locks held for good (Procedures.StrandedExactly
  for a ticket over a run, Procedures.LeakExactly for a lock, Procedures.LeakingRun).
- Scan skips the next key when the last key of a batch is deleted before the next request (Scan.MissedExactly for a
  whole scan, Scan.NextVisitedExactly for one request, Scan.SkippedKey).
- FindMinHoleValueAndIndex can return an ID below the minimum when smaller IDs are in use (ReusableId.HoleExactly,
  ReusableId.HoleBelowMinimum).
- simpleCompare takes some changed reports for unchanged when a shard is cached twice (ShardCompare.SimpleExactly, whose
  proof gives such a report for every cached list with a duplicate).
- An allocStep of zero hands out the same ID again (IdAllocator.ZeroStepRepeats), and reused table IDs break the table
  catalogue (TableCatalogue.ReuseBreaksBijection, with the exact condition of a delete in TableCatalogue.DeleteExactly).

## Model

| member | source | states |
|---|---|---|
| HashTheorems.RoomExactly | server/coordinator/scheduler/nodepicker/hash/consistent_uniform.go:204-227 | for every hasher, partition count and member list, the assertion "not enough room to distribute partitions" holds exactly when the partitions fit under the ceiling of the average load on the members that kept a ring slot |
| HashTheorems.NeverOutOfRoom | server/coordinator/scheduler/nodepicker/hash/consistent_uniform.go:132-227 | with distinct members that all kept a slot the assertion never fails |
| HashTheorems.EvenlyPlaced | server/coordinator/scheduler/nodepicker/hash/consistent_uniform.go:175-227 | every partition 0..P-1 is placed exactly once, both representations agree, and all loads lie between floor and ceiling of the average if and only if the floor is zero or every member kept a slot |
| HashTheorems.RingOfBuild | server/coordinator/scheduler/nodepicker/hash/consistent_uniform.go:258-284 | the ring of every build: each hash is in it once for every pair of a member and a replica number that hashes to it, and is owned by the greatest member name with such a replica |
| HashTheorems.PlacedInTurn | server/coordinator/scheduler/nodepicker/hash/consistent_uniform.go:175-227 | the distribution of every build: partition after partition goes to the first slot below the load limit, from the first slot on whose hash reaches that of the partition, or from slot zero when none does; the limit is the floor until every slot owner has reached it, then the ceiling |
| HashTheorems.LimitsExactly | server/coordinator/scheduler/nodepicker/hash/consistent_uniform.go:143-146 | the lower limit is the greatest load that all members can have, the upper one the least under which all partitions have room |
| HashTheorems.RepairedInOrder | server/coordinator/scheduler/nodepicker/hash/consistent_uniform.go:286-380 | the repair of every build: rule after rule in the order of the partitions, and for each the picked partitions leave its host one after the other for the first slot of an unlisted member under the ceiling or, above it, of least load |
| HashTheorems.RepairConserves | server/coordinator/scheduler/nodepicker/hash/consistent_uniform.go:286-380 | whatever the affinity rules, satisfiable or not, no partition is lost or duplicated by the repair and both representations still agree |
| HashTheorems.RulesAreMet | server/coordinator/scheduler/nodepicker/hash/consistent_uniform.go:286-330 | with fewer rules than members that kept a slot and existing partitions, the member that held a rule's partition when the rule was applied ends within the rule |
| HashTheorems.FinalOwnersExactly | server/coordinator/scheduler/nodepicker/hash/consistent_uniform.go:286-330 | whatever the allowances, with fewer rules than slot owners: the final owner of a rule's partition is the member that held it when the rule was applied, and so within the rule, if and only if no later rule for that member picked the partition to leave |
| HashTheorems.StaysInEveryBuild | server/coordinator/scheduler/nodepicker/hash/consistent_uniform.go:286-330 | over all builds of the same inputs, with fewer rules than slot owners: a ruled partition ends within its rule with the member that held it in every build if and only if in no build a later rule for another partition finds that member over its limit |
| HashTheorems.FinalOwnersWithinRules | server/coordinator/scheduler/nodepicker/hash/consistent_uniform.go:286-330 | if the allowances do not shrink along the partition numbers, the final owner of every ruled partition is within its rule, and it is alone there when no others are allowed |
| HashTheorems.SameRing | server/coordinator/scheduler/nodepicker/hash/consistent_uniform.go:214-284 | the ring, the limits and the distribution do not depend on the order of the member list |
| HashTheorems.OwnersIndependentOfOrder | server/coordinator/scheduler/nodepicker/hash/consistent_uniform.go:132-173 | two builds agree on every owner whatever the order of members, rules and map iterations, when the sorts bring the rules into one order (always so when rules for one partition are equal) and each rule allows no others or finds its member within the limit |
| HashTheorems.ExclusiveRulesIndependentOfOrder | server/coordinator/scheduler/nodepicker/hash/consistent_uniform.go:132-173 | in particular when all rules allow no others |
| HashExamples.OutOfRoom | server/coordinator/scheduler/nodepicker/hash/consistent_uniform.go:204-227 | two members whose virtual nodes collide and two partitions: the assertion fails |
| HashExamples.Uneven | server/coordinator/scheduler/nodepicker/hash/consistent_uniform.go:175-227 | three members, one of them without a slot, and four partitions: all are placed, and a member is outside the floor and ceiling of the average |
| HashExamples.RuledPartitionMovedAway | server/coordinator/scheduler/nodepicker/hash/consistent_uniform.go:286-330 | a build of three members with two partitions each and the rules one other with partition 0, none with partition 1: partition 0 ends on a member with two others |
| Placement.Layout.DistributedSucceeds | server/coordinator/scheduler/nodepicker/hash/consistent_uniform.go:214-227 | distribution succeeds exactly when the number of partitions is at most the number of slot-owning members times the ceiling |
| Placement.Layout.DistributedAgrees | server/coordinator/scheduler/nodepicker/hash/consistent_uniform.go:214-227 | after a distribution memPartitions is the inverse image of partitionDist through the ring, over exactly the partitions distributed |
| Placement.Layout.Balanced | server/coordinator/scheduler/nodepicker/hash/consistent_uniform.go:175-227 | all loads within floor and ceiling if and only if the floor is zero or every member owns a slot |
| Placement.Layout.Target | server/coordinator/scheduler/nodepicker/hash/consistent_uniform.go:332-380 | greedy optimality of an offload: the receiver is not on the list, and its new load is within the limit or no other candidate would end up lower; no receiver if and only if every other candidate is full |
| Placement.Layout.OffloadKeeps | server/coordinator/scheduler/nodepicker/hash/consistent_uniform.go:332-380 | an offload conserves partitions, gives nothing to a listed member, and takes from the source the partition or nothing |
| Placement.Layout.PlaceExactly | server/coordinator/scheduler/nodepicker/hash/consistent_uniform.go:175-212 | one partition goes to the first slot from its start on below the limit in force, and finds no place if and only if every slot owner is at the ceiling |
| Placement.Layout.OffloadExactly | server/coordinator/scheduler/nodepicker/hash/consistent_uniform.go:332-380 | one offload moves the partition to the first slot after its own of an unlisted member under the ceiling or, above it, of least load; it changes nothing if and only if no such member has room below the total |
| Affinity.EvictKeeps | server/coordinator/scheduler/nodepicker/hash/consistent_uniform.go:308-330 | the same for a whole list of partitions moved off a member |
| Affinity.EvictSucceeds | server/coordinator/scheduler/nodepicker/hash/consistent_uniform.go:308-330 | every listed partition leaves the member as long as a member off the list owns a slot |
| Affinity.RuleMet | server/coordinator/scheduler/nodepicker/hash/consistent_uniform.go:286-330 | one rule leaves its member with at most the allowed others, with exactly that many if it had them, and removes exactly the chosen partitions |
| Affinity.RulesMet | server/coordinator/scheduler/nodepicker/hash/consistent_uniform.go:286-305 | all rules applied one after the other: every host stays within its rule to the end |
| Affinity.StaysUnlessPicked | server/coordinator/scheduler/nodepicker/hash/consistent_uniform.go:286-330 | a ruled partition is with its host at the end if and only if no later rule with that host picked it |
| Affinity.RuledPartitionsStay | server/coordinator/scheduler/nodepicker/hash/consistent_uniform.go:286-305 | with allowances that do not shrink every ruled partition is still with its host at the end |
| Affinity.StaysExactly | server/coordinator/scheduler/nodepicker/hash/consistent_uniform.go:286-330 | a partition that shares the host of a later rule stays there under every map iteration order if and only if that rule finds the host within its limit; so a later rule with a smaller allowance can evict an earlier ruled partition |
| RepairOutcomes.StaysInEveryRepair | server/coordinator/scheduler/nodepicker/hash/consistent_uniform.go:286-330 | for a whole list of rules: a ruled partition is with its host at the end under every map iteration order if and only if under none of them a later rule for another partition finds that host over its limit |
| Affinity.ForcedRepairUnique | server/coordinator/scheduler/nodepicker/hash/consistent_uniform.go:286-330 | the repair has a single outcome when every rule allows no others or offloads nothing |
| Affinity.UniqueIffForced | server/coordinator/scheduler/nodepicker/hash/consistent_uniform.go:308-330 | for one rule the outcome is independent of the map iteration order if and only if the rule allows no others or offloads nothing |
| ConsistentHash.Search | server/coordinator/scheduler/nodepicker/hash/consistent_uniform.go:219-221 | binary search finds the first slot not below the key |
| ConsistentHash.PickLeavers | server/coordinator/scheduler/nodepicker/hash/consistent_uniform.go:308-326 | an ascending list of all but the allowed number of the other partitions |
| ConsistentHash.ConsistentUniformHash.InitializeVirtualNodes | server/coordinator/scheduler/nodepicker/hash/consistent_uniform.go:258-284 | the ring is sorted; each hash is in it once for every pair of a name and a replica number that hashes to it, and is owned by the greatest name with one |
| ConsistentHash.ConsistentUniformHash.DistributePartitionWithLoad | server/coordinator/scheduler/nodepicker/hash/consistent_uniform.go:175-202 | the partition goes to the first member met on the ring below the load, or nowhere |
| ConsistentHash.ConsistentUniformHash.DistributePartition | server/coordinator/scheduler/nodepicker/hash/consistent_uniform.go:204-212 | the floor is tried before the ceiling |
| ConsistentHash.ConsistentUniformHash.DistributePartitions | server/coordinator/scheduler/nodepicker/hash/consistent_uniform.go:214-227 | the maps become the distribution function of the ring and the start slots |
| ConsistentHash.ConsistentUniformHash.GetPartitionOwner | server/coordinator/scheduler/nodepicker/hash/consistent_uniform.go:247-256 | the owner is the only member whose partition set has the partition; none exactly for an unplaced partition |
| ConsistentHash.ConsistentUniformHash.EnsureAffinity | server/coordinator/scheduler/nodepicker/hash/consistent_uniform.go:286-305 | the maps become the repair function for some choices the map iteration can make |
| ConsistentHash.ConsistentUniformHash.OffloadMember | server/coordinator/scheduler/nodepicker/hash/consistent_uniform.go:308-330 | an eviction of an ascending choice of the other partitions |
| ConsistentHash.ConsistentUniformHash.OffloadPartition | server/coordinator/scheduler/nodepicker/hash/consistent_uniform.go:332-342 | the partition goes to the target function's slot at the lowest limit that has one |
| ConsistentHash.ConsistentUniformHash.OffloadPartitionWithAllowedLoad | server/coordinator/scheduler/nodepicker/hash/consistent_uniform.go:344-380 | the partition moves to the first candidate under the limit, or nothing changes |
| ConsistentHash.BuildConsistentUniformHash | server/coordinator/scheduler/nodepicker/hash/consistent_uniform.go:132-173 | which error for which input, and otherwise a hash with the ring of the members' replicas that is the distribution followed by the repair, or the failed assertion |
| IdAllocator.NoIdTwice | server/id/id_impl.go:62-164 | in every run of any number of allocators with interleaved requests, lost responses, crashes and restarts, no ID is handed out twice, each allocator's IDs increase, and the guard against a smaller stored value never fires |
| IdAllocator.KeyGrowsByStep | server/id/id_impl.go:116-164 | in every step that changes the key it grows by exactly the step of the allocator whose transaction wrote, from a missing key as from zero |
| IdAllocator.IssuedExactly | server/id/id_impl.go:62-164 | in every run, whatever the steps: an ID handed out is the first one its allocator has left, or the value of the key before a lease of exactly allocStep IDs; so the IDs of a lease are consecutive |
| IdAllocator.StepKeeps | server/id/id_impl.go:62-164 | each request, crash or start keeps the leased ranges disjoint and above every ID handed out |
| IdAllocator.ZeroStepRepeats | server/id/id_impl.go:116-164 | with an allocStep of zero two allocators hand out the same ID |
| IdAllocator.OthersLeave | server/id/id_impl.go:62-164 | the other allocators' steps do not touch an allocator's range |
| IdAllocator.AlwaysPositive | server/id/id_impl.go:62-164 | allocators never change their step: a run that ends with positive steps has had them throughout, so that the law of the allocator applies to it |
| IdAllocator.CallGivesNewId | server/id/id_impl.go:62-86 | in a run from the empty system with positive steps, what a call adds to its allocator's IDs is in the log once, and was in nobody's before |
| IdAllocator.AllocatorImpl.Alloc | server/id/id_impl.go:62-86 | the code is a run of the protocol under interference; the ID it returns is the one the log gains for it, the first one left of the lease or else the first of a new lease of allocStep IDs that ends at the value of the key; in a run from the empty system with positive steps nobody has been given that ID before; it fails only after a failed request or by the guard |
| IdAllocator.AllocatorImpl.SlowRebaseLocked | server/id/id_impl.go:92-110 | reads the key and rebases on what it finds, first time or not; success leaves a lease of allocStep IDs that ends at the value of the key |
| IdAllocator.AllocatorImpl.FastRebaseLocked | server/id/id_impl.go:112-114 | rebases on the value in memory without reading; success leaves a lease of allocStep IDs from there on |
| IdAllocator.AllocatorImpl.FirstDoRebaseLocked | server/id/id_impl.go:116-136 | success has created the key with allocStep, which is the end of the lease |
| IdAllocator.AllocatorImpl.DoRebaseLocked | server/id/id_impl.go:138-164 | success has written the expected value plus allocStep to the key, and the lease is what lies between |
| ClusterViews.Serializable | server/cluster/metadata/topology_manager.go:402-461 | over any number of managers the stored versions are 0 up to the latest, version k is the fold of the first k committed operations, and every in-memory view with its indexes is that of a committed version |
| ClusterViews.VersionsWrittenOnce | server/storage/storage_impl.go:159-241 | a stored version never changes or disappears, and a step raises the latest version by at most one, together with the log |
| ClusterViews.MemoryNeverGoesBack | server/cluster/metadata/topology_manager.go:537-555 | apart from a crash no step takes a manager's memory to an older version |
| ClusterViews.UpdateKeeps | server/storage/storage_impl.go:213-241 | a commit writes a free version key with the operation applied to the latest version |
| ClusterViews.Storage.CreateClusterView | server/storage/storage_impl.go:159-186 | success means that no view was stored before the call and that version 0 is the only one now; it fails when a view is stored, and may fail after the effect |
| ClusterViews.Storage.UpdateClusterView | server/storage/storage_impl.go:213-241 | commits only against the version it was given; on success the log has exactly one more operation, the manager's |
| ClusterViews.Storage.GetLatestVersion | server/storage/storage_impl.go:188-194 | a version at least as new as everything committed before the call |
| ClusterViews.Storage.GetView | server/storage/storage_impl.go:196-211 | the view of the version asked for |
| TopologyViews.KeepOthers | server/cluster/metadata/topology_manager.go:378-400 | the entries of which no dropped one has the node and the ID, in order, each as often as before |
| TopologyViews.KeepOffGroups | server/cluster/metadata/topology_manager.go:444-461 | the entries whose node is not in the given map, in order |
| TopologyViews.BuildIndexes | server/cluster/metadata/topology_manager.go:546-552 | each index has the shards or nodes of the view as keys, and under each exactly its entries in the view's order |
| TopologyViews.TopologyManager.LoadClusterView | server/cluster/metadata/topology_manager.go:537-555 | memory becomes a committed view with its indexes, no older than the commits before the call; it fails exactly when a request does, and then changes nothing |
| TopologyViews.TopologyManager.InitClusterView | server/cluster/metadata/topology_manager.go:402-417 | a run of the protocol that succeeds exactly when no request fails, only where no view was stored, and then version 0 is stored with no nodes and a committed view is in memory; an error leaves memory alone |
| TopologyViews.TopologyManager.UpdateClusterViewWithLock | server/cluster/metadata/topology_manager.go:426-442 | success, exactly when no request fails, commits the operation on top of the version in memory, and the next version is the result of the operation |
| TopologyViews.TopologyManager.UpdateClusterView | server/cluster/metadata/topology_manager.go:419-424 | success commits the new state and nodes as the next version |
| TopologyViews.TopologyManager.DropShardNodes | server/cluster/metadata/topology_manager.go:378-391 | success commits the next version with the same state and exactly the entries of which no dropped one has the node and the ID, in order |
| TopologyViews.TopologyManager.UpdateClusterViewByNode | server/cluster/metadata/topology_manager.go:444-461 | success commits the next version with the same state, the given groups one after the other in some order of the map, and then the entries of the other nodes in order |
| TableCatalogue.AlwaysBijection | server/storage/storage_impl.go:295-416 | under every interleaving of CreateTable with DeleteTable's separate read and transaction, with IDs never reused, names and IDs stay a bijection with the stored tables |
| TableCatalogue.DeleteKeeps | server/storage/storage_impl.go:383-416 | a delete that commits removes the very ID its name still has |
| TableCatalogue.DeleteExactly | server/storage/storage_impl.go:383-416 | whatever IDs are used, a delete that commits keeps the bijection if and only if the name still has the ID it read |
| TableCatalogue.OnlyDeletesBreak | server/storage/storage_impl.go:295-416 | no other step can break the bijection, also when IDs are reused |
| TableCatalogue.StepKeeps | server/storage/storage_impl.go:295-416 | every step keeps the bijection and what pending deletes rely on |
| TableCatalogue.ReuseBreaksBijection | server/storage/storage_impl.go:383-416 | with reused IDs there is a run from the empty store that breaks the bijection |
| TableCatalogue.WaitedDelete | server/storage/storage_impl.go:383-416 | the run: a delete waits between its read and its transaction while the name is dropped and created again and the ID given to another table |
| TableManager.ReloadExactly | server/cluster/metadata/table_manager.go:307-335 | the maps in memory are those a reload builds exactly when no schema is left with an emptied entry, and otherwise differ in those entries alone |
| TableManager.DropExactly | server/cluster/metadata/table_manager.go:193-221 | of a memory that is what a reload builds, a drop leaves one that a reload would build if and only if the table is not the only one of its schema |
| TableManager.CreateReloaded | server/cluster/metadata/table_manager.go:178-188 | of a memory that is what a reload builds, a creation leaves one that a reload would build |
| TableManager.LastDropLeavesEntry | server/cluster/metadata/table_manager.go:217-219 | a memory just loaded with one schema and one table: after the drop it has an empty entry for the schema, and a reload builds none |
| TableManager.CreateSynced | server/cluster/metadata/table_manager.go:178-188 | adding the table to both maps keeps them what the store holds |
| TableManager.DeleteSynced | server/cluster/metadata/table_manager.go:217-219 | removing the table from both maps keeps them what the store holds |
| TableManager.FilledLoaded | server/cluster/metadata/table_manager.go:307-335 | the loading loop gives the two maps of the stored directory |
| TableManager.TableManagerImpl.Load | server/cluster/metadata/table_manager.go:88-101 | memory becomes exactly what the store holds, without emptied entries; it fails exactly when a request does |
| TableManager.TableManagerImpl.LoadTables | server/cluster/metadata/table_manager.go:307-335 | the same for the tables of all schemas |
| TableManager.TableManagerImpl.GetTable | server/cluster/metadata/table_manager.go:337-351 | finds a table exactly when the store has its name, and gives the stored table |
| TableManager.TableManagerImpl.CreateTable | server/cluster/metadata/table_manager.go:136-191 | the exact cause of every outcome: the allocation failed, or the request got no answer or the ID is in use; on success store and memory gain the table, and memory stays what a reload builds; otherwise nothing changes |
| TableManager.TableManagerImpl.DropTable | server/cluster/metadata/table_manager.go:193-221 | store and memory lose the table and memory keeps its entries, so that it stays what a reload builds exactly unless the only table of the schema is dropped; nil dereference exactly when the schema has no entry in memory, an error exactly when the request fails |
| TableManager.TableManagerImpl.GetOrCreateSchema | server/cluster/metadata/table_manager.go:258-289 | an existing schema is returned unchanged, a new one is stored with the given ID and cached; none exactly for a failed allocation or request |
| TableManager.Storage.CreateTable | server/storage/storage_impl.go:295-322 | both keys are written exactly when both are missing and the request gets through, otherwise neither |
| TableManager.Storage.DeleteTable | server/storage/storage_impl.go:383-416 | both keys are removed, or neither |
| ShardManager.AlwaysSynced | server/cluster/metadata/topology_manager.go:202-515 | throughout every run from the empty system, in which shards with new tables are created, tables are added only where no shard has them and removed one at a time, and versions are set, the shard views and the table index in memory are what a reload builds, every latest_version key points at a stored view, and no table is on two shards |
| ShardManager.CreatesKeeps | server/cluster/metadata/topology_manager.go:470-491 | the creation of shards keeps all of that |
| ShardViews.AddExactly | server/cluster/metadata/topology_manager.go:202-244 | AddTable keeps the index what a reload builds if and only if none of the tables is on a later shard |
| ShardViews.AddedOutOfOrder | server/cluster/metadata/topology_manager.go:202-244 | a table of shard 1 added to shard 0 is indexed in the wrong order |
| ShardViews.RemoveExactly | server/cluster/metadata/topology_manager.go:255-279 | for any list of tables, RemoveTable keeps the index what a reload builds if and only if no other shard has any of them, no table of the shard is removed together with a different one, and there is one table in the list or the shard has no others |
| ShardViews.RemovedFromBoth | server/cluster/metadata/topology_manager.go:276-279 | a table on two shards that is removed from one is dropped from the index altogether |
| ShardViews.FilterExactly | server/cluster/metadata/topology_manager.go:255-262 | the double loop is a set difference if and only if there is exactly one ID, apart from an empty shard and from repetitions of the only table |
| ShardViews.KeptExactly | server/cluster/metadata/topology_manager.go:255-262 | for any ID list the double loop leaves every table of the shard once for every ID that differs from it |
| ShardViews.VersionKeepsIndex | server/cluster/metadata/topology_manager.go:493-515 | a new version alone leaves the index right |
| ShardViews.IndexExactly | server/cluster/metadata/topology_manager.go:557-582 | the index of a reload has the tables of all shards, and under each the shards in ascending order, each as often as its view has the table |
| ShardManager.MemoryFollowsStorageExactly | server/cluster/metadata/topology_manager.go:255-289 | memory ends with the tables that were stored if and only if no table of the shard is removed together with a different table |
| ShardManager.PanicExactly | server/cluster/metadata/topology_manager.go:281-289 | the loop over the shrinking slice panics if and only if it reaches a table to remove whose index, with the cuts made up to it, exceeds the length of the list |
| ShardManager.TwoAtOncePanics | server/cluster/metadata/topology_manager.go:281-289 | two tables removed at once from a shard that has just these two panic |
| ShardManager.ThirdTableDoubled | server/cluster/metadata/topology_manager.go:255-289 | with a third table on the shard the same removal does not panic: all three tables are stored, the third one twice, and memory has the third one twice |
| ShardManager.UpdatedLatest | server/storage/storage_impl.go:513-547 | an update replaces the latest view of its shard and no other, whatever version it is told to delete and whether or not the deletion succeeds |
| ShardManager.Storage.UpdateShardView | server/storage/storage_impl.go:513-547 | both keys are put without a comparison; the old version key may be deleted |
| ShardManager.Storage.CreateNShardViews | server/storage/storage_impl.go:418-446 | one transaction of two puts per view: all views when no key is there yet, otherwise none |
| ShardManager.Storage.CreateShardViews | server/storage/storage_impl.go:448-466 | chunk by chunk: success stores all views with the transactions of the chunking function, failure leaves exactly a prefix of them stored; with a MaxOpsPerTxn of zero and a view to create nothing is stored and the loop ends only by an error |
| ShardManager.OpsExactly | server/storage/storage_impl.go:448-466 | every transaction has at most MaxOpsPerTxn puts if and only if there are no views or twice their number is at most MaxOpsPerTxn |
| ShardManager.TxnOpsExactly | server/storage/storage_impl.go:448-466 | two puts for every view in all, and every transaction but the last is for MaxOpsPerTxn views |
| ShardManager.StoredExactly | server/storage/storage_impl.go:418-446 | views of different shards: each is stored under its version, which is the latest, and the keys of no other shard change |
| ShardManager.TooManyOps | server/storage/storage_impl.go:448-466 | with the default of 32, 17 views go into one transaction of 34 puts |
| ShardManager.Storage.ListShardViews | server/storage/storage_impl.go:468-511 | the latest view of every shard, in the order of the shards |
| ShardManager.TopologyManager.LoadShardViews | server/cluster/metadata/topology_manager.go:557-582 | memory becomes what the store holds; it fails exactly when the request does, and then changes nothing |
| ShardManager.TopologyManager.AddTable | server/cluster/metadata/topology_manager.go:202-244 | memory follows storage, with the exact condition for the index; errors change nothing |
| ShardManager.TopologyManager.RemoveTable | server/cluster/metadata/topology_manager.go:246-292 | for any ID list: what is stored, what the index becomes, exactly when it panics, exactly when memory follows storage, and exactly when memory is what a reload builds |
| ShardManager.TopologyManager.UpdateShardVersionWithExpect | server/cluster/metadata/topology_manager.go:493-515 | the version is stored whatever version is expected; memory stays in step |
| ShardManager.ExpectationExactly | server/cluster/metadata/topology_manager.go:64-65 | the promise that the version changes only from the expected one is kept if and only if the version in memory is the expected one, or is the new one already |
| ShardManager.StoredAgainstExpectation | server/cluster/metadata/topology_manager.go:493-515 | a run from the empty system that stores version 1 of a shard at version 0 although version 7 is expected |
| ShardManager.TopologyManager.CreateShardViews | server/cluster/metadata/topology_manager.go:470-491 | success is the creating step of the runs and leaves memory what a reload builds; failure leaves memory alone with a prefix stored, and memory that was in step stays so exactly when that prefix is empty |
| Procedures.AlwaysExclusive | server/coordinator/procedure/manager_impl.go:93-256 | in every state of every interleaving of submitters, promotion loops and workers no two tickets hold the lock of one shard, the lock set is exactly what is held, every runningProcedures entry names the holder, the queue has each waiting ticket once, under different IDs and within its length, and UnLock has not panicked |
| Procedures.RunningApart | server/coordinator/procedure/manager_impl.go:153-196 | two procedures that run at the same time share no shard |
| Procedures.EntryRemovedByOwner | server/coordinator/procedure/manager_impl.go:174-196 | only the worker of the named ticket removes a runningProcedures entry, and nothing replaces one |
| Procedures.LockReleasedByOwner | server/coordinator/procedure/manager_impl.go:174-196 | only the worker of the ticket that holds a lock releases it |
| Procedures.RunsToTheEnd | server/coordinator/procedure/manager_impl.go:153-256 | with a promotion loop that has nothing else ready, a waiting procedure whose shards are free can run from end to end; then it has left the queue, and the locks, runningProcedures and the loops are what they were |
| Procedures.StepKeeps | server/coordinator/procedure/manager_impl.go:153-256 | each step keeps all of that |
| Procedures.StrandsExactly | server/coordinator/procedure/manager_impl.go:251-253 | a turn of the promotion loop strands the ready procedures of its loop at its push if and only if the queue is full or has the procedure's ID |
| Procedures.StrandedExactly | server/coordinator/procedure/manager_impl.go:223-256 | in every run a procedure is stranded if and only if it was ready when a push of its loop failed in that way |
| Procedures.StrandedForever | server/coordinator/procedure/manager_impl.go:251-253 | the locks of a ready procedure that such a push drops are never released |
| Procedures.LeakExactly | server/coordinator/procedure/manager_impl.go:223-256 | when nothing is under way all locks are free if and only if no push of the run failed while its loop had a procedure with a shard ready |
| Procedures.LeakingRun | server/coordinator/procedure/manager_impl.go:223-256 | for every queue length a run from the start that leaves a lock held for good: a refused procedure is submitted again before it is pushed back |
| EntryLocks.EntryLock.TryLock | server/coordinator/lock/entry_lock.go:36-52 | all the entries are locked, or none when one is locked already |
| EntryLocks.EntryLock.UnLock | server/coordinator/lock/entry_lock.go:54-68 | all are unlocked, or a panic before any is when one is not locked |
| ProcedureManager.OthersLeave | server/coordinator/procedure/manager_impl.go:153-256 | other participants' steps leave one's own tickets where they are |
| ProcedureManager.ManagerImpl.ReleaseShards | server/coordinator/procedure/manager_impl.go:184-190 | shard by shard release under interference is a run of the protocol that never panics and ends with nothing held |
| ProcedureManager.ManagerImpl.StartLoop | server/coordinator/procedure/manager_impl.go:57-71 | one more promotion loop, with nothing ready |
| ProcedureManager.ManagerImpl.Submit | server/coordinator/procedure/manager_impl.go:93-104 | one new ticket is queued, due at once, or none exactly when the queue is full or has the ID |
| ProcedureManager.ManagerImpl.PromoteTurn | server/coordinator/procedure/manager_impl.go:229-255 | one turn of the promotion loop over the real queue and locks, under interference, with every step it makes and when: nothing due, or the due procedure of least time is popped and discarded exactly when not valid for the topology, ready with all its locks, back in the queue after the delay, or lost exactly when the queue is full or has the ID; the ready ones stay, and are stranded in that last case alone |
| ProcedureManager.ManagerImpl.PromotePass | server/coordinator/procedure/manager_impl.go:223-256 | the whole promotion loop under interference as the list of its turns, one for each clock reading and topology: it ends exactly at the first turn that finds nothing due or fails to push; the list it returns is exactly the procedures of the turns that got their locks, in order, and a failed push returns none and strands all of them |
| ProcedureManager.PassFacts | server/coordinator/procedure/manager_impl.go:223-256 | so every procedure in the list was valid for the topology of a turn, and a pass that took all leaves nothing due in the queue |
| ProcedureManager.ManagerImpl.StartProcedurePromoteInternal | server/coordinator/procedure/manager_impl.go:153-172 | a pass that ends with nothing due starts exactly the procedures of the turns that got their locks and leaves the loop with none; a pass with a failed push starts none |
| ProcedureManager.ManagerImpl.PromoteInternal | server/coordinator/procedure/manager_impl.go:153-172 | every ready procedure of the loop is entered for each of its shards and then has a worker, each of them is begun with its own job, and the loop has nothing left ready or entered |
| DelayQueue.FirstIsLeast | server/coordinator/procedure/delay_queue.go:56-58 | the head of the heap has the least time |
| DelayQueue.LeastPending | server/coordinator/procedure/delay_queue.go:79-86 | the peeked entry is pending and none is pending for an earlier time |
| DelayQueue.Queue.Push | server/coordinator/procedure/delay_queue.go:105-124 | refuses when full, then when the ID is queued, and otherwise adds the entry; heap order, distinct IDs, the ID set and the length bound are kept |
| DelayQueue.Queue.Pop | server/coordinator/procedure/delay_queue.go:126-143 | gives out a due entry of least time and removes it and its ID, or nothing when none is due |
| Promotion.PromoteProcedure | server/coordinator/procedure/manager_impl.go:223-256 | at a fixed clock and topology the loop ends and no requeue fails: what was not due waits on; of what was due the invalid is gone, the ready are valid, pairwise disjoint and have all their locks, and the rest is back with the delay because a shard was locked or went to one due no later |
| Versions.CheckValid | server/coordinator/procedure/manager_impl.go:199-219 | valid exactly when the cluster version and the version of every shard are the current ones |
| Versions.BuildBatchRelatedVersionInfo | server/coordinator/procedure/operation/transferleader/batch_transfer_leader.go:63-96 | succeeds exactly when cluster, cluster version and shard versions agree pairwise, and gives their union |
| Versions.BatchCurrentExactly | server/coordinator/procedure/operation/transferleader/batch_transfer_leader.go:63-96 | on every topology the batch is valid exactly when every member is |
| Versions.MergeableExactly | server/coordinator/procedure/operation/transferleader/batch_transfer_leader.go:63-96 | members of one cluster merge exactly when some topology makes all of them valid |
| Scan.Scan | server/etcdutil/util.go:53-125 | for every batch size and whatever others add and delete between its requests: the callback gets the news of the answers in turn up to its first error, and the scan stops there, at the first answer that is too short, or exactly at a failed request; the answers are those the store gave; while keys are only added it misses none of the range that was there at the start |
| Scan.MissedExactly | server/etcdutil/util.go:53-125 | whatever others add and delete: of a key of the range that is there all the time, a finished scan misses it if and only if it was, at some later request, the first key after the end of the batch before, and that end had been deleted |
| Scan.GivenInOrder | server/etcdutil/util.go:53-125 | whatever others add and delete, the keys given lie in the range and come in strictly ascending order, so each once |
| Scan.GivenWasThere | server/etcdutil/util.go:53-125 | every key that is given was in the store at one of the requests |
| Scan.GrowingScan | server/etcdutil/util.go:53-125 | while keys are only added, the callback gets keys of the range in order, each once, misses none that was there at the start, and stops at its first error |
| Scan.UnchangedExactly | server/etcdutil/util.go:53-125 | on an unchanging store a finished scan gives exactly the keys of the range |
| Scan.NextVisitedExactly | server/etcdutil/util.go:87-122 | a later batch visits the next key of the range if and only if the last key of the batch before is still in the store |
| Scan.SkippedKey | server/etcdutil/util.go:87-122 | three keys read two at a time: when the second one is deleted in between, the next request, with limit three, gets one key, the scan stops, and the third key, there all the time, is never given |
| Scan.Round | server/etcdutil/util.go:87-122 | a batch repeats one key, goes on without a gap, and a short one is the last |
| Scan.BatchExactly | server/etcdutil/util.go:87-122 | with a positive batch size a request adds no more keys than that, and one that adds fewer has shown all that was left |
| KeyPath.FmtOrder | server/storage/key_path.go:128-130 | formatted IDs are ordered and told apart as the numbers are, for all 64-bit IDs |
| KeyPath.FmtRoundTrip | server/storage/key_path.go:128-130 | a formatted ID has twenty digits and reads as the ID |
| KeyPath.KeysApart | server/storage/key_path.go:39-130 | no two clusters, views, schemas, tables, names, shard views or nodes share a key |
| KeyPath.ListTablesRange | server/storage/storage_impl.go:359-360 | the range ListTables scans has exactly the keys of that schema's tables below the greatest ID, and no key of another family |
| KeyPath.ListTablesExactly | server/storage/storage_impl.go:358-381 | a finished listing of an unchanging store is exactly the schema's tables below the greatest ID, in ID order |
| Rebalanced.SchedulerImpl.Schedule | server/coordinator/scheduler/rebalanced/scheduler.go:106-193 | the target is that of the generated mapping; a regular topology gets exactly as many transfers as the batch allows, of different misplaced or unassigned shards, from where they are to their targets, and an error exactly when there are some and they cannot be created |
| Rebalanced.SchedulerImpl.GenerateLatestShardNodeMapping | server/coordinator/scheduler/rebalanced/scheduler.go:195-220 | the target is frozen while enableSchedule is set; otherwise there is none exactly without alive nodes, it crashes exactly when the hash of the alive nodes has no room or a shard is out of range, and else every shard goes to its owner under that hash, built with the affinity rules for as many partitions as shards |
| Rebalanced.CurrentExactly | server/coordinator/scheduler/rebalanced/scheduler.go:123-150 | of several entries of a shard the last one counts |
| Rebalanced.MoveListed | server/coordinator/scheduler/rebalanced/scheduler.go:123-150 | the loop over listed shards: every one looked at is in place or transferred, unless the batch is full |
| Rebalanced.PlaceUnlisted | server/coordinator/scheduler/rebalanced/scheduler.go:152-178 | with the loop over unassigned shards the transfers are a full plan |
| Rebalanced.RoundRepairs | server/coordinator/scheduler/rebalanced/scheduler.go:106-193 | a round puts the shards it transfers in place and moves no other |
| Rebalanced.ReachedExactly | server/coordinator/scheduler/rebalanced/scheduler.go:106-193 | with a fixed target and batches of at least one, the target is reached after exactly the ceiling of misplaced shards over batch size rounds |
| NodePicker.FilterExpiredNodes | server/coordinator/scheduler/nodepicker/node_picker.go:79-90 | every name with an alive node, mapped to the last such node |
| NodePicker.MembersCount | server/coordinator/scheduler/nodepicker/node_picker.go:98-103 | a name goes to the hash once for every registered node that has it if one of them is alive, and else not at all |
| NodePicker.GenPartitionAffinities | server/coordinator/scheduler/nodepicker/node_picker.go:37-48 | one rule per shard that has one |
| NodePicker.PickNode | server/coordinator/scheduler/nodepicker/node_picker.go:92-128 | every shard asked for goes to the last alive node of the name that owns it under the hash; an error exactly without alive nodes; a panic exactly when the hash is out of room or a shard is out of range |
| ReusableId.HoleExactly | server/id/reusable_id_impl.go:40-59 | the search finds the least unused ID from minID on if and only if one is left and no ID below minID is unused above the least ID in use |
| ReusableId.HoleBelowMinimum | server/id/reusable_id_impl.go:40-59 | with ID 0 in use the search gives out ID 1, below any greater minimum |
| ReusableId.AlwaysDense | server/id/reusable_id_impl.go:94-108 | in every run with at most k IDs in use at a time every ID is below minID + k |
| ReusableId.ReusableAllocatorImpl.Alloc | server/id/reusable_id_impl.go:94-101 | any list gains the value of the search at its index; on a strictly sorted list with nothing below minID that is the least unused ID while one is left, and the list stays so, and zero at the end of the list when every 64-bit ID from minID on is in use |
| ReusableId.ReusableAllocatorImpl.Collect | server/id/reusable_id_impl.go:103-108 | one occurrence of the ID leaves any list, and a panic exactly for an ID not in it; a strictly sorted list stays so and its set loses exactly the ID |
| ReusableId.ReusableAllocatorImpl.constructor | server/id/reusable_id_impl.go:82-92 | a sorted list of the same IDs; it is strictly sorted with nothing below minID when the IDs are distinct and from minID on |
| ReusableId.OrderedList.FindMinHoleValueAndIndex | server/id/reusable_id_impl.go:40-59 | for any list the value and index of the search function, with sums of 64-bit words that wrap |
| ReusableId.OrderedList.Insert | server/id/reusable_id_impl.go:62-69 | the value at the index, everything else in order |
| ReusableId.OrderedList.Remove | server/id/reusable_id_impl.go:71-80 | one occurrence is removed; a panic exactly when there is none |
| ShardCompare.NeedUpdate | server/cluster/metadata/cluster_metadata.go:708-713 | from fifty cached shards on, or without duplicates, an update is needed exactly when the shard IDs changed as a multiset; it is never reported for unchanged ones |
| ShardCompare.SortCompare | server/cluster/metadata/cluster_metadata.go:716-740 | true exactly when the IDs are the same multiset |
| ShardCompare.SimpleCompare | server/cluster/metadata/cluster_metadata.go:743-758 | true exactly when the lengths agree and every cached ID is reported |
| ShardCompare.SimpleExactly | server/cluster/metadata/cluster_metadata.go:743-758 | the simple comparison is right for every report if and only if no shard is cached twice |

## Left out

- ConsistentHash.BuildConsistentUniformHash: the number of partitions is below 2^32 and the average load is divided exactly; the rounding of the float division and the truncation to uint32 are not modelled.
- HashTheorems.FinalOwnersWithinRules: goes one way, as a condition on the allowances alone; the exact condition is HashTheorems.FinalOwnersExactly for one build and HashTheorems.StaysInEveryBuild for all builds of the same inputs.
- HashTheorems.OwnersIndependentOfOrder: for different rules for one partition only builds that apply them in the same order are compared; the sort of the source leaves that order open.
- IdAllocator.NoIdTwice: IDs are unbounded, so the wrap-around of 64-bit IDs is not modelled.
- TableCatalogue.AlwaysBijection: assumes that IDs are never given out again; for reused IDs the exact condition is stated step by step, by TableCatalogue.DeleteExactly and TableCatalogue.OnlyDeletesBreak.
- ProcedureManager.ManagerImpl.PromotePass: under interference the loop need not end, so the number of its turns is bounded by the clock readings and topologies it is given; a pass that runs out of them says so.
- Promotion.PromoteProcedure: one clock reading and one topology for the whole loop, and no submission meanwhile.
- Scan.Scan: values are not carried along, keys added during a scan come from a finite set so that it ends, and the end keys that etcd treats specially (empty, and a single zero byte) are not modelled; which keys a scan with deletions misses is Scan.MissedExactly.
- KeyPath.KeysApart: names that path.Join would clean (dots, empty components) are not modelled.
- Rebalanced.SchedulerImpl.Schedule: for a topology that lists a shard twice or has shard numbers with gaps only the target is promised, not the transfers; whether the transfer procedures can be created is a parameter.
- ReusableId.ReusableAllocatorImpl.Alloc: that the ID is the least unused one is promised for lists without repeated IDs or IDs below the minimum; for other strictly sorted lists see ReusableId.HoleExactly.
- The looplab/fsm step machines of the DDL, split and transfer-leader procedures: they depend on a library and on remote nodes; a procedure is an opaque job with a fixed set of shards.
- Leader election, leases and watching in server/member: they rest on wall clocks and etcd leases.
- Starting and stopping the procedure manager, which can leave two promotion loops: any number of loops is modelled.
- ListNodes, ListClusters and the decoding of shard view keys: further uses of the same scan and encoding.
- Protobuf encoding, the gRPC and HTTP services, configuration, logging and metrics.
- GetTables, GetTablesByIDs, RouteTables and the other read-only queries over the maps: they add easy members only.
- The static, reopen and manual schedulers and the shard pickers: they add easy members only.
