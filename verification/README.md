# Verified models of the archiver's algorithmic cores

This project models the parts of the archiver node where a wrong step changes what the archiver stores or
whom it trusts, and proves what those parts promise, for every input and every interleaving.

- **Shard geometry** (`ShardGeometry`, `PartitionRange`, `NodeScan`, `OlderScans`, `ScanCrossCheck`,
  `ShardCoverage`, `CorrespondingIndices`). A 32-bit address space is cut into N partitions of a rounded size.
  Everything in `src/ShardFunctions.ts` is tied to one specification, "circular distance to the home partition
  is at most the radius": the wrap-around ranges, both range tests, the one-pass and the two-way scans, and the
  `coveredBy` and `storedBy` tables of a cycle.
- **What rests on the geometry**: how far two accepted receipt signature packs must overlap (`ReceiptQuorum`),
  and that one subscribed node in each consensus-radius group covers every partition (`SubscriptionGroups`).
- **Cycle changes**: squashing change records newest to oldest is replaying them oldest to newest
  (`ChangeReplay`, `ChangeSquasher`), and when that is also a replay in which a node that joins again stays as it
  is (`Rejoin`).
- **Node lists** (`NodeList`, `SortedInsert`): the maps and the id-sorted array stay consistent over every operation.
  `NodeListSync` compares the lists built from squashed cycles with those of an archiver that follows every cycle.
- **Agreement and selection**: `RobustQuery` and `RandomItems`.
- **Step machines**, with interleaving at every await: `CycleIntake`, `ReceiptIntake`, `DataLogWriter`, `TxDigests`.
- **Lists kept canonical or pruned without loss of meaning**: `ServiceQueue`, `NetworkChangeQueue`.

`Wrappers` and `Basics` hold what several modules share.

The objects and loops of the source are classes and methods here. Each method is proved equal to a
specification function, or to a property stated outright, and the lemmas are about those functions.
The asynchronous functions are cut at their awaits: a class holds the suspended calls, and a method runs one of
them from one await to the next.

Several promises turn out to hold only under a condition. Where that is so the condition is proved exact:

- The computed `coveredBy` table holds, for every partition, the nodes within the consensus radius r iff
  `N <= 2r + 1` or `e mod N + 2r < N` (e is nodesPerEdge); otherwise every node covers every partition.
- Partition address ranges tile the address space iff `N = 1` or `(N - 1) * size + N < 2^32 - 1`.
- The cross-check of the node scans passes iff every node within r is active and no active node lies beyond the
  store radius but within 2r; with active nodes only, iff `r <= e` or `N <= 2(r + e) + 1`. The archiver's records
  carry no status, so it would always throw; it is switched off.
- Any two accepted signature packs share k owners iff twice the quorum exceeds the covering nodes by k.
- For all replies of n nodes, a query has a winner just when enough nodes agree, iff n is less than the effective
  redundancy and 20 more.
- Squashing is the replay in which a re-joining node stays as it is iff each node's last join repeats its first, the
  last joins come in the order of the first ones, and no update is followed by a re-join with nothing after it.
- A squash stopped early is the full answer iff it has as many nodes and updates as that, and so the lists built
  from the newest cycles only are those built from all iff both have as many nodes and as many active ones.
- Without refreshes, the node lists built from squashed cycles are those of following every cycle iff no node
  stays listed though lost after selection and no update is lost to a re-join.
- No transaction is ever accepted twice between evictions, by any run over a set of receipts:
  - with `newPOQReceipt` off (the default), where no full receipt is fetched in place of a received one, iff no copy
    with a timestamp meets a well-formed copy of its transaction with another timestamp;
  - if full receipts always keep the id of the one they replace, iff moreover no well-formed copy with a timestamp
    meets one without;
  - with `newPOQReceipt` on, where a full receipt may be of any transaction, iff moreover all well-formed receipts
    with an id and a timestamp are of one transaction.
- Finished calls leave no transaction marked as being validated iff no full receipt can be of another transaction
  than the received one.
- A failed append of the log writer leaves it as it was iff it was that of the first queued item.
- Randomly drawn elements are distinct iff nothing is avoided or no more than the unavoided part is asked for.
- A cycle record is handed on short of confirmations iff another record of that counter has enough of them first;
  the first time any has, the record just reported is handed on once for each one that has.
- Two additions to the service queue commute iff they are equal or differ in cycle, priority or hash.

What the step machines promise is not only that nothing wrong happens. A finished call of the receipt store has left
no receipt of its argument out; a message with one cycle record starts that cycle exactly when it is due and newer; an
idle log writer is reached and has written everything; a digest run catches up with the last full batch; and every
ordered selection of elements is drawn by exactly one choice of indices, all of equal shares.

Modelling choices. Numbers are unbounded; quotients that the source computes in floating point are exact
rationals, rounded where the source rounds. Ids, hashes and public keys of a fixed width are natural numbers, so
their order as hex strings is the order of the numbers. Hash functions, random numbers, clocks, configuration
values, peers' answers and database results are parameters. `public key -> assigned id` is a stable injection.

## Model

| member | source | states |
|---|---|---|
| `ShardGeometry.CalculateShardGlobals` | src/ShardFunctions.ts:28-73 | succeeds exactly for groups of at least 2; the group is made odd by adding at most 1, and nodesPerEdge defaults to the consensus radius |
| `ShardGeometry.CircularDistanceIsRingDistance` | src/ShardFunctions.ts:1264-1277 | the three-way minimum is at most r exactly when some d in -r..r steps around the ring lead from home to p |
| `ShardGeometry.AddressRangeIsPartitionRange` | src/ShardFunctions.ts:1379-1426 | while the rounding slack fits, an address lies in the range of partitions lo..hi exactly when its own partition is in lo..hi |
| `ShardGeometry.AddressRangeEnds` | src/ShardFunctions.ts:1379-1426 | it runs from where partition lo starts to just before where the one behind hi starts, or to the top address |
| `ShardGeometry.TilesExactlyWhenSlackFits` | src/ShardFunctions.ts:1379-1426 | single-partition ranges are non-empty and cover every address once, by its partition, if and only if (N-1)*size+N < 2^32-1 or N = 1 |
| `ShardGeometry.SlackFitsUpTo32768` | src/ShardFunctions.ts:1404-1408 | the slack condition holds for every N up to 2^15 |
| `ShardGeometry.OverlapAt131072` | src/ShardFunctions.ts:1404-1408 | at N = 2^17 the top address is in the ranges of two partitions |
| `ShardGeometry.CenterMapsBack` | src/ShardFunctions.ts:374-382 | for N up to 2^15 the centre address of partition i is a 32-bit address of partition i |
| `ShardGeometry.CenterAddress` | src/ShardFunctions.ts:374-375 | the greatest address not above (i + 1/2) / N of the top address |
| `PartitionRange.SpanIsBall` | src/ShardFunctions.ts:161-278 | the span a range record describes holds exactly the partitions within the radius of home, and is split exactly when that ball wraps without being the whole ring |
| `PartitionRange.SpanSizeIs` | src/ShardFunctions.ts:253-268 | a range covers min(N, 2r+1) partitions |
| `PartitionRange.SpanAddresses` | src/ShardFunctions.ts:301-341 | an address is in a span's address ranges iff its partition is in the span iff that partition is within the radius |
| `PartitionRange.WrappablePartitionRange.WrapBounds` | src/ShardFunctions.ts:161-240 | the overlapping wrap blocks leave one of exactly three shapes: the whole ring, an unsplit arc, or a split one with a gap between its parts |
| `PartitionRange.WrappablePartitionRange.FillAddressRanges` | src/ShardFunctions.ts:241-278 | from wrapped bounds: never throws, and the finished record describes the ball around home; from any others, throws exactly when a part it reads is negative |
| `PartitionRange.WrappablePartitionRange.CalculatePartitionRangeInternal` | src/ShardFunctions.ts:161-278 | never throws, and the record describes the ball around home |
| `PartitionRange.CalculateParitionRange` | src/ShardFunctions.ts:124-153 | for every home and radius the record describes the ball around home, without a throw |
| `PartitionRange.CalculateStoredPartitions2` | src/ShardFunctions.ts:102-108 | the stored range is the ball of radius consensusRadius + nodesPerEdge |
| `PartitionRange.CalculateConsensusPartitions` | src/ShardFunctions.ts:110-115 | the consensus range is the ball of the consensus radius |
| `PartitionRange.RangeTestsAgree` | src/ShardFunctions.ts:301-341 | testInRange is circular distance at most the radius; while the slack fits, testAddressNumberInRange agrees with it on every 32-bit address |
| `NodeScan.ScanIsStoreBall` | src/ShardFunctions.ts:1476-1543 | the indices the one-pass scan visits are exactly those within consensusRadius + nodesPerEdge of home |
| `NodeScan.RunDistinct` | src/ShardFunctions.ts:1476-1543 | a run of at most N clockwise steps visits no index twice |
| `NodeScan.CollectedIsCollectAlong` | src/ShardFunctions.ts:1500-1540 | collecting step by step is selecting from the whole scan, for all five lists |
| `NodeScan.GetCombinedNodeLists` | src/ShardFunctions.ts:1476-1543 | terminates; the five lists are the selections of the scan by store radius, consensus radius and home |
| `OlderScans.BothSides` | src/ShardFunctions.ts:1553-1641 | r steps to each side are, without repetition, the other nodes within r when 2r+1 < N |
| `OlderScans.FullCircle` | src/ShardFunctions.ts:1553-1641 | when N <= 2r+1 the right side alone is all other nodes, once each |
| `OlderScans.GetNodesThatCoverHomePartition` | src/ShardFunctions.ts:1553-1641 | both unbounded searches terminate; the result is, without repetition, the other nodes within the store radius |
| `OlderScans.NeighborOrderIsBall` | src/ShardFunctions.ts:1729-1794 | the visiting order of the neighbour scan lists the indices within the radius, home included, without repetition |
| `OlderScans.GetNeigborNodesInRange` | src/ShardFunctions.ts:1729-1794 | for any statuses and any excluded ids: the active nodes of that order that are not excluded, and of a window no more than 2r + 1 less the excluded ids (or the first allowed one, when those are as many) |
| `OlderScans.NeighborsAre` | src/ShardFunctions.ts:1729-1794 | of a ring within the radius all of these nodes; of a window a prefix of them as long as the smaller of their number and its size less the excluded ids, if that is positive, else at most the first node not excluded |
| `OlderScans.NothingIsCut` | src/ShardFunctions.ts:1729-1794 | with home or nothing excluded, as the source calls it, none of them is cut off |
| `ScanCrossCheck.MergeNodeLists` | src/ShardFunctions.ts:1336-1354 | the union, the extras of the second list, and no duplicates from duplicate-free lists |
| `ScanCrossCheck.SubtractNodeLists` | src/ShardFunctions.ts:1362-1377 | the difference, duplicate-free if the first list is |
| `ScanCrossCheck.CombinedLists` | src/ShardFunctions.ts:1476-1543 | each list of the one-pass scan is, without repetition, the nodes its distance condition selects |
| `ScanCrossCheck.OlderLists` | src/ShardFunctions.ts:594-613 | for any statuses: the nodes within the store radius, the active ones within the consensus radius with and without home, and the wide edge list, each without repetition |
| `ScanCrossCheck.CheckNewCalculation` | src/ShardFunctions.ts:684-738 | the cross-check throws exactly when some pair of lists differs as sets |
| `ScanCrossCheck.CombinedAgreesWithOlder` | src/ShardFunctions.ts:684-738 | for any statuses: the store lists always agree as duplicate-free sets, and the check throws exactly when the statuses do not check out |
| `ScanCrossCheck.AllActiveChecksOutExactly` | src/ShardFunctions.ts:663-738 | with active nodes only they check out if and only if consensusRadius <= nodesPerEdge or N <= 2*storeRadius+1 |
| `ScanCrossCheck.NoStatusDoesNotCheckOut` | src/ShardFunctions.ts:684-738 | with a home node that carries no status they never do |
| `ShardCoverage.CycleShardData.ComputePartitionShardDataMap` | src/ShardFunctions.ts:360-388 | every partition gets empty tables, and for N up to 2^15 is its own home partition |
| `ShardCoverage.CycleShardData.ComputeNodePartitionData` | src/ShardFunctions.ts:439-526 | records node i with home partition i, leaves other entries, and does not throw |
| `ShardCoverage.SmallNetworkEnds` | src/ShardFunctions.ts:618-637 | when N <= 2r+1 the first and last consensus nodes in scan order are the first and last visited |
| `ShardCoverage.LargeNetworkEnds` | src/ShardFunctions.ts:618-637 | otherwise they are the two ends of the consensus ball, or the scan's own ends when its start lies inside the ball |
| `ShardCoverage.ConsensusWrapCovers` | src/ShardFunctions.ts:618-661 | walking from the first to the last consensus node visits exactly the partitions the node covers |
| `ShardCoverage.CycleShardData.ConsensusBounds` | src/ShardFunctions.ts:618-637 | the bounds read off the scan enclose exactly the partitions the node covers |
| `ShardCoverage.CycleShardData.AddStored` | src/ShardFunctions.ts:786-814 | adds the node to storedBy of exactly the partitions within the store radius |
| `ShardCoverage.CycleShardData.ComputeExtendedNodePartitionData` | src/ShardFunctions.ts:535-815 | no throw is reachable; an extended node changes nothing, any other is now accounted for in both tables, its recorded bounds enclose exactly what it covers, and no other entry changes |
| `ShardCoverage.CycleShardData.ComputeNodePartitionDataMap` | src/ShardFunctions.ts:390-437 | after the extended pass both tables account for all nodes, and every node has its extended data |
| `ShardCoverage.UpdateShardValues` | src/Data/Cycles.ts:484-553 | for a snapshot of the active list: no throw, storedBy[p] is the nodes within consensusRadius + nodesPerEdge of p, coveredBy[p] the nodes that cover p; the coveredBy table is the consensus ball of every partition if and only if N <= 2r+1 or e mod N + 2r < N |
| `ShardCoverage.CoverageIsConsensusBallExactly` | src/ShardFunctions.ts:618-661 | the covering nodes of every partition are the nodes within the consensus radius of it if and only if N <= 2r+1 or e mod N + 2r < N |
| `ShardCoverage.CoverCount` | src/ShardFunctions.ts:637-661 | every partition is covered by exactly min(N, nodesPerConsenusGroup) nodes, or by all N when the arc is misread |
| `ShardCoverage.StoreCount` | src/ShardFunctions.ts:786-814 | every partition is stored by exactly min(N, 2*(consensusRadius + nodesPerEdge) + 1) nodes |
| `CorrespondingIndices.TargetSteps` | src/ShardFunctions.ts:1956-1981 | targets start at 1, end at the list size and rise by at most one |
| `CorrespondingIndices.EveryToIndexIsATarget` | src/ShardFunctions.ts:1956-1981 | when the from-list is not shorter, every to-index is hit |
| `CorrespondingIndices.WindowNeverMisses` | src/ShardFunctions.ts:1956-1981 | a to-index whose target is this from-index always lies in the search window |
| `CorrespondingIndices.ToIndicesArePartitioned` | src/ShardFunctions.ts:1956-1981 | when the from-list is shorter, every to-index has a from-index whose window finds it |
| `CorrespondingIndices.FastStableCorrespondingIndicies` | src/ShardFunctions.ts:1956-1981 | returns exactly the to-indices whose target is the from-index, ascending, or the one target of a from-index: the integer nearest to index * toSize / fromSize, but at least 1 |
| `ReceiptQuorum.VerifySignaturePack` | src/Data/Collector.ts:551-616 | for any home partition: accepts exactly when s distinct covering signers have 3s >= 2g with POQo, and 6s + 3 > 4g without, for g = min(nodesPerConsenusGroup, N), and returns the least such s; throws exactly for a partition outside the table, a long enough pack and a known signer |
| `ReceiptQuorum.AcceptedPacksOverlap` | src/Data/Collector.ts:552-616 | two accepted packs share at least 2*required - covering owners, so ceil(g/3) under POQo when coverage is exact |
| `ReceiptQuorum.VerifyTwoPacks` | src/Data/Collector.ts:551-616 | end to end: two packs accepted against the shard data of a cycle share that many owners |
| `ReceiptQuorum.TightPacks` | src/Data/Collector.ts:552-616 | packs that overlap no more than that exist |
| `ReceiptQuorum.OverlapGuaranteedExactly` | src/Data/Collector.ts:552-616 | all accepted pairs share k owners if and only if 2*required - covering >= k |
| `ReceiptQuorum.QuorumCanSplit` | src/Data/Collector.ts:552-616 | with 4 nodes, groups of 3 and nodesPerEdge 2, two accepted packs share nobody |
| `SubscriptionGroups.CreateNodesGroupByConsensusRadius` | src/Data/Data.ts:710-734 | the groups are ceil(count/radius) consecutive slices; a radius of 0 leaves them as they were |
| `SubscriptionGroups.GroupOfNode` | src/Data/Data.ts:501-511 | floor(index/radius) names the group that holds the node, at index mod radius |
| `SubscriptionGroups.GroupSize` | src/Data/Data.ts:725-731 | no group is empty or larger than the radius |
| `SubscriptionGroups.GroupMember` | src/Data/Data.ts:725-731 | every group member is the active node its position says |
| `SubscriptionGroups.EveryPartitionIsCovered` | src/Data/Data.ts:710-734 | whichever node is subscribed in each group, every partition has a subscribed covering node |
| `ChangeReplay.ReplayWellFormed` | src/Data/CycleParser.ts:59-97 | replaying keeps ids distinct and updates on present nodes only |
| `ChangeSquasher.AbsorbIsApply` | src/Data/CycleParser.ts:59-97 | absorbing one older event is applying it before the newer ones |
| `ChangeSquasher.AbsorbAllIsReplay` | src/Data/CycleParser.ts:59-97 | the same for any run of older events and any partial squash |
| `ChangeSquasher.SquashIsReplay` | src/Data/CycleParser.ts:59-97 | squashing all events gives the surviving nodes in join order, without duplicates, and their updates |
| `ChangeSquasher.OlderOnlyPrepend` | src/Data/CycleParser.ts:59-97 | older events only prepend to added and to updated |
| `ChangeSquasher.EnoughIsAll` | src/Data/Data.ts:1230-1259 | newer events alone give the full answer if and only if they give as many nodes and updates as all events do |
| `ChangeSquasher.SquashIsReplayKeeping` | src/Data/CycleParser.ts:59-97 | when no present id joins again, the squash is the replay in which a re-join changes nothing |
| `ChangeSquasher.RejoinLosesUpdate` | src/Data/CycleParser.ts:59-97 | a join, an update and a second join leave no update |
| `Rejoin.OrdersAgreeExactly` | src/Data/CycleParser.ts:59-97 | both readings of a re-join list the same nodes in the same order if and only if every last join repeats the first one of that stay and the last joins come in the order of the first |
| `Rejoin.LatestAgreesExactly` | src/Data/CycleParser.ts:59-97 | they hold the same updates if and only if no node with an update joined again without a later update or removal |
| `Rejoin.SquashKeepsExactly` | src/Data/CycleParser.ts:59-97 | the squash is the replay in which a re-join changes nothing if and only if both conditions hold |
| `ChangeSquasher.Squasher.AddChange` | src/Data/CycleParser.ts:59-97 | absorbs the change's removals, updates and joins as events of one change |
| `ChangeSquasher.Squasher.SquashUntilEnough` | src/Data/Data.ts:1230-1259 | squashes at least one earlier cycle and no more than reach the wanted counts; whatever is older, the result is the full answer if and only if it has as many, and so whenever the wanted counts are no smaller |
| `SortedInsert.BinarySearch` | src/Utils.ts:364-386 | an equal element, or the place between the smaller and the greater ones |
| `SortedInsert.InsertSorted` | src/Utils.ts:332-338 | inserts at a place with nothing greater before it and nothing smaller after it |
| `NodeList.Lists.MoveToSyncing` | src/NodeList.ts:106-114 | leaves standby and active, enters syncing, and the sorted list loses exactly that key |
| `NodeList.Lists.MoveToActive` | src/NodeList.ts:115-125 | leaves standby and syncing, enters active, and the sorted list gains exactly that node |
| `NodeList.Lists.AddNode` | src/NodeList.ts:98-140 | all lists agree afterwards; the key moves as its status says; byId gains the known id |
| `NodeList.Lists.AddNodes` | src/NodeList.ts:96-140 | the lists agree and the three rosters are as if the keys were added one by one |
| `NodeList.Lists.RefreshNodes` | src/NodeList.ts:142-177 | the lists agree; known nodes only take their ids, unknown ones are listed |
| `NodeList.Lists.RemoveNodes` | src/NodeList.ts:179-199 | the lists agree; the keys are gone from every list and their ids from byId |
| `NodeList.Lists.AddStandbyNodes` | src/NodeList.ts:201-208 | standby gains exactly the keys; nothing else changes |
| `NodeList.Lists.RemoveStandbyNodes` | src/NodeList.ts:210-215 | standby loses exactly the keys; nothing else changes |
| `NodeList.Lists.SetStatus` | src/NodeList.ts:217-250 | the lists agree; known keys move, unknown ones are ignored |
| `NodeList.Lists.GetNodeInfoById` | src/NodeList.ts:385-388 | finds the entry with that id exactly when the id is known |
| `NodeList.Lists.ChangeNodeListInRestore` | src/NodeList.ts:390-396 | every active node is syncing, nobody is active and the sorted list is empty |
| `NodeList.Lists.ClearNodeLists` | src/NodeList.ts:398-413 | syncing, active and both indices are empty, standby stays |
| `NodeList.AllBackToSyncing` | src/NodeList.ts:217-250 | setting known keys to syncing moves exactly those keys |
| `NodeList.AddedKey` | src/NodeList.ts:96-140 | an added key that is no member leaves standby and is listed with the status; any other stays as it is |
| `NodeList.RefreshedKey` | src/NodeList.ts:142-177 | a refreshed key that is no member is listed with the status and may stay on standby |
| `NodeList.SetKey` | src/NodeList.ts:217-250 | a member whose status is set leaves standby and has that status only |
| `NodeList.RemovedKey` | src/NodeList.ts:179-199 | a removed member is on none of the three lists |
| `NodeList.KnownAfterCycle` | src/Data/Cycles.ts:238-320 | after a cycle record the known ids are those known before, joined or refreshed that do not depart in any of the four ways |
| `NodeList.CycleOnKey` | src/Data/Cycles.ts:238-320 | for any key and any cycle record, refreshes and standby changes included: when it is on standby, syncing and active afterwards, in terms of the record's lists and of where it was |
| `NodeList.FilterByIdIsByKey` | src/NodeList.ts:179-199 | filtering the sorted list by id removes what filtering by public key would |
| `NodeList.WithoutKeySorted` | src/NodeList.ts:179-199 | filtering keeps the list strictly ascending |
| `NodeList.SortedIsDetermined` | src/NodeList.ts:96-140 | two strictly id-sorted lists of the same nodes are equal, so the sorted list depends on the active nodes only |
| `NodeList.Lists.UpdateNodeList` | src/Data/Cycles.ts:238-320 | driven by a cycle record the lists agree; rosters and known ids follow joins, activations, refreshes, standby changes and the three kinds of departure in order |
| `NodeListSync.ApplyNodeListChange` | src/Data/CycleParser.ts:158-196 | the nodes added join as syncing, then the updated ones that are known become active; the lists agree |
| `NodeListSync.ParsedRecord` | src/Data/CycleParser.ts:100-149 | a record becomes its joining nodes, exactly its three kinds of removals, and an update for each activated node, at its start, and each refreshed one |
| `NodeListSync.FollowingMirrors` | src/Data/Cycles.ts:238-320 | following cycles without refreshes: known are the present ids, active those with an update, syncing the others, in the replay in which a re-join changes nothing |
| `NodeListSync.BuiltMirrors` | src/Data/CycleParser.ts:158-196 | the same of the lists built from the squash, in the replay in which a re-join starts afresh |
| `NodeListSync.BuiltAgreesExactly` | src/Data/Data.ts:1230-1261 | for cycles without refreshes the built lists have the members of the followed ones if and only if no listed node was lost after selection, and the same of them are syncing and active if and only if no update was lost to a re-join either |
| `NodeListSync.StoppedExactly` | src/Data/Data.ts:1230-1261 | the lists built from the newest cycles are those built from all of them if and only if their squash has as many nodes and as many updates |
| `NodeListSync.BuildNodeListFromStoredCycle` | src/Data/Data.ts:1201-1262 | throws exactly when there is no earlier cycle or all cycles together miss the wanted counts; else builds the lists of as few of the newest cycles, but at least two, as reach the counts, which are those of all cycles if and only if nothing is missing, and so whenever the wanted counts are those of all cycles |
| `NodeListSync.LostAfterSelectionStaysListed` | src/Data/CycleParser.ts:141-148 | a node that joins and is lost after selection stays in the built lists only |
| `RobustQuery.FirstMatch` | src/Utils.ts:128-130 | the first item equal to a value, by the given equality |
| `RobustQuery.TallyIsBacked` | src/Utils.ts:126-153 | for any equality, an item counts distinct nodes that answered its value or something equal to it |
| `RobustQuery.TallyIsExact` | src/Utils.ts:126-153 | for an equivalence, each answered value has one item, which lists precisely the nodes that answered it |
| `RobustQuery.VotesAtMostHighest` | src/Utils.ts:154-163 | no value has more votes than the highest count |
| `RobustQuery.WinnerIsBacked` | src/Utils.ts:187-287 | a winner has exactly the effective redundancy, backed by that many distinct nodes |
| `RobustQuery.RoundIsExact` | src/Utils.ts:247-268 | a round wins only if enough nodes agree and gives up for want of nodes only if they do not |
| `RobustQuery.RoundsAreSound` | src/Utils.ts:247-287 | whatever round the loop ends in, its result is sound; without a winner it is none exactly if nobody asked has answered, else an item no other outnumbers, and the nodes only run out when those left could not make up what is missing |
| `RobustQuery.QueryTheorem` | src/Utils.ts:187-287 | a winner is backed by exactly the effective redundancy of nodes; unless 20 rounds are used up, there is a winner if and only if enough given nodes agree; else the fallback is fair in that sense |
| `RobustQuery.QueryByRedundancy` | src/Utils.ts:187-201 | in terms of the argument: the effective redundancy is the given one, or all nodes if there are fewer; less than 1 asks for 3 |
| `RobustQuery.TriesSufficeExactly` | src/Utils.ts:187-287 | for an equivalence and n > 0 nodes: over all their replies there is a winner just when enough agree, if and only if n is less than the effective redundancy and 20 more |
| `RobustQuery.LateAnswersAreMissed` | src/Utils.ts:247-268 | from that number on, replies in which enough nodes agree, the last of them behind twenty failures, have no winner |
| `RobustQuery.FailuresHideTheRest` | src/Utils.ts:247-268 | one vote short, failures in all remaining rounds end the query with the best item so far, whatever the others would answer |
| `RobustQuery.TwentyFailuresHideTheRest` | src/Utils.ts:264-268 | with redundancy 1, twenty failing nodes end the query without a fallback, whatever the others would answer |
| `RobustQuery.Tally.Add` | src/Utils.ts:126-153 | counts the reply, and returns the best item exactly when it reaches the win count |
| `RobustQuery.Tally.GetHighestCount` | src/Utils.ts:154-163 | the highest count of the tally |
| `RobustQuery.Tally.GetHighestCountItem` | src/Utils.ts:164-178 | the first item with the highest count |
| `RobustQuery.BestIsFirst` | src/Utils.ts:164-178 | no item before the best one has as many, and none behind it has more |
| `RobustQuery.QueryNodes` | src/Utils.ts:214-243 | tallies all nodes of the round; breaking at a winner never skips a reply |
| `RobustQuery.RobustQuery` | src/Utils.ts:187-287 | terminates, and is the query function of the theorems |
| `RandomItems.Pick` | src/Utils.ts:410-411 | the picked index x lies between the avoided part and the remaining length, and x - avoid is r * (len - avoid) rounded down |
| `RandomItems.EqualShares` | src/Utils.ts:402-411 | an index x is picked exactly for the random numbers r with x - avoid <= r * (len - avoid) < x - avoid + 1, one equal share for each |
| `RandomItems.EqualSharesInTurn` | src/Utils.ts:409-411 | the same in every round, for the length that is left by then |
| `RandomItems.OldNodesToAvoid` | src/Utils.ts:400-400 | the percentage of the elements, rounded down |
| `RandomItems.DrawsAreDistinct` | src/Utils.ts:409-415 | while indices stay in the live part the draws are distinct and come from it |
| `RandomItems.DrawsDetermineIndices` | src/Utils.ts:409-415 | different picked indices draw different selections |
| `RandomItems.EverySelectionIsDrawn` | src/Utils.ts:409-415 | every ordered selection of distinct unavoided elements is drawn for some picked indices, so with equal shares all are equally likely |
| `RandomItems.DrawsRepeat` | src/Utils.ts:409-415 | once only the avoided part is left, the next draw repeats the last one |
| `RandomItems.DistinctExactly` | src/Utils.ts:391-421 | for any random numbers the positions are distinct and inside the array if and only if nothing is avoided or n <= len - floor(p*len/100); then none is avoided |
| `RandomItems.DrawsArePermutation` | src/Utils.ts:409-415 | drawing every element once permutes them |
| `RandomItems.AllArePermuted` | src/Utils.ts:391-421 | with p = 0 and n >= len the result is a permutation of the array |
| `RandomItems.DrawsInTurn` | src/Utils.ts:409-415 | the k-th draw is what the eagerly shuffled array holds at the k-th index |
| `RandomItems.DrawSlots` | src/Utils.ts:400-415 | the sparse lazy loop fills the result from the end with the eager shuffle's draws |
| `RandomItems.DefinedIs` | src/Utils.ts:417-419 | filtering keeps what is not undefined, in its order |
| `RandomItems.GetRandomItemFromArr` | src/Utils.ts:391-421 | undefined for an empty array; an error for what is no array length; one element for n of 0 or 1, the k-th exactly if k <= random(0) * len < k + 1; else the draws, without empty slots when the array ran out |
| `CycleIntake.MinCycleConfirmations` | src/Data/Data.ts:399-406 | the rounded-up quotient of active nodes by radius while that is at most 4; 5, or the higher configured value, beyond; 1 or 3 with no active node |
| `CycleIntake.AtMostOneHandOver` | src/Data/Data.ts:408-425 | over all reports for a counter at most one hands anything over, whatever the thresholds |
| `CycleIntake.ReportersAreDistinct` | src/Data/Data.ts:369-395 | the reporters of a marker are distinct senders |
| `CycleIntake.ReportersReported` | src/Data/Data.ts:369-395 | they are exactly the senders that reported the marker at or behind a valid record of it |
| `CycleIntake.TrackerListsReporters` | src/Data/Data.ts:369-395 | each tracked record lists exactly the senders that reported its marker, and counts them |
| `CycleIntake.TrackerHoldsFirst` | src/Data/Data.ts:369-395 | each tracked record is the first valid one of its marker, and every marker with a valid record is tracked |
| `CycleIntake.HandedIsConfirmed` | src/Data/Data.ts:369-426 | while the threshold does not drop, what is handed over is one record, reported by at least the threshold of distinct senders |
| `CycleIntake.UnconfirmedExactly` | src/Data/Data.ts:408-425 | a record is handed over short of confirmations if and only if none is saved, it is short, and another tracked one is not |
| `CycleIntake.HandedExactly` | src/Data/Data.ts:369-425 | over any reports and thresholds: the first valid record of the reported marker is handed over once for each marker with at least the threshold of distinct reporters, unless something was handed over before or the report is rejected |
| `CycleIntake.DroppedThresholdHandsOverTheWrongRecord` | src/Data/Data.ts:408-425 | a drop from 3 to 2 hands over a record with one sender |
| `CycleIntake.CountersStrictlyIncrease` | src/Data/Cycles.ts:58-110 | under any interleaving of messages, calls and resumed runs, started counters strictly increase, even across cleared trackers |
| `CycleIntake.ProcessIs` | src/Data/Cycles.ts:58-77 | of the cycles given, the first with a greater counter is started and those behind it wait; without one nothing changes |
| `CycleIntake.CollectStarts` | src/Data/Data.ts:354-426 | a trusted record starts the first valid record of its marker exactly if nothing was handed over for its counter, the marker has reporters, some marker has enough of them by now, and the counter is greater; else nothing starts |
| `CycleIntake.MessageStarts` | src/Data/Data.ts:354-460 | so does a message with that one record |
| `CycleIntake.ReportsAreKept` | src/Data/Data.ts:369-395 | a report whose marker has reporters by then is kept for its counter, and no other counter is touched |
| `CycleIntake.RecordsInTurn` | src/Data/Data.ts:354-367 | the records of a message are taken in turn, up to the first from an untrusted sender |
| `CycleIntake.OldTrackersAreCleared` | src/Data/Data.ts:427-460 | behind a message, trackers of counters more than 5 back are dropped if there are more than 5, and nothing else |
| `CycleIntake.RisingExactly` | src/Data/Cycles.ts:58-77 | the rising cycles of a list are those with a greater counter than the current one and than all before them |
| `CycleIntake.RunStartsRising` | src/Data/Cycles.ts:58-110 | a suspended run that is resumed until it is over starts exactly the rising cycles of what it has left, in their order |
| `CycleIntake.CallStartsRising` | src/Data/Cycles.ts:58-110 | a call of processCycles that nothing interrupts starts exactly the rising cycles it is given |
| `CycleIntake.CycleCollector.CyclesToSave` | src/Data/Data.ts:408-422 | the loop over the tracked records is the marking function, including how a saved record takes pushes back |
| `CycleIntake.CycleCollector.ProcessCycles` | src/Data/Cycles.ts:58-77 | runs to its next await, as the function characterised by ProcessIs |
| `CycleIntake.CycleCollector.CollectCycleData` | src/Data/Data.ts:354-460 | the trackers hold what their reports add up to; the records are taken in turn up to an untrusted sender, what they hand over is processed (MessageStarts), then old trackers are cleared |
| `ReceiptIntake.TwiceOnlyAfterEviction` | src/Data/Collector.ts:975-987 | if no receipt is accepted while accepted, two acceptances of one transaction have an eviction between them |
| `ReceiptIntake.ScanKeeps` | src/Data/Collector.ts:974-1085 | from coherent receipts, a stretch from the loop head keeps the caches consistent and validates nothing but the receipt in its own hand |
| `ReceiptIntake.ContinueKeeps` | src/Data/Collector.ts:1026-1086 | so does a stretch from any await, on success and on failure, unless it accepts a receipt of another transaction than the one taken up |
| `ReceiptIntake.ContinueKeepsCall` | src/Data/Collector.ts:1185-1212 | what a call combined or inserted stays what it logged, in order, in batches of exactly 100 but for the last |
| `ReceiptIntake.ScanGoesThrough` | src/Data/Collector.ts:974-1085 | a stretch from the loop head takes up the first receipt, or comes to the end, past those only that have no id or timestamp, are malformed, or are known when the loop reaches them, a mark erased on the way included |
| `ReceiptIntake.ContinueGoesThrough` | src/Data/Collector.ts:1026-1212 | a resumed call goes through the rest of its receipts, unless a verification succeeded or 100 are to be inserted first |
| `ReceiptIntake.StoreGoesThrough` | src/Data/Collector.ts:961-1025 | a new call goes through its receipts from the first; without receipts there is no call |
| `ReceiptIntake.NextKeepsInv` | src/Data/Collector.ts:961-1215 | so every event, an uncaught exception included, keeps the invariant of caches and hands from coherent receipts, unless it accepts such a foreign receipt |
| `ReceiptIntake.NextKeepsFine` | src/Data/Collector.ts:961-1215 | where only one transaction can be taken up, accepting a foreign receipt leaves its mark for good, and no receipt is taken up or accepted any more |
| `ReceiptIntake.StoredOnceInOrder` | src/Data/Collector.ts:961-1215 | under any interleaving, from receipts that are coherent and, where any full receipt may be fetched, of one transaction: none is accepted twice without an eviction between, and a finished call inserted exactly what it accepted |
| `ReceiptIntake.InsertedInOrder` | src/Data/Collector.ts:1185-1212 | for any receipts: a finished call inserted exactly what it accepted, each for one receipt of its argument and in that order; only a fetched full receipt can be of another transaction than that |
| `ReceiptIntake.NoReceiptIsLeftOut` | src/Data/Collector.ts:961-1215 | under any interleaving, of a finished call each receipt was taken up in some step, or passed over as one without id or timestamp, malformed or known |
| `ReceiptIntake.AllAreStored` | src/Data/Collector.ts:961-1215 | a call with different well-formed receipts, none of them known, accepts all of them in their order when nothing else runs and every verification succeeds |
| `ReceiptIntake.NothingLeftValidating` | src/Data/Collector.ts:987-1086 | for any receipts, coherent or not, of which no full one can be foreign: when all calls are done no transaction is left marked as being validated |
| `ReceiptIntake.MarksClearedExactly` | src/Data/Collector.ts:987-1086 | that holds in every run if and only if no well-formed receipt that may be fetched is of another transaction than one that can be taken up |
| `ReceiptIntake.ForeignMarkStays` | src/Data/Collector.ts:1035-1086 | a call that accepts a full receipt of another transaction is done with the mark of the first one left |
| `ReceiptIntake.MarksLeftExactly` | src/Data/Collector.ts:987-1086 | when all calls have ended, some by an uncaught exception, the transactions still marked are exactly those that such calls had in hand and those a foreign receipt was accepted for |
| `ReceiptIntake.DifferentTimestampsAreAcceptedTwice` | src/Data/Collector.ts:975-987 | any two well-formed copies with different timestamps are both accepted in some run |
| `ReceiptIntake.MalformedCopyErasesTheMark` | src/Data/Collector.ts:987-991 | a malformed copy with another timestamp erases the mark of a well-formed one that is being verified, which is then accepted twice, for any two such copies |
| `ReceiptIntake.UntimedReplacementHidesItself` | src/Data/Collector.ts:1026-1086 | a full receipt without a timestamp, accepted in place of another, does not stop that other from being accepted too |
| `ReceiptIntake.ForeignReceiptIsAcceptedTwice` | src/Data/Collector.ts:287-312 | any receipt that was accepted is accepted again when it is fetched as the full receipt of any other transaction, whose mark stays |
| `ReceiptIntake.AcceptedOnceExactly` | src/Data/Collector.ts:961-1215 | every run over a set of receipts accepts no transaction twice between evictions if and only if the set is coherent and, where any full receipt may be fetched, of one transaction; for no full receipts, those of the same transaction, or any |
| `ReceiptIntake.AcceptedOnceByDefaultExactly` | src/Data/Collector.ts:551-616 | where none is fetched, if and only if a copy with a timestamp shares it with every well-formed timed copy of its transaction |
| `ReceiptIntake.ReceiptStore.StoreReceiptData` | src/Data/Collector.ts:961-1025 | starts a call and runs it to its first await or uncaught exception, as the step function does |
| `ReceiptIntake.ReceiptStore.ResumeCall` | src/Data/Collector.ts:1026-1215 | runs a suspended call from one await to the next, as the step function does (ContinueGoesThrough says where that leads) |
| `ReceiptIntake.ReceiptStore.RejectCall` | src/Data/Collector.ts:1026-1083 | ends a suspended call whose await rejects, or whose votes cannot be sorted, with its mark left in place |
| `ReceiptIntake.ReceiptStore.CleanOldReceiptsMap` | src/Data/Collector.ts:1766-1779 | evicts exactly the receipts older than the timestamp |
| `ReceiptIntake.EvictedExactly` | src/Data/Collector.ts:1766-1779 | a cleanup evicts exactly the processed receipts below its timestamp; the end of a call evicts all exactly if the archiver is inactive and there are more than 2000 |
| `DataLogWriter.PushKeeps` | src/Data/DataLogWriter.ts:140-144 | a push at any await keeps the invariant and adds one item to what the writer holds |
| `DataLogWriter.ResumeKeeps` | src/Data/DataLogWriter.ts:146-172 | passing any await keeps the invariant and loses or doubles nothing |
| `DataLogWriter.FirstAppendMayFail` | src/Data/DataLogWriter.ts:146-172 | a failed append of the first item of the queue is harmless |
| `DataLogWriter.LaterAppendMustNotFail` | src/Data/DataLogWriter.ts:146-172 | any later failed append makes the writer write the first item again |
| `DataLogWriter.FailureIsHarmlessExactly` | src/Data/DataLogWriter.ts:146-172 | a failed append leaves the writer as it was if and only if it was that of the first queued item; in any case that item is written next, and what the writer holds stays right if and only if it equals the item that was due |
| `DataLogWriter.EveryItemOnceInOrder` | src/Data/DataLogWriter.ts:128-172 | one drain at a time, closed files full and numbered in turn within 1..maxLogCounter, every item once in order |
| `DataLogWriter.IdleMeansWritten` | src/Data/DataLogWriter.ts:140-172 | an idle writer has written all that was pushed |
| `DataLogWriter.DrainWritesAll` | src/Data/DataLogWriter.ts:146-172 | a writer whose awaits all succeed becomes idle and has written all it held |
| `DataLogWriter.DataLogWriter.WriteToLog` | src/Data/DataLogWriter.ts:140-144 | queues the item and starts a drain only if none runs |
| `DataLogWriter.DataLogWriter.ToNextAwait` | src/Data/DataLogWriter.ts:146-172 | the nested loops run to the next await as the step function does |
| `DataLogWriter.DataLogWriter.ResumeWriting` | src/Data/DataLogWriter.ts:128-172 | a drain goes on after an await as the step function does |
| `NetworkChangeQueue.PathsAreSet` | src/GlobalAccount.ts:110-127 | the generated paths are exactly those a change sets a value at |
| `NetworkChangeQueue.PathsAreDotted` | src/GlobalAccount.ts:110-143 | the paths of a change are its keys down to each leaf, joined by dots, those of the app data behind `appdata.` |
| `NetworkChangeQueue.PruningKeepsValues` | src/GlobalAccount.ts:129-166 | the newest value of every path is the same after pruning |
| `NetworkChangeQueue.PruningKeepsCounts` | src/GlobalAccount.ts:144-155 | up to the cap every path keeps its number of occurrences |
| `NetworkChangeQueue.PruningIsIdempotent` | src/GlobalAccount.ts:129-166 | pruning again in the same cycle changes nothing |
| `NetworkChangeQueue.PrunedInOrder` | src/GlobalAccount.ts:129-166 | what is left are the changes at the kept places, in their order |
| `NetworkChangeQueue.PrunedExactly` | src/GlobalAccount.ts:129-166 | those are exactly the changes at most maxCycles old or with a path that occurs fewer than max(1, maxChanges) times in the later ones |
| `NetworkChangeQueue.CountsCopies` | src/GlobalAccount.ts:145-153 | an occurrence is counted once for each copy of the path |
| `NetworkChangeQueue.KeptOldIsBounded` | src/GlobalAccount.ts:129-166 | at most max(1, keepAliveCount) * paths old changes are kept |
| `NetworkChangeQueue.CountPaths` | src/GlobalAccount.ts:144-152 | the counting map holds capped counts, and a change is needed iff some path is below the cap |
| `NetworkChangeQueue.ChangeQueue.Prune` | src/GlobalAccount.ts:129-166 | in place: keeps, in order, exactly the recent changes and those with a path below the cap in the later changes |
| `ServiceQueue.InsertIsSorted` | src/ServiceQueue.ts:70-85 | insertion keeps cycle ascending, priority descending, hash ascending, and adds exactly the entry |
| `ServiceQueue.StaysSorted` | src/ServiceQueue.ts:17-56 | over every sequence of operations the list stays sorted |
| `ServiceQueue.RemovesFirst` | src/ServiceQueue.ts:41-56 | a removal takes the first entry with the hash, and nothing if there is none |
| `ServiceQueue.HashesAreIndependent` | src/ServiceQueue.ts:17-56 | what the list holds for a hash is what the operations on that hash alone would leave |
| `ServiceQueue.SortedIsDetermined` | src/ServiceQueue.ts:70-85 | a sorted list is determined by what it holds for each hash |
| `ServiceQueue.OrderAcrossHashesDoesNotMatter` | src/ServiceQueue.ts:17-56 | operations on different hashes can come in any order |
| `ServiceQueue.AdditionsCommuteExactly` | src/ServiceQueue.ts:70-85 | two additions commute if and only if they are equal or the order tells them apart |
| `ServiceQueue.TxQueue.SortedInsert` | src/ServiceQueue.ts:70-85 | the in-place insertion is the insertion function |
| `ServiceQueue.TxQueue.AddTxs` | src/ServiceQueue.ts:17-39 | adds the entries one after the other |
| `ServiceQueue.TxQueue.RemoveTxs` | src/ServiceQueue.ts:41-56 | removes the first entry of each hash, ignoring unknown hashes |
| `TxDigests.ChainRows` | src/txDigester/txDigestFunctions.ts:41-96 | the first k links are in the chain's table, under their end cycles, and no later one |
| `TxDigests.ChainKeys` | src/txDigester/txDigestFunctions.ts:41-96 | every row of the table is a link |
| `TxDigests.LinkIs` | src/txDigester/txDigestFunctions.ts:51-77 | the k-th link covers the k-th range of cycleDiff cycles and hashes its ids behind the hash of the link before, or behind 0 |
| `TxDigests.RoundIsLink` | src/txDigester/txDigestFunctions.ts:51-77 | a round at a reached batch computes that batch's link; getHash does not throw |
| `TxDigests.RoundKeeps` | src/txDigester/txDigestFunctions.ts:51-90 | a round of any run keeps the chain or extends it by one link |
| `TxDigests.ExecutionKeepsChain` | src/txDigester.ts:43-67 | over ticks, interleaved rounds, failed fetches and restarts the table is a gap-free chain of equal ranges from 0 |
| `TxDigests.SingleRunBuildsChain` | src/txDigester/txDigestFunctions.ts:41-96 | a single run builds the chain up to the last full batch |
| `TxDigests.RunCatchesUp` | src/txDigester/txDigestFunctions.ts:41-96 | a run ends with the chain of all full batches up to its latest cycle, wherever it started and whatever was there before |
| `TxDigests.TickCatchesUp` | src/txDigester.ts:43-67 | with m full batches up to syncDelay cycles before the latest one, a tick starts a run exactly if the last digest is not that of the m-th, and the run leaves the chain of these m |
| `TxDigests.TableIsThatOfASingleRun` | src/txDigester.ts:43-67 | the table always equals that of a single run to the last covered cycle |
| `TxDigests.TxDigester.ProcessAndInsertTxDigests` | src/txDigester/txDigestFunctions.ts:41-96 | terminates for a positive cycleDiff, as the run function does |

## Left out

- Network, HTTP, SQLite, timers, file watching, statistics, configuration loading and one-off scripts: foreign I/O; a property that needs a store models it as a map or a sequence.
- Floating point: shares, halves and thirds are exact rationals, so rounding at 53 bits is not modelled.
- `nodeLookRange`, `partitionRangeVector`, `homeNodes`, the hex `low`/`high` strings and the caching of stored partitions in `src/ShardFunctions.ts`: they repeat the modelled facts in another encoding.
- The aliasing of `cycleShardData.nodes` with the live sorted array: the shard theorems are about a snapshot of it.
- The global-modification receipts, the app-receipt decision table and how `newPOQReceipt` has nodes confirm a receipt: separate rules. What that may fetch is modelled: any full receipt that passes the type check.
- NodeList.Lists.AddNodes: a node is activated only with its id known, and ids are the assigned ones; the source takes both on trust.
- NodeList.Lists.AddNode: the same for one node.
- NodeList.Lists.MoveToActive: the same; an active node without an id has no place in the sorted list.
- NodeList.Lists.RefreshNodes: the same for nodes refreshed as active.
- NodeList.Lists.SetStatus: the same for activated keys.
- NodeList.Lists.UpdateNodeList: the same for activated members, which have their id from an earlier cycle or from joining in this one.
- Standby disjointness: adding and refreshing do not maintain it, so it is not an invariant.
- NodeListSync.BuiltAgreesExactly: cycles that refresh nodes are left out, since `parseRecord` updates such nodes without adding them while `updateNodeList` adds them; parsing is that of an archiver whose lists are empty, as when it builds them; grouping added nodes by the cycle they joined in does not matter to the sets of keys and is not modelled.
- NodeListSync.FollowingMirrors: cycles that refresh nodes are left out, as above.
- ChangeSquasher.Squasher.SquashUntilEnough: the counts that `activeNodeCount` and `totalNodeCount` read off the last record are parameters, any numbers; the outer loop that fetches older cycles in batches is taken as one batch.
- ReceiptIntake.InsertedInOrder: batches of accounts and transactions are not modelled.
- NetworkChangeQueue.PruningKeepsValues: a path is its string, so a network setting named `appdata.x` and the app setting `x` count as one, as in the source's counting map.
- RandomItems.DrawSlots: the index of each round is drawn before the loop.
- RandomItems.OldNodesToAvoid: the percentage is whole and not negative, as configured.
- DataLogWriter.EveryItemOnceInOrder: only appends of items may fail, not the closing, rotating and activating of files; renaming and deleting old files is not modelled, and at least one entry per file is assumed.
- CycleIntake.CountersStrictlyIncrease: `setCurrentCycleCounter`, called while syncing at start-up, is not an event; it sets the initial counter.
- TxDigests.ExecutionKeepsChain: insertion is atomic although the source does not await it, and the ids of processed cycles do not change.
- `subscribeNodeFromThisSubset`, `replaceDataSender` and the extra consensors: which node of a group is subscribed is left open, and the coverage theorem holds for any.
- `getRandom` in `src/Utils.ts`: the modelled function with nothing avoided.
- `patchAndUpdate` and pruning while iterating in `updateGlobalNetworkAccount`: pruning is proved on its own.
