/** Which nodes cover and store each partition (src/ShardFunctions.ts:360-815, src/Data/Cycles.ts:484-553). */
module ShardCoverage {
  import opened Basics
  import opened ShardGeometry
  import opened PartitionRange
  import opened NodeScan
  import opened ScanCrossCheck

  // ----- what the tables should hold -----

  // The consensus arc, read off as first and last node in scan order, is the true arc. For an edge
  // smaller than the network this says n <= 2 * consensusRadius + 1 or n > 2 * consensusRadius + nodesPerEdge.
  predicate CoverExact(g: ShardGlobals)
    requires g.Valid()
  {
    || g.numPartitions <= 2 * g.consensusRadius + 1
    || g.nodesPerEdge % g.numPartitions + 2 * g.consensusRadius < g.numPartitions
  }

  // Node i covers partition p: within the consensus radius, or everything when the arc is misread.
  predicate Covers(g: ShardGlobals, i: int, p: int)
    requires g.Valid()
  {
    CoverExact(g) ==> CircularDistance(p, i, g.numPartitions) <= g.consensusRadius
  }

  predicate StoresPartition(g: ShardGlobals, i: int, p: int) {
    CircularDistance(p, i, g.numPartitions) <= g.StoreRadius()
  }

  ghost function CoverSet(g: ShardGlobals, nodes: seq<Node>, p: int, count: int): set<nat>
    requires g.Valid() && 0 <= count <= |nodes|
  {
    set i | 0 <= i < count && Covers(g, i, p) :: nodes[i].id
  }

  ghost function StoreSet(g: ShardGlobals, nodes: seq<Node>, p: int, count: int): set<nat>
    requires 0 <= count <= |nodes|
  {
    set i | 0 <= i < count && StoresPartition(g, i, p) :: nodes[i].id
  }

  // ----- the ends of the consensus list -----

  // The scan meets the consensus arc at the positions m .. m + 2 * radius, taken around the ring.
  lemma ArcInScan(home: int, radius: int, s: int, m: int, k: int, n: int)
    requires 0 <= home < n && 0 <= radius && 2 * radius < n && 0 <= s < n && 0 <= m < n && 0 <= k < n
    requires Clockwise(s, m, n) == CounterClockwise(home, radius, n)
    ensures CircularDistance(Clockwise(s, k, n), home, n) <= radius <==>
      m <= k <= m + 2 * radius || k <= m + 2 * radius - n
    ensures k == m + 2 * radius ==> Clockwise(s, k, n) == Clockwise(home, radius, n)
  {
  }

  // The ends of the selected arc of a run from s, when the arc starts at position m and ends inside the run.
  lemma ArcEndsInside(home: int, radius: int, s: int, m: int, length: int, n: int)
    requires 0 <= home < n && 1 <= radius && 2 * radius + 1 < n && 0 <= s < n && 0 <= m < n
    requires Clockwise(s, m, n) == CounterClockwise(home, radius, n)
    requires m + 2 * radius < length <= n
    ensures EndsAre(
      Select(Run(s, length, n), Near(home, radius, n)),
      CounterClockwise(home, radius, n), Clockwise(home, radius, n))
  {
    ArcPositions(home, radius, s, m, length, n);
    SelectEnds(Run(s, length, n), Near(home, radius, n), m, m + 2 * radius);
  }

  lemma ArcPositions(home: int, radius: int, s: int, m: int, length: int, n: int)
    requires 0 <= home < n && 1 <= radius && 2 * radius + 1 < n && 0 <= s < n && 0 <= m < n
    requires Clockwise(s, m, n) == CounterClockwise(home, radius, n)
    requires m + 2 * radius < length <= n
    ensures var run := Run(s, length, n);
      && run[m] == CounterClockwise(home, radius, n) && run[m + 2 * radius] == Clockwise(home, radius, n)
      && forall k :: 0 <= k < length ==> (Near(home, radius, n)(run[k]) <==> m <= k <= m + 2 * radius)
  {
    var run := Run(s, length, n);
    ArcInScan(home, radius, s, m, m + 2 * radius, n);
    forall k | 0 <= k < length
      ensures Near(home, radius, n)(run[k]) <==> m <= k <= m + 2 * radius
    {
      ArcInScan(home, radius, s, m, k, n);
    }
  }

  // When the arc runs over the end of a full circle, both ends of the circle belong to it.
  lemma ArcEndsOutside(home: int, radius: int, s: int, m: int, n: int)
    requires 0 <= home < n && 1 <= radius && 2 * radius + 1 < n && 0 <= s < n && 0 <= m < n <= m + 2 * radius
    requires Clockwise(s, m, n) == CounterClockwise(home, radius, n)
    ensures EndsAre(Select(Run(s, n, n), Near(home, radius, n)), s, Clockwise(s, n - 1, n))
  {
    ArcInScan(home, radius, s, m, 0, n);
    ArcInScan(home, radius, s, m, n - 1, n);
    SelectEnds(Run(s, n, n), Near(home, radius, n), 0, n - 1);
  }

  ghost predicate EndsAre(xs: seq<int>, first: int, last: int) {
    |xs| >= 2 && xs[0] == first && xs[|xs| - 1] == last
  }

  // First and last index of the consensus list: the ends of the arc, or the two ends of a full circle.
  ghost predicate ConsensusEndsAre(g: ShardGlobals, home: int, first: int, last: int)
    requires g.Valid()
  {
    EndsAre(Select(Scan(g, home), Near(home, g.consensusRadius, g.numPartitions)), first, last)
  }

  // When the radius takes in every index, the ends of a full circle are its first and last index.
  lemma FullRunEnds(home: int, radius: int, s: int, n: int)
    requires 0 <= home < n && 0 <= s < n && 2 <= n <= 2 * radius + 1
    ensures EndsAre(Select(Run(s, n, n), Near(home, radius, n)), s, Clockwise(s, n - 1, n))
  {
    SelectEnds(Run(s, n, n), Near(home, radius, n), 0, n - 1);
  }

  lemma SmallNetworkEnds(g: ShardGlobals, home: int)
    requires g.Valid() && 0 <= home < g.numPartitions && 2 <= g.numPartitions <= 2 * g.consensusRadius + 1
    ensures 0 <= ScanStart(g, home) < g.numPartitions
    ensures ConsensusEndsAre(
      g, home, ScanStart(g, home), Clockwise(ScanStart(g, home), g.numPartitions - 1, g.numPartitions))
  {
    var n, cr, s := g.numPartitions, g.consensusRadius, ScanStart(g, home);
    assert 0 <= s < n by { ScanIsStoreBall(g, home, home); }
    assert Scan(g, home) == Run(s, n, n);
    FullRunEnds(home, cr, s, n);
  }

  lemma LargeNetworkEnds(g: ShardGlobals, home: int)
    requires g.Valid() && 0 <= home < g.numPartitions && 2 * g.consensusRadius + 1 < g.numPartitions
    ensures 0 <= ScanStart(g, home) < g.numPartitions
    ensures CoverExact(g) ==> ConsensusEndsAre(g, home,
      CounterClockwise(home, g.consensusRadius, g.numPartitions), Clockwise(home, g.consensusRadius, g.numPartitions))
    ensures !CoverExact(g) ==> ConsensusEndsAre(g, home,
      ScanStart(g, home), Clockwise(ScanStart(g, home), g.numPartitions - 1, g.numPartitions))
  {
    ArcPosition(g, home);
    EdgeFits(g);
    if CoverExact(g) {
      ArcEndsInside(
        home, g.consensusRadius, ScanStart(g, home), g.nodesPerEdge % g.numPartitions, ScanLength(g), g.numPartitions);
    } else {
      ArcEndsOutside(home, g.consensusRadius, ScanStart(g, home), g.nodesPerEdge % g.numPartitions, g.numPartitions);
    }
  }

  lemma EdgeFits(g: ShardGlobals)
    requires g.Valid() && g.numPartitions > 2 * g.consensusRadius + 1
    ensures 0 <= g.nodesPerEdge % g.numPartitions <= g.nodesPerEdge
    ensures CoverExact(g) ==> g.nodesPerEdge % g.numPartitions + 2 * g.consensusRadius < ScanLength(g)
    ensures !CoverExact(g) ==> ScanLength(g) == g.numPartitions
  {
    var n, e := g.numPartitions, g.nodesPerEdge;
    QuotientForm(e, n);
    assert e / n >= 0 ==> (e / n) * n >= 0;
  }

  // Partitions start..end, wrapping past the last one when end < start.
  predicate InWrap(p: int, start: int, end: int, n: int) {
    if start <= end then start <= p <= end else 0 <= p <= end || start <= p < n
  }

  lemma WrapOfArc(home: int, radius: int, n: int, p: int)
    requires 0 <= home < n && 1 <= radius && 2 * radius + 1 < n && 0 <= p < n
    ensures
      var first, last := CounterClockwise(home, radius, n), Clockwise(home, radius, n);
      first != last && (InWrap(p, first, last, n) <==> CircularDistance(p, home, n) <= radius)
  {
  }

  lemma WrapOfCircle(s: int, n: int, p: int)
    requires 0 <= s < n && 2 <= n && 0 <= p < n
    ensures Clockwise(s, n - 1, n) != s && InWrap(p, s, Clockwise(s, n - 1, n), n)
  {
  }

  // Walking from the first to the last consensus node passes exactly the partitions the node covers.
  lemma ConsensusWrapCovers(g: ShardGlobals, home: int, p: int) returns (first: int, last: int)
    requires g.Valid() && 0 <= home < g.numPartitions && 0 <= p < g.numPartitions && 2 <= g.numPartitions
    ensures ConsensusEndsAre(g, home, first, last) && first != last
    ensures InWrap(p, first, last, g.numPartitions) <==> Covers(g, home, p)
  {
    var n, cr := g.numPartitions, g.consensusRadius;
    if n > 2 * cr + 1 && CoverExact(g) {
      LargeNetworkEnds(g, home);
      first, last := CounterClockwise(home, cr, n), Clockwise(home, cr, n);
      WrapOfArc(home, cr, n, p);
    } else {
      if n <= 2 * cr + 1 {
        SmallNetworkEnds(g, home);
      } else {
        LargeNetworkEnds(g, home);
      }
      first, last := ScanStart(g, home), Clockwise(ScanStart(g, home), n - 1, n);
      WrapOfCircle(first, n, p);
    }
  }

  lemma {:induction false} PickElementwise(nodes: seq<Node>, indices: seq<int>)
    requires forall k :: 0 <= k < |indices| ==> 0 <= indices[k] < |nodes|
    ensures |Pick(nodes, indices)| == |indices|
    ensures forall k :: 0 <= k < |indices| ==> Pick(nodes, indices)[k] == nodes[indices[k]]
  {
    if indices != [] {
      PickElementwise(nodes, indices[..|indices| - 1]);
    }
  }

  // ----- the tables -----

  datatype NodeShardData = NodeShardData(
    node: Node,
    ourNodeIndex: int,
    homePartition: int,
    consensusStartPartition: int,
    consensusEndPartition: int,
    extendedData: bool)

  // Adds `id` to the entries lo..hi; thrown when one of them is missing.
  method AddToPartitions(table: map<int, set<nat>>, lo: int, hi: int, id: nat)
    returns (r: map<int, set<nat>>, thrown: bool)
    ensures !thrown <==> forall p :: lo <= p <= hi ==> p in table
    ensures !thrown ==> r.Keys == table.Keys
    ensures !thrown ==> forall p :: p in table ==> r[p] == table[p] + (if lo <= p <= hi then {id} else {})
  {
    r, thrown := table, false;
    var i := lo;
    while i <= hi
      invariant lo <= i && (i <= hi + 1 || i == lo)
      invariant r.Keys == table.Keys && forall p :: lo <= p < i ==> p in table
      invariant forall p :: p in table ==> r[p] == table[p] + (if lo <= p < i then {id} else {})
    {
      if i !in r {
        return r, true;
      }
      r := r[i := r[i] + {id}];
      i := i + 1;
    }
  }

  // The loops for a range that may wrap: start..end, or 0..end and start..numPartitions - 1.
  method AddToWrap(table: map<int, set<nat>>, joined: bool, start: int, end: int, n: int, id: nat)
    returns (r: map<int, set<nat>>, thrown: bool)
    requires forall p :: p in table <==> 0 <= p < n
    requires 0 <= start < n && 0 <= end < n && (joined <==> start <= end)
    ensures !thrown && r.Keys == table.Keys
    ensures forall p :: 0 <= p < n ==> r[p] == table[p] + (if InWrap(p, start, end, n) then {id} else {})
  {
    if joined {
      r, thrown := AddToPartitions(table, start, end, id);
    } else {
      r, thrown := AddToPartitions(table, 0, end, id);
      if !thrown {
        r, thrown := AddToPartitions(r, start, n - 1, id);
      }
    }
  }

  lemma StoredWrap(g: ShardGlobals, index: int, stored: WrappablePartitionRange)
    requires g.Valid() && 0 <= index < g.numPartitions && stored.Describes(g, index, g.StoreRadius())
    ensures 0 <= stored.partitionStart < g.numPartitions && 0 <= stored.partitionEnd < g.numPartitions
    ensures !stored.rangeIsSplit <==> stored.partitionStart <= stored.partitionEnd
    ensures forall p :: 0 <= p < g.numPartitions ==>
      (InWrap(p, stored.partitionStart, stored.partitionEnd, g.numPartitions) <==> StoresPartition(g, index, p))
  {
    forall p | 0 <= p < g.numPartitions
      ensures InWrap(p, stored.partitionStart, stored.partitionEnd, g.numPartitions) <==> StoresPartition(g, index, p)
    {
      SpanIsBall(g, index, g.StoreRadius(), p);
    }
  }

  class CycleShardData {
    const g: ShardGlobals
    const nodes: seq<Node>
    var homePartitionOf: map<int, int>
    var coveredBy: map<int, set<nat>>
    var storedBy: map<int, set<nat>>
    var nodeShardDataMap: map<nat, NodeShardData>

    ghost predicate Valid()
      reads this
    {
      && ActiveNodes(g, nodes)
      && (forall p :: p in coveredBy <==> 0 <= p < |nodes|)
      && (forall p :: p in storedBy <==> 0 <= p < |nodes|)
      && (forall i :: 0 <= i < |nodes| && nodes[i].id in nodeShardDataMap ==>
            LightweightData(nodeShardDataMap[nodes[i].id], i))
    }

    // The consensus bounds start out at the home partition; with the extended data they enclose the partitions that
    // the node covers.
    predicate LightweightData(data: NodeShardData, index: int)
      requires g.Valid() && 0 <= index < |nodes|
    {
      && data.node == nodes[index] && data.ourNodeIndex == data.homePartition == index
      && (!data.extendedData ==> data.consensusStartPartition == data.consensusEndPartition == index)
      && (data.extendedData ==> BoundsCover(data.consensusStartPartition, data.consensusEndPartition, index))
    }

    predicate BoundsCover(start: int, end: int, index: int)
      requires g.Valid()
    {
      forall p :: 0 <= p < |nodes| ==> (InWrap(p, start, end, |nodes|) <==> Covers(g, index, p))
    }

    // The first `count` nodes have been entered in the coverage tables.
    ghost predicate TablesFilled(count: int)
      requires g.Valid() && 0 <= count <= |nodes|
      reads this
    {
      && (forall p :: 0 <= p < |nodes| && p in coveredBy ==> coveredBy[p] == CoverSet(g, nodes, p, count))
      && (forall p :: 0 <= p < |nodes| && p in storedBy ==> storedBy[p] == StoreSet(g, nodes, p, count))
    }

    constructor (g: ShardGlobals, nodes: seq<Node>)
      ensures this.g == g && this.nodes == nodes
      ensures homePartitionOf == map[] && coveredBy == map[] && storedBy == map[] && nodeShardDataMap == map[]
    {
      this.g, this.nodes := g, nodes;
      homePartitionOf, coveredBy, storedBy, nodeShardDataMap := map[], map[], map[], map[];
    }

    // One entry per partition, keyed by position; its home partition is that of its centre address.
    method ComputePartitionShardDataMap()
      requires ActiveNodes(g, nodes)
      modifies this
      ensures nodeShardDataMap == old(nodeShardDataMap)
      ensures forall p :: p in coveredBy <==> 0 <= p < |nodes| || p in old(coveredBy)
      ensures forall p :: p in storedBy <==> 0 <= p < |nodes| || p in old(storedBy)
      ensures forall p :: 0 <= p < |nodes| ==> coveredBy[p] == {} && storedBy[p] == {}
      ensures forall p :: 0 <= p < |nodes| ==>
        p in homePartitionOf && homePartitionOf[p] == AddressNumberToPartition(g, CenterAddress(g, p))
      ensures g.numPartitions <= 0x8000 ==> forall p :: 0 <= p < |nodes| ==> homePartitionOf[p] == p
    {
      var partitionIndex := 0;
      for i := 0 to g.numPartitions
        invariant partitionIndex == i
        invariant nodeShardDataMap == old(nodeShardDataMap)
        invariant forall p :: p in coveredBy <==> 0 <= p < i || p in old(coveredBy)
        invariant forall p :: p in storedBy <==> 0 <= p < i || p in old(storedBy)
        invariant forall p :: 0 <= p < i ==> coveredBy[p] == {} && storedBy[p] == {}
        invariant forall p :: 0 <= p < i ==>
          p in homePartitionOf && homePartitionOf[p] == AddressNumberToPartition(g, CenterAddress(g, p))
      {
        if partitionIndex >= g.numPartitions {
          partitionIndex := 0;
        }
        homePartitionOf := homePartitionOf[i := AddressNumberToPartition(g, CenterAddress(g, i))];
        coveredBy := coveredBy[i := {}];
        storedBy := storedBy[i := {}];
        partitionIndex := partitionIndex + 1;
        if partitionIndex == 0 {
          break;
        }
      }
      if g.numPartitions <= 0x8000 {
        forall p | 0 <= p < |nodes|
          ensures homePartitionOf[p] == p
        {
          CenterMapsBack(g, p);
        }
      }
    }

    // The lightweight data of one active node; thrown when its home partition has no entry.
    method ComputeNodePartitionData(index: int) returns (thrown: bool)
      requires Valid() && 0 <= index < |nodes|
      modifies this`nodeShardDataMap
      ensures !thrown && Valid()
      ensures nodeShardDataMap.Keys == old(nodeShardDataMap.Keys) + {nodes[index].id}
      ensures nodeShardDataMap[nodes[index].id] == NodeShardData(nodes[index], index, index, index, index, false)
      ensures forall id :: id in old(nodeShardDataMap) && id != nodes[index].id ==>
        nodeShardDataMap[id] == old(nodeShardDataMap)[id]
    {
      if index !in coveredBy {
        return true;
      }
      nodeShardDataMap :=
        nodeShardDataMap[nodes[index].id := NodeShardData(nodes[index], index, index, index, index, false)];
      thrown := false;
    }

    // consensusStartPartition and consensusEndPartition, from the ends of the full consensus list.
    method ConsensusBounds(data: NodeShardData, stored: WrappablePartitionRange, consensus: WrappablePartitionRange)
      returns (start: int, end: int)
      requires Valid() && (forall i :: 0 <= i < |nodes| ==> nodes[i].id in nodeShardDataMap)
      requires 0 <= data.homePartition < |nodes|
      requires data.consensusStartPartition == data.consensusEndPartition == data.homePartition
      requires TestsBall(stored, data.homePartition, g.StoreRadius(), |nodes|)
      requires TestsBall(consensus, data.homePartition, g.consensusRadius, |nodes|)
      ensures 0 <= start < |nodes| && 0 <= end < |nodes|
      ensures BoundsCover(start, end, data.homePartition)
    {
      var home := data.homePartition;
      start, end := data.consensusStartPartition, data.consensusEndPartition;
      var combined := GetCombinedNodeLists(g, home, stored, consensus, nodes);
      var full := combined.consensusNodeForOurNodeFull;
      ghost var xs := Select(Scan(g, home), Near(home, g.consensusRadius, g.numPartitions));
      FullListAt(home);
      if |full| >= 2 {
        var startNode, endNode := full[0], full[|full| - 1];
        start := nodeShardDataMap[startNode.id].homePartition;
        end := nodeShardDataMap[endNode.id].homePartition;
        if start == end && startNode.id > endNode.id {
          start, end := 0, g.numPartitions - 1;
        }
      }
      forall p | 0 <= p < |nodes|
        ensures InWrap(p, start, end, |nodes|) <==> Covers(g, home, p)
      {
        if |nodes| >= 2 {
          var first, last := ConsensusWrapCovers(g, home, p);
        }
      }
    }

    lemma FullListAt(home: int)
      requires Valid() && 0 <= home < |nodes|
      ensures
        var xs := Select(Scan(g, home), Near(home, g.consensusRadius, g.numPartitions));
        var combined := CollectAlong(Scan(g, home), home, g.StoreRadius(), g.consensusRadius, nodes);
        var full := combined.consensusNodeForOurNodeFull;
        && |full| == |xs| && (|nodes| >= 2 <==> |xs| >= 2)
        && forall k :: 0 <= k < |xs| ==> 0 <= xs[k] < |nodes| && full[k] == nodes[xs[k]]
    {
      var near := Near(home, g.consensusRadius, g.numPartitions);
      ScanIsStoreBall(g, home, home);
      RunDistinct(ScanStart(g, home), ScanLength(g), g.numPartitions);
      SelectElements(Scan(g, home), near);
      var xs := Select(Scan(g, home), near);
      forall k | 0 <= k < |xs|
        ensures 0 <= xs[k] < |nodes|
      {
        assert xs[k] in xs;
      }
      PickElementwise(nodes, xs);
      if |nodes| >= 2 {
        var first, last := ConsensusWrapCovers(g, home, home);
      }
    }

    // The storedBy loops over the stored range.
    method AddStored(stored: WrappablePartitionRange, index: int) returns (r: map<int, set<nat>>, thrown: bool)
      requires Valid() && 0 <= index < |nodes| && stored.Describes(g, index, g.StoreRadius())
      ensures !thrown && r.Keys == storedBy.Keys
      ensures forall p :: 0 <= p < |nodes| ==>
        r[p] == storedBy[p] + (if StoresPartition(g, index, p) then {nodes[index].id} else {})
    {
      StoredWrap(g, index, stored);
      r, thrown :=
        AddToWrap(storedBy, !stored.rangeIsSplit, stored.partitionStart, stored.partitionEnd, |nodes|, nodes[index].id);
    }

    // The extended data of one node: its consensus arc, and its entries in coveredBy and storedBy.
    method ComputeExtendedNodePartitionData(index: int) returns (thrown: bool)
      requires Valid() && 0 <= index < |nodes| && TablesFilled(index)
      requires forall i :: 0 <= i < |nodes| ==> nodes[i].id in nodeShardDataMap
      modifies this
      ensures !thrown && Valid()
      ensures if old(nodeShardDataMap[nodes[index].id].extendedData)
        then nodeShardDataMap == old(nodeShardDataMap) && coveredBy == old(coveredBy) && storedBy == old(storedBy)
        else TablesFilled(index + 1)
      ensures homePartitionOf == old(homePartitionOf)
      ensures nodeShardDataMap.Keys == old(nodeShardDataMap.Keys) && nodeShardDataMap[nodes[index].id].extendedData
      ensures forall id :: id in nodeShardDataMap && id != nodes[index].id ==>
        nodeShardDataMap[id] == old(nodeShardDataMap)[id]
    {
      var id := nodes[index].id;
      var data := nodeShardDataMap[id];
      if data.extendedData {
        return false;
      }
      data := data.(extendedData := true);
      var stored, t1 := CalculateStoredPartitions2(g, data.homePartition);
      var consensus, t2 := CalculateConsensusPartitions(g, data.homePartition);
      RangeTestsAgree(g, index, g.StoreRadius(), stored);
      RangeTestsAgree(g, index, g.consensusRadius, consensus);
      var start, end := ConsensusBounds(data, stored, consensus);
      var covered, t3 := AddToWrap(coveredBy, start <= end, start, end, |nodes|, id);
      var storing, t4 := AddStored(stored, index);
      FilledNext(index, covered, storing);
      RecordNode(index, data.(consensusStartPartition := start, consensusEndPartition := end), covered, storing);
      thrown := t1 || t2 || t3 || t4;
    }

    method RecordNode(index: int, data: NodeShardData, covered: map<int, set<nat>>, storing: map<int, set<nat>>)
      requires Valid() && 0 <= index < |nodes| && nodes[index].id in nodeShardDataMap && LightweightData(data, index)
      requires covered.Keys == coveredBy.Keys && storing.Keys == storedBy.Keys
      modifies this
      ensures Valid() && coveredBy == covered && storedBy == storing && homePartitionOf == old(homePartitionOf)
      ensures nodeShardDataMap == old(nodeShardDataMap)[nodes[index].id := data]
    {
      nodeShardDataMap := nodeShardDataMap[nodes[index].id := data];
      coveredBy, storedBy := covered, storing;
    }

    lemma FilledNext(index: int, covered: map<int, set<nat>>, storing: map<int, set<nat>>)
      requires Valid() && 0 <= index < |nodes| && TablesFilled(index)
      requires covered.Keys == coveredBy.Keys && storing.Keys == storedBy.Keys
      requires forall p :: 0 <= p < |nodes| ==>
        covered[p] == coveredBy[p] + (if Covers(g, index, p) then {nodes[index].id} else {})
      requires forall p :: 0 <= p < |nodes| ==>
        storing[p] == storedBy[p] + (if StoresPartition(g, index, p) then {nodes[index].id} else {})
      ensures forall p :: 0 <= p < |nodes| ==>
        covered[p] == CoverSet(g, nodes, p, index + 1) && storing[p] == StoreSet(g, nodes, p, index + 1)
    {
      forall p | 0 <= p < |nodes|
        ensures covered[p] == CoverSet(g, nodes, p, index + 1) && storing[p] == StoreSet(g, nodes, p, index + 1)
      {
        SetsGrow(g, nodes, p, index);
      }
    }

    // Lightweight data for every node without any, then the extended data of every node in turn.
    method ComputeNodePartitionDataMap(extendedData: bool) returns (thrown: bool)
      requires Valid() && TablesFilled(0)
      requires forall id :: id in nodeShardDataMap ==> !nodeShardDataMap[id].extendedData
      modifies this
      ensures !thrown && Valid() && homePartitionOf == old(homePartitionOf)
      ensures TablesFilled(if extendedData then |nodes| else 0)
      ensures forall i :: 0 <= i < |nodes| ==> nodes[i].id in nodeShardDataMap
      ensures !extendedData ==> forall id :: id in nodeShardDataMap ==> !nodeShardDataMap[id].extendedData
      ensures extendedData ==> forall i :: 0 <= i < |nodes| ==> nodeShardDataMap[nodes[i].id].extendedData
    {
      thrown := false;
      for index := 0 to |nodes|
        invariant Valid() && TablesFilled(0) && homePartitionOf == old(homePartitionOf)
        invariant forall i :: 0 <= i < index ==> nodes[i].id in nodeShardDataMap
        invariant forall id :: id in nodeShardDataMap ==> !nodeShardDataMap[id].extendedData
      {
        if nodes[index].id !in nodeShardDataMap {
          thrown := ComputeNodePartitionData(index);
          if thrown {
            return;
          }
        }
      }
      if extendedData {
        for index := 0 to |nodes|
          invariant Valid() && TablesFilled(index) && homePartitionOf == old(homePartitionOf)
          invariant forall i :: 0 <= i < |nodes| ==> nodes[i].id in nodeShardDataMap
          invariant forall i :: 0 <= i < |nodes| ==> (nodeShardDataMap[nodes[i].id].extendedData <==> i < index)
        {
          thrown := ComputeExtendedNodePartitionData(index);
          if thrown {
            return;
          }
        }
      }
    }
  }

  lemma SetsGrow(g: ShardGlobals, nodes: seq<Node>, p: int, index: int)
    requires g.Valid() && 0 <= index < |nodes|
    ensures CoverSet(g, nodes, p, index + 1) ==
      CoverSet(g, nodes, p, index) + (if Covers(g, index, p) then {nodes[index].id} else {})
    ensures StoreSet(g, nodes, p, index + 1) ==
      StoreSet(g, nodes, p, index) + (if StoresPartition(g, index, p) then {nodes[index].id} else {})
  {
  }

  // The ids of the nodes within the consensus radius of a partition.
  ghost function ConsensusBall(g: ShardGlobals, nodes: seq<Node>, p: int): set<nat> {
    set i | 0 <= i < |nodes| && CircularDistance(p, i, |nodes|) <= g.consensusRadius :: nodes[i].id
  }

  // The nodes that cover a partition are its consensus ball, for every partition, exactly when CoverExact holds.
  lemma CoverageIsConsensusBallExactly(g: ShardGlobals, nodes: seq<Node>)
    requires ActiveNodes(g, nodes)
    ensures CoverExact(g) <==>
      forall p :: 0 <= p < |nodes| ==> CoverSet(g, nodes, p, |nodes|) == ConsensusBall(g, nodes, p)
  {
    if !CoverExact(g) {
      var p := g.consensusRadius + 1;
      assert CircularDistance(p, 0, |nodes|) > g.consensusRadius;
      assert Covers(g, 0, p) && nodes[0].id in CoverSet(g, nodes, p, |nodes|);
      assert nodes[0].id !in ConsensusBall(g, nodes, p);
    }
  }

  // The shard data of one cycle, from a snapshot of the active list: no throw is reached, storedBy[p]
  // holds exactly the nodes within the store radius of p, coveredBy[p] exactly those that cover p, and the
  // computed coveredBy is the consensus ball of every partition exactly when CoverExact holds.
  method UpdateShardValues(g: ShardGlobals, nodes: seq<Node>) returns (data: CycleShardData, thrown: bool)
    requires ActiveNodes(g, nodes)
    ensures fresh(data) && data.g == g && data.nodes == nodes && !thrown && data.Valid()
    ensures forall p :: 0 <= p < |nodes| ==> data.storedBy[p] == StoreSet(g, nodes, p, |nodes|)
    ensures forall p :: 0 <= p < |nodes| ==> data.coveredBy[p] == CoverSet(g, nodes, p, |nodes|)
    ensures CoverExact(g) <==> forall p :: 0 <= p < |nodes| ==> data.coveredBy[p] == ConsensusBall(g, nodes, p)
    ensures g.numPartitions <= 0x8000 ==>
      forall p :: 0 <= p < |nodes| ==> p in data.homePartitionOf && data.homePartitionOf[p] == p
    ensures forall i :: 0 <= i < |nodes| ==>
      nodes[i].id in data.nodeShardDataMap && data.nodeShardDataMap[nodes[i].id].extendedData
  {
    data := new CycleShardData(g, nodes);
    data.ComputePartitionShardDataMap();
    thrown := data.ComputeNodePartitionDataMap(false);
    if !thrown {
      thrown := data.ComputeNodePartitionDataMap(true);
    }
    CoverageIsConsensusBallExactly(g, nodes);
  }

  // ----- how many nodes cover a partition -----

  ghost function Interval(lo: int, hi: int): (s: set<int>)
    requires lo <= hi + 1
    ensures forall i :: i in s <==> lo <= i <= hi
    ensures |s| == hi + 1 - lo
    decreases hi + 1 - lo
  {
    if hi < lo then {} else Interval(lo, hi - 1) + {hi}
  }

  ghost function Ball(p: int, radius: int, n: int): set<int> {
    set i | 0 <= i < n && CircularDistance(p, i, n) <= radius
  }

  lemma BallSize(p: int, radius: int, n: int)
    requires 0 <= p < n && 0 <= radius
    ensures |Ball(p, radius, n)| == Min(n, 2 * radius + 1)
  {
    if n <= 2 * radius + 1 {
      assert Ball(p, radius, n) == Interval(0, n - 1);
    } else if 0 <= p - radius && p + radius < n {
      JoinedBallSize(p, radius, n);
    } else {
      WrappedBallSize(p, radius, n);
    }
  }

  lemma JoinedBallSize(p: int, radius: int, n: int)
    requires 0 <= radius <= p && p + radius < n && 2 * radius + 1 < n
    ensures |Ball(p, radius, n)| == 2 * radius + 1
  {
    assert Ball(p, radius, n) == Interval(p - radius, p + radius);
  }

  lemma WrappedBallSize(p: int, radius: int, n: int)
    requires 0 <= p < n && 0 <= radius && 2 * radius + 1 < n && (p < radius || n <= p + radius)
    ensures |Ball(p, radius, n)| == 2 * radius + 1
  {
    var low, high := Interval(0, Clockwise(p, radius, n)), Interval(CounterClockwise(p, radius, n), n - 1);
    assert Ball(p, radius, n) == low + high;
    assert low !! high;
  }

  // Distinct values: as many values as indices.
  lemma {:induction false} ImageSize(values: seq<nat>, indices: set<int>)
    requires forall i, j :: 0 <= i < j < |values| ==> values[i] != values[j]
    requires forall i :: i in indices ==> 0 <= i < |values|
    ensures |set i | i in indices :: values[i]| == |indices|
    decreases indices
  {
    if indices != {} {
      assert exists k :: k in indices by {
        assert (forall k :: k !in indices) ==> indices == {};
      }
      var k :| k in indices;
      var rest := indices - {k};
      ImageSize(values, rest);
      assert (set i | i in indices :: values[i]) == (set i | i in rest :: values[i]) + {values[k]};
    }
  }

  lemma IdCount(nodes: seq<Node>, indices: set<int>)
    requires forall i, j :: 0 <= i < j < |nodes| ==> nodes[i].id != nodes[j].id
    requires forall i :: i in indices ==> 0 <= i < |nodes|
    ensures |set i | i in indices :: nodes[i].id| == |indices|
  {
    var ids := seq(|nodes|, i requires 0 <= i < |nodes| => nodes[i].id);
    ImageSize(ids, indices);
    assert (set i | i in indices :: nodes[i].id) == (set i | i in indices :: ids[i]);
  }

  // Every partition is covered by exactly min(N, nodesPerConsenusGroup) nodes when the arc is read
  // exactly, and by all N nodes otherwise.
  lemma CoverCount(g: ShardGlobals, nodes: seq<Node>, p: int)
    requires ActiveNodes(g, nodes) && 0 <= p < |nodes|
    ensures |CoverSet(g, nodes, p, |nodes|)| ==
      if CoverExact(g) then Min(g.numPartitions, g.nodesPerConsenusGroup) else g.numPartitions
  {
    var n := |nodes|;
    var indices := if CoverExact(g) then Ball(p, g.consensusRadius, n) else Interval(0, n - 1);
    IdCount(nodes, indices);
    BallSize(p, g.consensusRadius, n);
    assert CoverSet(g, nodes, p, n) == set i | i in indices :: nodes[i].id;
  }

  lemma StoreCount(g: ShardGlobals, nodes: seq<Node>, p: int)
    requires ActiveNodes(g, nodes) && 0 <= p < |nodes|
    ensures |StoreSet(g, nodes, p, |nodes|)| == Min(g.numPartitions, 2 * (g.consensusRadius + g.nodesPerEdge) + 1)
  {
    var indices := Ball(p, g.StoreRadius(), |nodes|);
    IdCount(nodes, indices);
    BallSize(p, g.StoreRadius(), |nodes|);
    assert StoreSet(g, nodes, p, |nodes|) == set i | i in indices :: nodes[i].id;
  }
}
