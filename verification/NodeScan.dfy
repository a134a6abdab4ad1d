/** The node lists around a home partition, collected in one pass (src/ShardFunctions.ts:1476-1543). */
module NodeScan {
  import opened Basics
  import opened ShardGeometry
  import opened PartitionRange

  datatype Node = Node(id: nat, publicKey: nat, active: bool)

  // The id-sorted active node list of one cycle: node i has home partition i.
  ghost predicate ActiveNodes(g: ShardGlobals, nodes: seq<Node>) {
    && g.Valid()
    && |nodes| == g.numPartitions
    && (forall i, j :: 0 <= i < j < |nodes| ==> nodes[i].id != nodes[j].id)
  }

  // ----- sequences of indices -----

  function Select(xs: seq<int>, keep: int -> bool): seq<int> {
    if xs == [] then [] else
      var front := Select(xs[..|xs| - 1], keep);
      if keep(xs[|xs| - 1]) then front + [xs[|xs| - 1]] else front
  }

  lemma SelectSnoc(xs: seq<int>, x: int, keep: int -> bool)
    ensures Select(xs + [x], keep) == if keep(x) then Select(xs, keep) + [x] else Select(xs, keep)
  {
    assert (xs + [x])[..|xs|] == xs;
  }

  lemma {:induction false} SelectElements(xs: seq<int>, keep: int -> bool)
    ensures forall x :: x in Select(xs, keep) <==> x in xs && keep(x)
  {
    if xs != [] {
      SelectElements(xs[..|xs| - 1], keep);
      assert xs == xs[..|xs| - 1] + [xs[|xs| - 1]];
    }
  }

  lemma {:induction false} SelectDistinct(xs: seq<int>, keep: int -> bool)
    requires Distinct(xs)
    ensures Distinct(Select(xs, keep))
  {
    if xs != [] {
      SelectDistinct(xs[..|xs| - 1], keep);
      SelectElements(xs[..|xs| - 1], keep);
    }
  }

  // The first and last selected element, given the first and last position that qualifies.
  lemma {:induction false} SelectEnds(xs: seq<int>, keep: int -> bool, first: int, last: int)
    requires 0 <= first <= last < |xs| && keep(xs[first]) && keep(xs[last])
    requires forall k :: 0 <= k < first || last < k < |xs| ==> !keep(xs[k])
    ensures var ys := Select(xs, keep);
      ys != [] && ys[0] == xs[first] && ys[|ys| - 1] == xs[last] && (first < last ==> |ys| >= 2)
  {
    var front := xs[..|xs| - 1];
    if last < |xs| - 1 {
      SelectEnds(front, keep, first, last);
    } else if first < last {
      var previous := |front| - 1;
      while !keep(front[previous])
        invariant first <= previous < |front|
        invariant forall k :: previous < k < |front| ==> !keep(front[k])
        decreases previous
      {
        previous := previous - 1;
      }
      SelectEnds(front, keep, first, previous);
    } else {
      SelectNone(front, keep);
    }
  }

  lemma {:induction false} SelectNone(xs: seq<int>, keep: int -> bool)
    requires forall k :: 0 <= k < |xs| ==> !keep(xs[k])
    ensures Select(xs, keep) == []
  {
    if xs != [] {
      SelectNone(xs[..|xs| - 1], keep);
    }
  }

  // ----- the scan order -----

  function ScanStart(g: ShardGlobals, home: int): int
    requires g.Valid()
  {
    Modulo(home - g.StoreRadius(), g.numPartitions)
  }

  function ScanLength(g: ShardGlobals): int {
    Min(2 * g.StoreRadius() + 1, g.numPartitions)
  }

  function Run(start: int, length: int, n: int): seq<int>
    requires 0 <= length
  {
    seq(length, k => Clockwise(start, k, n))
  }

  function Scan(g: ShardGlobals, home: int): seq<int>
    requires g.Valid()
  {
    Run(ScanStart(g, home), ScanLength(g), g.numPartitions)
  }

  function Near(home: int, radius: int, n: int): int -> bool {
    i => CircularDistance(i, home, n) <= radius
  }

  function Others(home: int, keep: int -> bool): int -> bool {
    i => i != home && keep(i)
  }

  lemma CongruentEqual(x: int, y: int, n: int, k: int)
    requires 0 <= x < n && 0 <= y < n && x - y == k * n
    ensures x == y
  {
    assert k >= 1 ==> k * n >= n;
    assert k <= -1 ==> k * n <= -n;
  }

  // Position e mod n of the scan is the first partition of the consensus arc.
  lemma ArcPosition(g: ShardGlobals, home: int)
    requires g.Valid() && 0 <= home < g.numPartitions && g.consensusRadius < g.numPartitions
    ensures 0 <= ScanStart(g, home) < g.numPartitions
    ensures Clockwise(ScanStart(g, home), g.nodesPerEdge % g.numPartitions, g.numPartitions)
         == CounterClockwise(home, g.consensusRadius, g.numPartitions)
  {
    var n, e, x := g.numPartitions, g.nodesPerEdge, home - g.StoreRadius();
    QuotientForm(x, n);
    QuotientForm(e, n);
    var k := -(x / n) - e / n;
    var a, b := Clockwise(x % n, e % n, n), CounterClockwise(home, g.consensusRadius, n);
    Distribute(k, -(x / n), -(e / n), n);
    var wrap := (if x % n + e % n < n then 0 else 1) + (if g.consensusRadius <= home then 0 else 1);
    Distribute(k - wrap, k, -wrap, n);
    CongruentEqual(a, b, n, k - wrap);
  }

  lemma QuotientForm(x: int, n: int)
    requires 0 < n
    ensures x == (x / n) * n + x % n && 0 <= x % n < n && (-(x / n)) * n == -((x / n) * n)
  {
  }

  lemma Distribute(k: int, i: int, j: int, n: int)
    requires k == i + j
    ensures k * n == i * n + j * n
  {
  }

  lemma RunDistinct(start: int, length: int, n: int)
    requires 0 <= start < n && 0 <= length <= n
    ensures Distinct(Run(start, length, n))
    ensures forall k :: 0 <= k < length ==> 0 <= Run(start, length, n)[k] < n
  {
  }

  lemma InRun(start: int, length: int, n: int, i: int)
    requires 0 <= start < n && 0 <= length <= n && 0 <= i < n
    ensures i in Run(start, length, n) <==> (if start <= i then i - start else i - start + n) < length
  {
    var k := if start <= i then i - start else i - start + n;
    assert Clockwise(start, k, n) == i;
    if k < length { assert Run(start, length, n)[k] == i; }
  }

  // The scan visits exactly the partitions within the store radius, each once.
  lemma ScanIsStoreBall(g: ShardGlobals, home: int, i: int)
    requires g.Valid() && 0 <= home < g.numPartitions && 0 <= i < g.numPartitions
    ensures 0 <= ScanStart(g, home) < g.numPartitions
    ensures i in Scan(g, home) <==> CircularDistance(i, home, g.numPartitions) <= g.consensusRadius + g.nodesPerEdge
  {
    var n, r := g.numPartitions, g.StoreRadius();
    InRun(ScanStart(g, home), ScanLength(g), n, i);
    if r < n {
      ModuloCases(home - r, n);
    }
  }

  // ----- the one-pass scan -----

  datatype CombinedNodes = CombinedNodes(
    consensusNodeForOurNode: seq<Node>,
    consensusNodeForOurNodeFull: seq<Node>,
    nodeThatStoreOurPartition: seq<Node>,
    nodeThatStoreOurPartitionFull: seq<Node>,
    edgeNodes: seq<Node>)

  function Edge(home: int, storeRadius: int, consensusRadius: int, n: int): int -> bool {
    i => i != home && CircularDistance(i, home, n) <= storeRadius && CircularDistance(i, home, n) > consensusRadius
  }

  // The five lists collected along the indices `scan`.
  ghost function CollectAlong(
    scan: seq<int>, home: int, storeRadius: int, consensusRadius: int, nodes: seq<Node>): CombinedNodes
  {
    var inStore, inConsensus := Near(home, storeRadius, |nodes|), Near(home, consensusRadius, |nodes|);
    CombinedNodes(
      Pick(nodes, Select(scan, Others(home, inConsensus))),
      Pick(nodes, Select(scan, inConsensus)),
      Pick(nodes, Select(scan, Others(home, inStore))),
      Pick(nodes, Select(scan, inStore)),
      Pick(nodes, Select(scan, Edge(home, storeRadius, consensusRadius, |nodes|))))
  }

  function AddNode(c: CombinedNodes, node: Node, isHome: bool, inStore: bool, inConsensus: bool): CombinedNodes {
    CombinedNodes(
      c.consensusNodeForOurNode + (if !isHome && inConsensus then [node] else []),
      c.consensusNodeForOurNodeFull + (if inConsensus then [node] else []),
      c.nodeThatStoreOurPartition + (if !isHome && inStore then [node] else []),
      c.nodeThatStoreOurPartitionFull + (if inStore then [node] else []),
      c.edgeNodes + (if !isHome && inStore && !inConsensus then [node] else []))
  }

  // The five lists after `count` steps clockwise from `start`.
  ghost function Collected(
    start: int, count: int, home: int, storeRadius: int, consensusRadius: int, nodes: seq<Node>): CombinedNodes
    requires 0 <= start < |nodes| && 0 <= count <= |nodes|
  {
    if count == 0 then CombinedNodes([], [], [], [], []) else
      var x := Clockwise(start, count - 1, |nodes|);
      AddNode(Collected(start, count - 1, home, storeRadius, consensusRadius, nodes), nodes[x], x == home,
              CircularDistance(x, home, |nodes|) <= storeRadius, CircularDistance(x, home, |nodes|) <= consensusRadius)
  }

  lemma CollectStep(scan: seq<int>, x: int, home: int, storeRadius: int, consensusRadius: int, nodes: seq<Node>)
    requires 0 <= x < |nodes|
    ensures CollectAlong(scan + [x], home, storeRadius, consensusRadius, nodes) ==
      AddNode(CollectAlong(scan, home, storeRadius, consensusRadius, nodes), nodes[x], x == home,
              CircularDistance(x, home, |nodes|) <= storeRadius, CircularDistance(x, home, |nodes|) <= consensusRadius)
  {
    var inStore, inConsensus := Near(home, storeRadius, |nodes|), Near(home, consensusRadius, |nodes|);
    SelectPick(nodes, scan, x, inStore);
    SelectPick(nodes, scan, x, Others(home, inStore));
    SelectPick(nodes, scan, x, inConsensus);
    SelectPick(nodes, scan, x, Others(home, inConsensus));
    SelectPick(nodes, scan, x, Edge(home, storeRadius, consensusRadius, |nodes|));
  }

  lemma RunSnoc(start: int, count: int, n: int)
    requires 0 <= start < n && 0 < count <= n
    ensures Run(start, count, n) == Run(start, count - 1, n) + [Clockwise(start, count - 1, n)]
    ensures 0 <= Clockwise(start, count - 1, n) < n
  {
  }

  lemma {:induction false} CollectedIsCollectAlong(
    start: int, count: int, home: int, storeRadius: int, consensusRadius: int, nodes: seq<Node>)
    requires 0 <= start < |nodes| && 0 <= count <= |nodes|
    ensures Collected(start, count, home, storeRadius, consensusRadius, nodes)
         == CollectAlong(Run(start, count, |nodes|), home, storeRadius, consensusRadius, nodes)
  {
    if count > 0 {
      CollectedIsCollectAlong(start, count - 1, home, storeRadius, consensusRadius, nodes);
      RunSnoc(start, count, |nodes|);
      var front, last := Run(start, count - 1, |nodes|), Clockwise(start, count - 1, |nodes|);
      CollectStep(front, last, home, storeRadius, consensusRadius, nodes);
    }
  }

  // `stored` and `consensus` are the node's own two ranges; the node itself is nodes[home].
  method GetCombinedNodeLists(g: ShardGlobals, home: int, stored: WrappablePartitionRange,
    consensus: WrappablePartitionRange, nodes: seq<Node>) returns (r: CombinedNodes)
    requires ActiveNodes(g, nodes) && 0 <= home < |nodes|
    requires TestsBall(stored, home, g.StoreRadius(), |nodes|) && TestsBall(consensus, home, g.consensusRadius, |nodes|)
    ensures r == CollectAlong(Scan(g, home), home, g.StoreRadius(), g.consensusRadius, nodes)
  {
    var start := Modulo(home - g.StoreRadius(), g.numPartitions);
    var maxScanNeeded := 2 * g.consensusRadius + 2 * g.nodesPerEdge + 1;
    if maxScanNeeded > |nodes| {
      maxScanNeeded := |nodes|;
    }
    assert start == ScanStart(g, home) && maxScanNeeded == ScanLength(g);
    CollectedIsCollectAlong(start, maxScanNeeded, home, g.StoreRadius(), g.consensusRadius, nodes);
    r := CollectFrom(start, maxScanNeeded, home, g.StoreRadius(), g.consensusRadius, stored, consensus, nodes);
  }

  method CollectFrom(start: int, maxScanNeeded: int, home: int, ghost storeRadius: int, ghost consensusRadius: int,
    stored: WrappablePartitionRange, consensus: WrappablePartitionRange, nodes: seq<Node>) returns (r: CombinedNodes)
    requires 0 <= home < |nodes| && (forall k :: 0 <= k < |nodes| && nodes[k] == nodes[home] ==> k == home)
    requires 0 <= consensusRadius <= storeRadius
    requires 0 <= start < |nodes| && 0 <= maxScanNeeded <= |nodes|
    requires TestsBall(stored, home, storeRadius, |nodes|) && TestsBall(consensus, home, consensusRadius, |nodes|)
    ensures r == Collected(start, maxScanNeeded, home, storeRadius, consensusRadius, nodes)
  {
    r := CombinedNodes([], [], [], [], []);
    var partition := start - 1;
    for i := 0 to maxScanNeeded
      invariant partition == (if i == 0 then start - 1 else Clockwise(start, i - 1, |nodes|))
      invariant r == Collected(start, i, home, storeRadius, consensusRadius, nodes)
    {
      partition := NextIndex(partition, |nodes|, |nodes|);
      r := CollectNode(r, partition, home, storeRadius, consensusRadius, stored, consensus, nodes);
    }
  }

  // One step of the scan.
  method CollectNode(c: CombinedNodes, partition: int, home: int, ghost storeRadius: int, ghost consensusRadius: int,
    stored: WrappablePartitionRange, consensus: WrappablePartitionRange, nodes: seq<Node>) returns (r: CombinedNodes)
    requires 0 <= home < |nodes| && (forall k :: 0 <= k < |nodes| && nodes[k] == nodes[home] ==> k == home)
    requires 0 <= partition < |nodes| && 0 <= consensusRadius <= storeRadius
    requires TestsBall(stored, home, storeRadius, |nodes|) && TestsBall(consensus, home, consensusRadius, |nodes|)
    ensures r == AddNode(c, nodes[partition], partition == home,
      CircularDistance(partition, home, |nodes|) <= storeRadius,
      CircularDistance(partition, home, |nodes|) <= consensusRadius)
  {
    r := c;
    var node := nodes[partition];
    if node == nodes[home] {
      r := r.(nodeThatStoreOurPartitionFull := r.nodeThatStoreOurPartitionFull + [node],
              consensusNodeForOurNodeFull := r.consensusNodeForOurNodeFull + [node]);
      return;
    }
    var isInConsensusRange, isInPartitionRange := false, false;
    if TestInRange(partition, stored) {
      r := r.(nodeThatStoreOurPartition := r.nodeThatStoreOurPartition + [node],
              nodeThatStoreOurPartitionFull := r.nodeThatStoreOurPartitionFull + [node]);
      isInPartitionRange := true;
    }
    if TestInRange(partition, consensus) {
      r := r.(consensusNodeForOurNode := r.consensusNodeForOurNode + [node],
              consensusNodeForOurNodeFull := r.consensusNodeForOurNodeFull + [node]);
      isInConsensusRange := true;
    }
    if isInPartitionRange && !isInConsensusRange {
      r := r.(edgeNodes := r.edgeNodes + [node]);
    }
  }

  // partition = modulo(partition + 1, numPartitions), reset to 0 past the end of the list.
  method NextIndex(partition: int, n: int, count: int) returns (next: int)
    requires -1 <= partition < n && 0 < n
    ensures next == if partition + 1 < n && partition + 1 < count then partition + 1 else 0
  {
    ModuloCases(partition + 1, n);
    next := Modulo(partition + 1, n);
    if next >= count {
      next := 0;
    }
  }

  // The nodes at the given indices; an index outside the list would be undefined in the source.
  function Pick(nodes: seq<Node>, indices: seq<int>): seq<Node> {
    if indices == [] then [] else
      Pick(nodes, indices[..|indices| - 1])
      + (if 0 <= indices[|indices| - 1] < |nodes| then [nodes[indices[|indices| - 1]]] else [])
  }

  lemma SelectPick(nodes: seq<Node>, xs: seq<int>, x: int, keep: int -> bool)
    requires 0 <= x < |nodes|
    ensures Pick(nodes, Select(xs + [x], keep)) == Pick(nodes, Select(xs, keep)) + (if keep(x) then [nodes[x]] else [])
  {
    SelectSnoc(xs, x, keep);
    var ys := Select(xs, keep);
    assert (ys + [x])[..|ys|] == ys;
  }
}
