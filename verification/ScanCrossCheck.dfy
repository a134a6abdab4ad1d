/** The built-in cross-check of the one-pass scan against the older scans (src/ShardFunctions.ts:594-613, 663-738). */
module ScanCrossCheck {
  import opened Basics
  import opened ShardGeometry
  import opened PartitionRange
  import opened NodeScan
  import opened OlderScans

  // The list holds each node whose index is wanted, once, and nothing else.
  ghost predicate Lists(nodes: seq<Node>, list: seq<Node>, want: int -> bool) {
    && Distinct(list)
    && (forall node :: node in list ==> node in nodes)
    && (forall i :: 0 <= i < |nodes| ==> (nodes[i] in list <==> want(i)))
  }

  lemma {:induction false} PickElements(nodes: seq<Node>, indices: seq<int>, node: Node)
    ensures node in Pick(nodes, indices) <==> exists i :: i in indices && 0 <= i < |nodes| && nodes[i] == node
  {
    if indices != [] {
      var front, last := indices[..|indices| - 1], indices[|indices| - 1];
      PickElements(nodes, front, node);
      assert indices == front + [last];
      if i :| i in indices && 0 <= i < |nodes| && nodes[i] == node {
        assert i in front || i == last;
      }
      if 0 <= last < |nodes| && nodes[last] == node {
        assert last in indices;
      }
    }
  }

  lemma {:induction false} PickDistinct(g: ShardGlobals, nodes: seq<Node>, indices: seq<int>)
    requires ActiveNodes(g, nodes) && Distinct(indices)
    ensures Distinct(Pick(nodes, indices))
  {
    if indices != [] {
      var front, last := indices[..|indices| - 1], indices[|indices| - 1];
      PickDistinct(g, nodes, front);
      if 0 <= last < |nodes| {
        PickElements(nodes, front, nodes[last]);
        assert forall i :: i in front && 0 <= i < |nodes| ==> i != last && nodes[i] != nodes[last];
      }
    }
  }

  lemma PickLists(g: ShardGlobals, nodes: seq<Node>, indices: seq<int>, want: int -> bool)
    requires ActiveNodes(g, nodes) && Distinct(indices)
    requires forall i :: i in indices <==> 0 <= i < |nodes| && want(i)
    ensures Lists(nodes, Pick(nodes, indices), want)
  {
    PickDistinct(g, nodes, indices);
    forall node
      ensures node in Pick(nodes, indices) <==> exists i :: i in indices && 0 <= i < |nodes| && nodes[i] == node
    {
      PickElements(nodes, indices, node);
    }
    forall i | 0 <= i < |nodes|
      ensures nodes[i] in Pick(nodes, indices) <==> want(i)
    {
      assert forall j :: 0 <= j < |nodes| && nodes[j] == nodes[i] ==> j == i;
    }
  }

  // ----- list differences -----

  // A - B, with a Set of B's nodes.
  method SubtractNodeLists(listA: seq<Node>, listB: seq<Node>) returns (results: seq<Node>)
    ensures forall node :: node in results <==> node in listA && node !in listB
    ensures Distinct(listA) ==> Distinct(results)
  {
    results := [];
    var nodeSet := set node | node in listB;
    for i := 0 to |listA|
      invariant forall node :: node in results <==> node in listA[..i] && node !in listB
      invariant Distinct(listA) ==> Distinct(results)
    {
      if listA[i] !in nodeSet {
        results := results + [listA[i]];
      }
    }
  }

  // A followed by the nodes of B that are not in A.
  method MergeNodeLists(listA: seq<Node>, listB: seq<Node>) returns (results: seq<Node>, extras: seq<Node>)
    ensures forall node :: node in results <==> node in listA || node in listB
    ensures forall node :: node in extras <==> node in listB && node !in listA
    ensures Distinct(listA) && Distinct(listB) ==> Distinct(results)
  {
    results, extras := listA, [];
    var nodeSet := set node | node in listA;
    for i := 0 to |listB|
      invariant forall node :: node in results <==> node in listA || node in listB[..i]
      invariant forall node :: node in extras <==> node in listB[..i] && node !in listA
      invariant Distinct(listA) && Distinct(listB) ==> Distinct(results)
    {
      if listB[i] !in nodeSet {
        results := results + [listB[i]];
        extras := extras + [listB[i]];
      }
    }
  }

  // ----- both computations -----

  datatype NodeLists = NodeLists(store: seq<Node>, consensus: seq<Node>, consensusFull: seq<Node>, edge: seq<Node>)

  // The indices within the radius whose node is active.
  function NearActive(nodes: seq<Node>, home: int, radius: int): int -> bool {
    i => 0 <= i < |nodes| && nodes[i].active && CircularDistance(i, home, |nodes|) <= radius
  }

  // The older computation, for any statuses. Its neighbour scans list active nodes only, and its edge list
  // also takes in the active neighbours within 2 * consensusRadius.
  method OlderLists(g: ShardGlobals, home: int, nodes: seq<Node>) returns (r: NodeLists)
    requires ActiveNodes(g, nodes) && 0 <= home < |nodes|
    ensures Lists(nodes, r.store, Others(home, Near(home, g.StoreRadius(), |nodes|)))
    ensures Lists(nodes, r.consensus, Others(home, NearActive(nodes, home, g.consensusRadius)))
    ensures Lists(nodes, r.consensusFull, NearActive(nodes, home, g.consensusRadius))
    ensures Lists(nodes, r.edge, WideEdge(g, home, nodes))
  {
    var n, cr, exclude := |nodes|, g.consensusRadius, [nodes[home].id];
    var c2, consensus, full;
    var store := GetNodesThatCoverHomePartition(g, home, nodes);
    ghost var order :| store == Pick(nodes, order) && ListsBall(order, home, g.StoreRadius(), n, false);
    PickLists(g, nodes, order, Others(home, Near(home, g.StoreRadius(), n)));
    consensus := NeighborLists(g, home, cr, exclude, nodes);
    full := NeighborLists(g, home, cr, [], nodes);
    c2 := NeighborLists(g, home, 2 * cr, exclude, nodes);
    var edge := OlderEdge(g, home, nodes, store, c2, consensus);
    r := NodeLists(store, consensus, full, edge);
  }

  method OlderEdge(g: ShardGlobals, home: int, nodes: seq<Node>, store: seq<Node>, c2: seq<Node>, consensus: seq<Node>)
    returns (edge: seq<Node>)
    requires ActiveNodes(g, nodes) && 0 <= home < |nodes|
    requires Lists(nodes, store, Others(home, Near(home, g.StoreRadius(), |nodes|)))
    requires Lists(nodes, c2, Others(home, NearActive(nodes, home, 2 * g.consensusRadius)))
    requires Lists(nodes, consensus, Others(home, NearActive(nodes, home, g.consensusRadius)))
    ensures Lists(nodes, edge, WideEdge(g, home, nodes))
  {
    var results, _ := MergeNodeLists(store, c2);
    edge := SubtractNodeLists(results, consensus);
    edge := SubtractNodeLists(edge, [nodes[home]]);
  }

  function WideEdge(g: ShardGlobals, home: int, nodes: seq<Node>): int -> bool {
    i => i != home && !NearActive(nodes, home, g.consensusRadius)(i)
         && (Near(home, g.StoreRadius(), |nodes|)(i) || NearActive(nodes, home, 2 * g.consensusRadius)(i))
  }

  method NeighborLists(g: ShardGlobals, home: int, radius: int, exclude: seq<nat>, nodes: seq<Node>)
    returns (r: seq<Node>)
    requires ActiveNodes(g, nodes) && 0 <= home < |nodes| && 0 <= radius
    requires exclude == [] || exclude == [nodes[home].id]
    ensures exclude == [] ==> Lists(nodes, r, NearActive(nodes, home, radius))
    ensures exclude != [] ==> Lists(nodes, r, Others(home, NearActive(nodes, home, radius)))
  {
    r := GetNeigborNodesInRange(home, radius, exclude, nodes);
    NothingIsCut(home, radius, exclude, nodes);
    ghost var order, kept := NeighborOrder(home, radius, |nodes|), Kept(nodes, exclude);
    NeighborOrderIsBall(home, radius, |nodes|);
    SelectElements(order, kept);
    SelectDistinct(order, kept);
    assert exclude != [] ==> forall i :: 0 <= i < |nodes| && nodes[i].id == nodes[home].id ==> i == home;
    ghost var near := NearActive(nodes, home, radius);
    PickLists(g, nodes, Select(order, kept), if exclude == [] then near else Others(home, near));
  }

  // ----- the cross-check -----

  // The source throws 'Different calculation' when any of the eight differences is non-empty.
  method CheckNewCalculation(older: NodeLists, combined: CombinedNodes) returns (thrown: bool)
    ensures !thrown <==>
      && (forall node :: node in older.store <==> node in combined.nodeThatStoreOurPartition)
      && (forall node :: node in older.consensus <==> node in combined.consensusNodeForOurNode)
      && (forall node :: node in older.consensusFull <==> node in combined.consensusNodeForOurNodeFull)
      && (forall node :: node in older.edge <==> node in combined.edgeNodes)
  {
    var diffA := Differ(older.store, combined.nodeThatStoreOurPartition);
    var diffB := Differ(older.consensus, combined.consensusNodeForOurNode);
    var diffC := Differ(older.consensusFull, combined.consensusNodeForOurNodeFull);
    var diffD := Differ(older.edge, combined.edgeNodes);
    thrown := diffA || diffB || diffC || diffD;
  }

  method Differ(a: seq<Node>, b: seq<Node>) returns (differ: bool)
    ensures !differ <==> forall node :: node in a <==> node in b
  {
    var diff1 := SubtractNodeLists(a, b);
    var diff2 := SubtractNodeLists(b, a);
    differ := |diff1| > 0 || |diff2| > 0;
    if |diff1| > 0 { assert diff1[0] in diff1; }
    if |diff2| > 0 { assert diff2[0] in diff2; }
  }

  // Every node near enough for consensus is active, and no active node lies beyond the store radius but within
  // 2 * consensusRadius.
  ghost predicate ChecksOut(g: ShardGlobals, home: int, nodes: seq<Node>) {
    forall i :: 0 <= i < |nodes| ==> StatusFits(g, CircularDistance(i, home, |nodes|), nodes[i].active)
  }

  predicate StatusFits(g: ShardGlobals, distance: int, active: bool) {
    && (distance <= g.consensusRadius ==> active)
    && (g.StoreRadius() < distance <= 2 * g.consensusRadius ==> !active)
  }

  // Both computations always list the same store nodes. The other lists, and so the cross-check as a whole,
  // agree exactly when the statuses check out.
  method CombinedAgreesWithOlder(g: ShardGlobals, home: int, nodes: seq<Node>)
    returns (older: NodeLists, combined: CombinedNodes, thrown: bool)
    requires ActiveNodes(g, nodes) && 0 <= home < |nodes|
    ensures Distinct(older.store) && Distinct(combined.nodeThatStoreOurPartition)
    ensures Distinct(older.consensus) && Distinct(combined.consensusNodeForOurNode)
    ensures Distinct(older.consensusFull) && Distinct(combined.consensusNodeForOurNodeFull)
    ensures forall node :: node in older.store <==> node in combined.nodeThatStoreOurPartition
    ensures !thrown <==> ChecksOut(g, home, nodes)
  {
    ghost var n, cr := |nodes|, g.consensusRadius;
    older := OlderLists(g, home, nodes);
    var stored, _ := CalculateStoredPartitions2(g, home);
    var consensus, _ := CalculateConsensusPartitions(g, home);
    RangeTestsAgree(g, home, g.StoreRadius(), stored);
    RangeTestsAgree(g, home, cr, consensus);
    combined := GetCombinedNodeLists(g, home, stored, consensus, nodes);
    CombinedLists(g, home, nodes);
    ghost var inStore, near := Others(home, Near(home, g.StoreRadius(), n)), NearActive(nodes, home, cr);
    SameLists(g, nodes, older.store, combined.nodeThatStoreOurPartition, inStore, inStore);
    SameLists(g, nodes, older.consensus, combined.consensusNodeForOurNode,
      Others(home, near), Others(home, Near(home, cr, n)));
    SameLists(g, nodes, older.consensusFull, combined.consensusNodeForOurNodeFull, near, Near(home, cr, n));
    SameLists(g, nodes, older.edge, combined.edgeNodes,
      WideEdge(g, home, nodes), Edge(home, g.StoreRadius(), cr, n));
    WantsAgree(g, home, nodes);
    thrown := CheckNewCalculation(older, combined);
  }

  ghost predicate SameWant(nodes: seq<Node>, want1: int -> bool, want2: int -> bool) {
    forall i :: 0 <= i < |nodes| ==> want1(i) == want2(i)
  }

  // Two lists hold the same nodes exactly when they are wanted alike.
  lemma SameLists(
    g: ShardGlobals, nodes: seq<Node>, a: seq<Node>, b: seq<Node>, want1: int -> bool, want2: int -> bool)
    requires ActiveNodes(g, nodes) && Lists(nodes, a, want1) && Lists(nodes, b, want2)
    ensures (forall node :: node in a <==> node in b) <==> SameWant(nodes, want1, want2)
  {
    if SameWant(nodes, want1, want2) {
      forall node ensures node in a <==> node in b {
        if node in nodes {
          var i :| 0 <= i < |nodes| && nodes[i] == node;
        }
      }
    }
  }

  lemma WantsAgree(g: ShardGlobals, home: int, nodes: seq<Node>)
    requires ActiveNodes(g, nodes) && 0 <= home < |nodes|
    ensures
      var n, cr := |nodes|, g.consensusRadius;
      var near, all := NearActive(nodes, home, cr), Near(home, cr, n);
      ChecksOut(g, home, nodes) <==>
        SameWant(nodes, near, all) && SameWant(nodes, Others(home, near), Others(home, all))
        && SameWant(nodes, WideEdge(g, home, nodes), Edge(home, g.StoreRadius(), cr, n))
  {
    var n, cr := |nodes|, g.consensusRadius;
    var near, all := NearActive(nodes, home, cr), Near(home, cr, n);
    var wide, edge := WideEdge(g, home, nodes), Edge(home, g.StoreRadius(), cr, n);
    forall i | 0 <= i < n
      ensures StatusFits(g, CircularDistance(i, home, n), nodes[i].active) <==>
        near(i) == all(i) && Others(home, near)(i) == Others(home, all)(i) && wide(i) == edge(i)
    {
    }
    if ChecksOut(g, home, nodes) {
      forall i | 0 <= i < n
        ensures near(i) == all(i) && Others(home, near)(i) == Others(home, all)(i) && wide(i) == edge(i)
      {
        assert StatusFits(g, CircularDistance(i, home, n), nodes[i].active);
      }
    }
  }

  // With active nodes only, the statuses check out exactly when 2 * consensusRadius reaches no further than the
  // store radius or the store radius reaches every node.
  lemma AllActiveChecksOutExactly(g: ShardGlobals, home: int, nodes: seq<Node>)
    requires ActiveNodes(g, nodes) && 0 <= home < |nodes| && forall k :: 0 <= k < |nodes| ==> nodes[k].active
    ensures ChecksOut(g, home, nodes) <==>
      g.consensusRadius <= g.nodesPerEdge || g.numPartitions <= 2 * g.StoreRadius() + 1
  {
    var n, r := |nodes|, g.StoreRadius();
    if g.consensusRadius > g.nodesPerEdge && n > 2 * r + 1 {
      assert CircularDistance(Clockwise(home, r + 1, n), home, n) == r + 1;
    }
  }

  // A node whose record carries no status never checks out.
  lemma NoStatusDoesNotCheckOut(g: ShardGlobals, home: int, nodes: seq<Node>)
    requires ActiveNodes(g, nodes) && 0 <= home < |nodes| && !nodes[home].active
    ensures !ChecksOut(g, home, nodes)
  {
    assert !StatusFits(g, CircularDistance(home, home, |nodes|), nodes[home].active);
  }

  // The one-pass lists as duplicate-free sets.
  lemma CombinedLists(g: ShardGlobals, home: int, nodes: seq<Node>)
    requires ActiveNodes(g, nodes) && 0 <= home < |nodes|
    ensures
      var c, n := CollectAlong(Scan(g, home), home, g.StoreRadius(), g.consensusRadius, nodes), |nodes|;
      && Lists(nodes, c.nodeThatStoreOurPartition, Others(home, Near(home, g.StoreRadius(), n)))
      && Lists(nodes, c.nodeThatStoreOurPartitionFull, Near(home, g.StoreRadius(), n))
      && Lists(nodes, c.consensusNodeForOurNode, Others(home, Near(home, g.consensusRadius, n)))
      && Lists(nodes, c.consensusNodeForOurNodeFull, Near(home, g.consensusRadius, n))
      && Lists(nodes, c.edgeNodes, Edge(home, g.StoreRadius(), g.consensusRadius, n))
  {
    var n, r, cr := |nodes|, g.StoreRadius(), g.consensusRadius;
    ScanLists(g, home, nodes, Near(home, r, n));
    ScanLists(g, home, nodes, Others(home, Near(home, r, n)));
    ScanLists(g, home, nodes, Near(home, cr, n));
    ScanLists(g, home, nodes, Others(home, Near(home, cr, n)));
    ScanLists(g, home, nodes, Edge(home, r, cr, n));
  }

  // Selecting from the scan loses nothing that lies within the store radius.
  lemma ScanLists(g: ShardGlobals, home: int, nodes: seq<Node>, want: int -> bool)
    requires ActiveNodes(g, nodes) && 0 <= home < |nodes|
    requires forall i :: 0 <= i < |nodes| && want(i) ==> CircularDistance(i, home, |nodes|) <= g.StoreRadius()
    ensures Lists(nodes, Pick(nodes, Select(Scan(g, home), want)), want)
  {
    var scan, n := Scan(g, home), |nodes|;
    ScanIsStoreBall(g, home, home);
    RunDistinct(ScanStart(g, home), ScanLength(g), n);
    SelectElements(scan, want);
    SelectDistinct(scan, want);
    forall i | 0 <= i < n && want(i)
      ensures i in scan
    {
      ScanIsStoreBall(g, home, i);
    }
    PickLists(g, nodes, Select(scan, want), i => 0 <= i < n && want(i));
  }
}
