/** The older two-way store scan and neighbour scan (src/ShardFunctions.ts:1553-1641, 1729-1794), and
    their agreement with the one-pass scan, which the built-in cross-check (684-738) intends. */
module OlderScans {
  import opened Basics
  import opened ShardGeometry
  import opened PartitionRange
  import opened NodeScan

  // `order` lists, once each, exactly the indices other than home (or including it) within the radius.
  ghost predicate ListsBall(order: seq<int>, home: int, radius: int, n: int, includeHome: bool) {
    && Distinct(order)
    && (forall i :: i in order <==>
          0 <= i < n && (includeHome || i != home) && CircularDistance(i, home, n) <= radius)
  }

  // The indices 1, 2, ..., count steps to the right (left) of home.
  ghost function RightOf(home: int, count: int, n: int): seq<int>
    requires 0 <= count
  {
    seq(count, k => Clockwise(home, k + 1, n))
  }

  ghost function LeftOf(home: int, count: int, n: int): seq<int>
    requires 0 <= count
  {
    seq(count, k => CounterClockwise(home, k + 1, n))
  }

  lemma FullCircle(home: int, radius: int, n: int)
    requires 0 <= home < n <= 2 * radius + 1
    ensures ListsBall(RightOf(home, n - 1, n), home, radius, n, false)
  {
    var order := RightOf(home, n - 1, n);
    forall i | 0 <= i < n
      ensures CircularDistance(i, home, n) <= radius && (i != home ==> i in order)
    {
      var k := if home <= i then i - home else i - home + n;
      assert Clockwise(home, k, n) == i;
      if k > 0 { assert order[k - 1] == i; }
    }
  }

  lemma BothSides(home: int, radius: int, n: int)
    requires 0 <= home < n && 0 <= radius && 2 * radius + 1 < n
    ensures ListsBall(RightOf(home, radius, n) + LeftOf(home, radius, n), home, radius, n, false)
  {
    var right, left := RightOf(home, radius, n), LeftOf(home, radius, n);
    assert Distinct(right) && Distinct(left);
    forall i, j | 0 <= i < radius && 0 <= j < radius
      ensures right[i] != left[j]
    {
      SidesApart(home, i + 1, j + 1, n);
    }
    forall i
      ensures i in right + left <==> 0 <= i < n && i != home && CircularDistance(i, home, n) <= radius
    {
      OnOneSide(home, radius, n, i);
    }
  }

  lemma SidesApart(home: int, i: int, j: int, n: int)
    requires 0 <= home < n && 0 < i && 0 < j && i + j < n
    ensures Clockwise(home, i, n) != CounterClockwise(home, j, n)
  {
  }

  lemma OnOneSide(home: int, radius: int, n: int, i: int)
    requires 0 <= home < n && 0 <= radius && 2 * radius + 1 < n
    ensures i in RightOf(home, radius, n) || i in LeftOf(home, radius, n)
      <==> 0 <= i < n && i != home && CircularDistance(i, home, n) <= radius
  {
    var right, left := RightOf(home, radius, n), LeftOf(home, radius, n);
    if 0 <= i < n && i != home && CircularDistance(i, home, n) <= radius {
      var k := if home <= i then i - home else i - home + n;
      if k <= radius {
        assert right[k - 1] == i;
      } else {
        assert left[n - k - 1] == i;
      }
    }
  }

  // Does node `index` store the home partition? The source caches the range on the node.
  method Stores(g: ShardGlobals, index: int, homePartition: int) returns (stores: bool)
    requires g.Valid() && 0 <= index < g.numPartitions && 0 <= homePartition < g.numPartitions
    ensures stores <==> CircularDistance(homePartition, index, g.numPartitions) <= g.StoreRadius()
  {
    var range, _ := CalculateStoredPartitions2(g, index);
    RangeTestsAgree(g, index, g.StoreRadius(), range);
    stores := TestInRange(homePartition, range);
  }

  // The nodes 1, 2, ..., count steps to the right (left).
  ghost function RightNodes(nodes: seq<Node>, home: int, count: int): seq<Node>
    requires 0 <= home < |nodes| && 0 <= count < |nodes|
  {
    if count == 0 then [] else RightNodes(nodes, home, count - 1) + [nodes[Clockwise(home, count, |nodes|)]]
  }

  ghost function LeftNodes(nodes: seq<Node>, home: int, count: int): seq<Node>
    requires 0 <= home < |nodes| && 0 <= count < |nodes|
  {
    if count == 0 then [] else LeftNodes(nodes, home, count - 1) + [nodes[CounterClockwise(home, count, |nodes|)]]
  }

  lemma PickSnoc(nodes: seq<Node>, indices: seq<int>, i: int)
    requires 0 <= i < |nodes|
    ensures Pick(nodes, indices + [i]) == Pick(nodes, indices) + [nodes[i]]
  {
    assert (indices + [i])[..|indices|] == indices;
  }

  lemma {:induction false} RightNodesArePicked(nodes: seq<Node>, home: int, count: int)
    requires 0 <= home < |nodes| && 0 <= count < |nodes|
    ensures RightNodes(nodes, home, count) == Pick(nodes, RightOf(home, count, |nodes|))
  {
    if count > 0 {
      var next := Clockwise(home, count, |nodes|);
      RightNodesArePicked(nodes, home, count - 1);
      assert RightOf(home, count, |nodes|) == RightOf(home, count - 1, |nodes|) + [next];
      PickSnoc(nodes, RightOf(home, count - 1, |nodes|), next);
    }
  }

  lemma {:induction false} LeftNodesArePicked(nodes: seq<Node>, home: int, count: int)
    requires 0 <= home < |nodes| && 0 <= count < |nodes|
    ensures LeftNodes(nodes, home, count) == Pick(nodes, LeftOf(home, count, |nodes|))
  {
    if count > 0 {
      var next := CounterClockwise(home, count, |nodes|);
      LeftNodesArePicked(nodes, home, count - 1);
      assert LeftOf(home, count, |nodes|) == LeftOf(home, count - 1, |nodes|) + [next];
      PickSnoc(nodes, LeftOf(home, count - 1, |nodes|), next);
    }
  }

  lemma DistanceOfSteps(home: int, steps: int, n: int)
    requires 0 <= home < n && 0 < steps < n
    ensures Clockwise(home, steps, n) != home
    ensures CircularDistance(home, Clockwise(home, steps, n), n) == Min(steps, n - steps)
    ensures CounterClockwise(home, steps, n) != home
    ensures CircularDistance(home, CounterClockwise(home, steps, n), n) == Min(steps, n - steps)
  {
  }

  lemma BackAtStart(home: int, steps: int, n: int)
    requires 0 <= home < n && 0 <= steps < n
    requires home == Clockwise(home, steps, n) + 1 || (home == 0 && Clockwise(home, steps, n) + 1 == n)
    ensures steps == n - 1
  {
  }

  // The scan to the right collects the next `count` nodes; it stops at a node that does not store the
  // home partition, or (wrapped) back at the start, where the source returns at once.
  method SearchRight(g: ShardGlobals, home: int, nodes: seq<Node>) returns (results: seq<Node>, wrapped: bool)
    requires g.Valid() && |nodes| == g.numPartitions && 0 <= home < |nodes|
    requires forall k :: 0 <= k < |nodes| && nodes[k] == nodes[home] ==> k == home
    ensures wrapped <==> |nodes| <= 2 * g.StoreRadius() + 1
    ensures results == RightNodes(nodes, home, if wrapped then |nodes| - 1 else g.StoreRadius())
  {
    results := [];
    ghost var count := 0;
    var n := |nodes|;
    var index, once := home, false;
    while true
      invariant 0 <= count < n && (!once ==> index == home && count == 0)
      invariant once ==> index == Clockwise(home, count, n) + 1
      invariant results == RightNodes(nodes, home, count)
      invariant count <= g.StoreRadius() || n <= 2 * g.StoreRadius() + 1
      decreases if once then 0 else 1, n - count
    {
      if index >= n {
        index := 0;
      }
      if home == index && once {
        BackAtStart(home, count, n);
        return results, true;
      }
      once := true;
      var node := nodes[index];
      index := index + 1;
      if node == nodes[home] {
        continue;
      }
      DistanceOfSteps(home, count + 1, n);
      var stores := Stores(g, index - 1, home);
      if !stores {
        assert count == g.StoreRadius();
        return results, false;
      }
      results := results + [node];
      count := count + 1;
    }
  }

  // The scan to the left has no wrap test: it ends because some node does not store the home partition.
  method SearchLeft(g: ShardGlobals, home: int, nodes: seq<Node>) returns (results: seq<Node>)
    requires g.Valid() && |nodes| == g.numPartitions && 0 <= home < |nodes| && 2 * g.StoreRadius() + 1 < |nodes|
    requires forall k :: 0 <= k < |nodes| && nodes[k] == nodes[home] ==> k == home
    ensures results == LeftNodes(nodes, home, g.StoreRadius())
  {
    results := [];
    var n := |nodes|;
    var index, once := home, false;
    ghost var count := 0;
    while true
      invariant 0 <= count <= g.StoreRadius() && (!once ==> index == home && count == 0)
      invariant once ==> index == CounterClockwise(home, count, n) - 1
      invariant results == LeftNodes(nodes, home, count)
      decreases if once then 0 else 1, n - count
    {
      if index < 0 {
        index := n - 1;
      }
      var node := nodes[index];
      index := index - 1;
      once := true;
      if node == nodes[home] {
        continue;
      }
      DistanceOfSteps(home, count + 1, n);
      var stores := Stores(g, index + 1, home);
      if !stores {
        return results;
      }
      results := results + [node];
      count := count + 1;
    }
  }

  // Both unbounded loops end, and the result lists each node that stores the home partition once.
  method GetNodesThatCoverHomePartition(g: ShardGlobals, home: int, nodes: seq<Node>)
    returns (results: seq<Node>)
    requires ActiveNodes(g, nodes) && 0 <= home < |nodes|
    ensures exists order :: results == Pick(nodes, order) && ListsBall(order, home, g.StoreRadius(), |nodes|, false)
  {
    ghost var r, n := g.StoreRadius(), |nodes|;
    var right, wrapped := SearchRight(g, home, nodes);
    RightNodesArePicked(nodes, home, if wrapped then n - 1 else r);
    if wrapped {
      FullCircle(home, r, n);
      return right;
    }
    var left := SearchLeft(g, home, nodes);
    LeftNodesArePicked(nodes, home, r);
    BothSides(home, r, n);
    PickConcat(nodes, RightOf(home, r, n), LeftOf(home, r, n));
    return right + left;
  }

  lemma {:induction false} PickConcat(nodes: seq<Node>, a: seq<int>, b: seq<int>)
    ensures Pick(nodes, a + b) == Pick(nodes, a) + Pick(nodes, b)
  {
    if b == [] {
      assert a + b == a;
    } else {
      var front, last := b[..|b| - 1], b[|b| - 1];
      assert (a + b)[..|a + b| - 1] == a + front;
      PickConcat(nodes, a, front);
    }
  }

  // ----- the neighbour scan -----

  // Where the neighbour scan starts and how many indices it is to visit: every index, or the window.
  function WindowStart(position: int, radius: int, n: int): int
    requires 0 <= position < n && 0 <= radius
  {
    if 2 * radius + 1 >= n then 0 else CounterClockwise(position, radius, n)
  }

  ghost function NeighborOrder(position: int, radius: int, n: int): seq<int>
    requires 0 <= position < n && 0 <= radius
  {
    Run(WindowStart(position, radius, n), Min(n, 2 * radius + 1), n)
  }

  lemma NeighborOrderIsBall(position: int, radius: int, n: int)
    requires 0 <= position < n && 0 <= radius
    ensures ListsBall(NeighborOrder(position, radius, n), position, radius, n, true)
  {
    var start, length := WindowStart(position, radius, n), Min(n, 2 * radius + 1);
    RunDistinct(start, length, n);
    forall i | 0 <= i < n
      ensures i in Run(start, length, n) <==> CircularDistance(i, position, n) <= radius
    {
      InRun(start, length, n, i);
    }
  }

  // The indices that are not excluded, and those of them whose node is active.
  function Allowed(allNodes: seq<Node>, exclude: seq<nat>): int -> bool {
    i => 0 <= i < |allNodes| && allNodes[i].id !in exclude
  }

  function Kept(allNodes: seq<Node>, exclude: seq<nat>): int -> bool {
    i => 0 <= i < |allNodes| && allNodes[i].id !in exclude && allNodes[i].active
  }

  // The window's loop stops at the expected number of nodes, which it compares after each allowed one.
  function Cut(kept: seq<Node>, allowed: seq<Node>, expected: int): seq<Node> {
    if expected >= 1 then kept[..Min(|kept|, expected)]
    else if allowed != [] && allowed[0].active then [allowed[0]]
    else []
  }

  // Along a run of indices: the active nodes that are not excluded, cut off where the window's loop stops.
  ghost function CutAlong(allNodes: seq<Node>, start: int, length: int, exclude: seq<nat>): seq<Node>
    requires 0 <= length
  {
    var order := Run(start, length, |allNodes|);
    Cut(
      Pick(allNodes, Select(order, Kept(allNodes, exclude))),
      Pick(allNodes, Select(order, Allowed(allNodes, exclude))), length - |exclude|)
  }

  // What the neighbour scan returns: only the window is cut off.
  ghost function Neighbors(position: int, radius: int, exclude: seq<nat>, allNodes: seq<Node>): seq<Node>
    requires 0 <= position < |allNodes| && 0 <= radius
  {
    if 2 * radius + 1 >= |allNodes| then
      Pick(allNodes, Select(Run(0, |allNodes|, |allNodes|), Kept(allNodes, exclude)))
    else
      CutAlong(allNodes, WindowStart(position, radius, |allNodes|), 2 * radius + 1, exclude)
  }

  lemma VisitedIsCut(allNodes: seq<Node>, start: int, length: int, exclude: seq<nat>)
    requires 0 <= start < |allNodes| && 0 <= length <= |allNodes|
    ensures CutAlong(allNodes, start, length, exclude) == Cut(
      Visited(allNodes, start, length, Kept(allNodes, exclude)),
      Visited(allNodes, start, length, Allowed(allNodes, exclude)), length - |exclude|)
  {
    VisitedIsSelected(allNodes, start, length, Kept(allNodes, exclude));
    VisitedIsSelected(allNodes, start, length, Allowed(allNodes, exclude));
  }

  // For any list of ids to exclude and any statuses.
  method GetNeigborNodesInRange(position: int, radius: int, exclude: seq<nat>, allNodes: seq<Node>)
    returns (results: seq<Node>)
    requires 0 <= position < |allNodes| && 0 <= radius
    ensures results == Neighbors(position, radius, exclude, allNodes)
  {
    results := [];
    var n := |allNodes|;
    var scanStart := ScanFrom(position, radius, n);
    var scanAmount := radius * 2 + 1;
    var expectedNodes := Min(n - |exclude|, scanAmount - |exclude|);
    if scanAmount >= n {
      results := ScanAll(exclude, allNodes);
      return;
    }
    results := ScanWindow(scanStart, scanAmount, expectedNodes, exclude, allNodes);
    VisitedIsCut(allNodes, scanStart, scanAmount, exclude);
  }

  method ScanFrom(position: int, radius: int, n: int) returns (scanStart: int)
    requires 0 <= position < n && 0 <= radius
    ensures 0 <= scanStart < n && (2 * radius + 1 < n ==> scanStart == WindowStart(position, radius, n))
  {
    scanStart := position - radius;
    if scanStart < 0 {
      scanStart := n + scanStart;
      // Back to the first index if the radius exceeds the ring.
      if scanStart < 0 {
        scanStart := 0;
      }
    }
  }

  // The simple loop over every node.
  method ScanAll(exclude: seq<nat>, allNodes: seq<Node>) returns (results: seq<Node>)
    requires allNodes != []
    ensures results == Pick(allNodes, Select(Run(0, |allNodes|, |allNodes|), Kept(allNodes, exclude)))
  {
    results := [];
    VisitedIsSelected(allNodes, 0, |allNodes|, Kept(allNodes, exclude));
    for i := 0 to |allNodes|
      invariant results == Visited(allNodes, 0, i, Kept(allNodes, exclude))
    {
      var node := allNodes[i];
      if node.id in exclude {
        continue;
      }
      if node.active {
        results := results + [node];
      }
    }
  }

  // The loop over the window around the position; neither its exit on a full count of indices nor the one on
  // meeting the start again is reached.
  method ScanWindow(
    scanStart: int, scanAmount: int, expectedNodes: int, exclude: seq<nat>, allNodes: seq<Node>)
    returns (results: seq<Node>)
    requires 0 <= scanStart < |allNodes| && 0 <= scanAmount < |allNodes|
    ensures results == Cut(
      Visited(allNodes, scanStart, scanAmount, Kept(allNodes, exclude)),
      Visited(allNodes, scanStart, scanAmount, Allowed(allNodes, exclude)), expectedNodes)
  {
    results := [];
    ghost var kept, allowed := Kept(allNodes, exclude), Allowed(allNodes, exclude);
    var n, scanCount, scanIndex := |allNodes|, 0, scanStart;
    for i := 0 to scanAmount
      invariant scanCount == i && scanIndex == (if i == 0 then scanStart else Clockwise(scanStart, i - 1, n) + 1)
      invariant results == Visited(allNodes, scanStart, i, kept)
      invariant expectedNodes >= 1 ==> |results| < expectedNodes
      invariant expectedNodes <= 0 ==> results == [] == Visited(allNodes, scanStart, i, allowed)
    {
      scanCount := scanCount + 1;
      if scanCount >= n {
        break;
      }
      if scanIndex >= n {
        scanIndex := 0;
      }
      NextInWindow(scanStart, i, n);
      VisitedGrows(allNodes, scanStart, i + 1, scanAmount, kept);
      VisitedGrows(allNodes, scanStart, i + 1, scanAmount, allowed);
      var node := allNodes[scanIndex];
      if node.id in exclude {
        scanIndex := scanIndex + 1;
        continue;
      }
      if node.active {
        results := results + [node];
      }
      scanIndex := scanIndex + 1;
      if scanIndex == scanStart {
        break;
      }
      if |results| >= expectedNodes {
        CutEarly(
          results, node, Visited(allNodes, scanStart, scanAmount, kept),
          Visited(allNodes, scanStart, scanAmount, allowed), expectedNodes);
        break;
      }
    }
  }

  lemma CutEarly(results: seq<Node>, node: Node, kept: seq<Node>, allowed: seq<Node>, expected: int)
    requires results <= kept
    requires expected >= 1 ==> |results| == expected
    requires expected <= 0 ==> [node] <= allowed && results == if node.active then [node] else []
    ensures results == Cut(kept, allowed, expected)
  {
  }

  lemma NextInWindow(start: int, i: int, n: int)
    requires 0 <= start < n && 0 <= i < n - 1
    ensures i > 0 ==> var p := Clockwise(start, i - 1, n) + 1; Clockwise(start, i, n) == if p >= n then 0 else p
    ensures Clockwise(start, i, n) + 1 != start
  {
  }

  // The nodes kept along the first `count` indices from `start`.
  ghost function Visited(allNodes: seq<Node>, start: int, count: int, keep: int -> bool): seq<Node>
    requires 0 <= start < |allNodes| && 0 <= count <= |allNodes|
  {
    if count == 0 then [] else
      var x := Clockwise(start, count - 1, |allNodes|);
      Visited(allNodes, start, count - 1, keep) + (if keep(x) then [allNodes[x]] else [])
  }

  lemma {:induction false} VisitedGrows(allNodes: seq<Node>, start: int, count: int, later: int, keep: int -> bool)
    requires 0 <= start < |allNodes| && 0 <= count <= later <= |allNodes|
    ensures Visited(allNodes, start, count, keep) <= Visited(allNodes, start, later, keep)
  {
    if count < later {
      VisitedGrows(allNodes, start, count, later - 1, keep);
    }
  }

  lemma {:induction false} VisitedIsSelected(allNodes: seq<Node>, start: int, count: int, keep: int -> bool)
    requires 0 <= start < |allNodes| && 0 <= count <= |allNodes|
    ensures Visited(allNodes, start, count, keep)
         == Pick(allNodes, Select(Run(start, count, |allNodes|), keep))
  {
    if count > 0 {
      var front, x := Run(start, count - 1, |allNodes|), Clockwise(start, count - 1, |allNodes|);
      VisitedIsSelected(allNodes, start, count - 1, keep);
      assert Run(start, count, |allNodes|) == front + [x];
      SelectPick(allNodes, front, x, keep);
    }
  }

  // Of a window the scan returns the active nodes that are not excluded, no more than the window's size less the
  // number of excluded ids; where that is not positive, the first node that is not excluded, if it is active.
  lemma NeighborsAre(position: int, radius: int, exclude: seq<nat>, allNodes: seq<Node>)
    requires 0 <= position < |allNodes| && 0 <= radius
    ensures
      var neighbors := Neighbors(position, radius, exclude, allNodes);
      var order := NeighborOrder(position, radius, |allNodes|);
      var active := Pick(allNodes, Select(order, Kept(allNodes, exclude)));
      var allowed := Pick(allNodes, Select(order, Allowed(allNodes, exclude)));
      && (|allNodes| <= 2 * radius + 1 ==> neighbors == active)
      && (|exclude| < 2 * radius + 1 < |allNodes| ==>
            neighbors <= active && |neighbors| == Min(|active|, 2 * radius + 1 - |exclude|))
      && (2 * radius + 1 <= |exclude| && 2 * radius + 1 < |allNodes| ==>
            neighbors == if allowed != [] && allowed[0].active then allowed[..1] else [])
  {
  }

  // ----- the lists the source excludes -----

  lemma {:induction false} SelectShorter(xs: seq<int>, keep: int -> bool)
    ensures |Select(xs, keep)| <= |xs|
    ensures (exists x :: x in xs && !keep(x)) ==> |Select(xs, keep)| < |xs|
  {
    if xs != [] {
      SelectShorter(xs[..|xs| - 1], keep);
      assert xs == xs[..|xs| - 1] + [xs[|xs| - 1]];
    }
  }

  lemma {:induction false} PickShorter(nodes: seq<Node>, indices: seq<int>)
    ensures |Pick(nodes, indices)| <= |indices|
  {
    if indices != [] {
      PickShorter(nodes, indices[..|indices| - 1]);
    }
  }

  lemma NoMoreThanExpected(
    order: seq<int>, position: int, exclude: seq<nat>, allNodes: seq<Node>, keep: int -> bool)
    requires |exclude| <= 1 && position in order && (exclude != [] ==> !keep(position))
    ensures |Pick(allNodes, Select(order, keep))| <= |order| - |exclude|
  {
    SelectShorter(order, keep);
    PickShorter(allNodes, Select(order, keep));
  }

  lemma NothingIsCutAlong(allNodes: seq<Node>, start: int, length: int, exclude: seq<nat>, position: int)
    requires 0 <= position < |allNodes| && 0 <= length && position in Run(start, length, |allNodes|)
    requires exclude == [] || exclude == [allNodes[position].id]
    ensures CutAlong(allNodes, start, length, exclude) ==
      Pick(allNodes, Select(Run(start, length, |allNodes|), Kept(allNodes, exclude)))
  {
    var order := Run(start, length, |allNodes|);
    NoMoreThanExpected(order, position, exclude, allNodes, Kept(allNodes, exclude));
    NoMoreThanExpected(order, position, exclude, allNodes, Allowed(allNodes, exclude));
  }

  // Whether the position's own node is excluded or nothing is, the loop over the window cuts nothing off.
  lemma NothingIsCut(position: int, radius: int, exclude: seq<nat>, allNodes: seq<Node>)
    requires 0 <= position < |allNodes| && 0 <= radius
    requires exclude == [] || exclude == [allNodes[position].id]
    ensures Neighbors(position, radius, exclude, allNodes) ==
      Pick(allNodes, Select(NeighborOrder(position, radius, |allNodes|), Kept(allNodes, exclude)))
  {
    NeighborOrderIsBall(position, radius, |allNodes|);
    assert position in NeighborOrder(position, radius, |allNodes|);
    if 2 * radius + 1 < |allNodes| {
      NothingIsCutAlong(allNodes, WindowStart(position, radius, |allNodes|), 2 * radius + 1, exclude, position);
    }
  }
}
