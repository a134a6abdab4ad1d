/** Subscription groups of consensus-radius size (src/Data/Data.ts:501-511, 710-734). */
module SubscriptionGroups {
  import opened Basics
  import opened ShardGeometry
  import opened NodeScan
  import opened ShardCoverage

  // activeList.slice(k * radius, k * radius + radius)
  function GroupAt(activeList: seq<Node>, k: int, radius: int): seq<Node> {
    var i := k * radius;
    if 0 <= i <= |activeList| && 0 <= radius then activeList[i..Min(i + radius, |activeList|)] else []
  }

  // The number of groups: ceil(count / radius).
  ghost predicate Rounds(count: int, radius: int, rounds: int) {
    0 <= rounds && count <= rounds * radius < count + radius
  }

  // Consecutive slices of the active list, keyed by round; a radius of 0 leaves the groups as they were.
  method CreateNodesGroupByConsensusRadius(activeList: seq<Node>, consensusRadius: nat, before: map<int, seq<Node>>)
    returns (groups: map<int, seq<Node>>, ghost rounds: int)
    ensures consensusRadius == 0 ==> groups == before
    ensures consensusRadius > 0 ==>
      && Rounds(|activeList|, consensusRadius, rounds)
      && (forall k :: k in groups <==> 0 <= k < rounds)
      && (forall k :: 0 <= k < rounds ==> groups[k] == GroupAt(activeList, k, consensusRadius))
  {
    groups, rounds := before, 0;
    if consensusRadius == 0 {
      return;
    }
    groups := map[];
    var round, i := 0, 0;
    while i < |activeList|
      invariant i == round * consensusRadius && 0 <= round && i < |activeList| + consensusRadius
      invariant forall k :: k in groups <==> 0 <= k < round
      invariant forall k :: 0 <= k < round ==> groups[k] == GroupAt(activeList, k, consensusRadius)
    {
      groups := groups[round := activeList[i..Min(i + consensusRadius, |activeList|)]];
      assert (round + 1) * consensusRadius == i + consensusRadius;
      round := round + 1;
      i := i + consensusRadius;
    }
    rounds := round;
  }

  // floor(index / radius) always names the one group that holds that active node.
  lemma GroupOfNode(activeList: seq<Node>, radius: int, rounds: int, i: int)
    requires 0 < radius && 0 <= i < |activeList| && Rounds(|activeList|, radius, rounds)
    ensures
      var k := i / radius;
      var group := GroupAt(activeList, k, radius);
      0 <= k < rounds && 0 <= i - k * radius < |group| && group[i - k * radius] == activeList[i]
  {
    var k := i / radius;
    QuotientBounds(i, radius);
    assert k >= rounds ==> k * radius >= rounds * radius;
  }

  // Every group is non-empty and has at most `radius` nodes.
  lemma GroupSize(activeList: seq<Node>, radius: int, rounds: int, k: int)
    requires 0 < radius && 0 <= k < rounds && Rounds(|activeList|, radius, rounds)
    ensures 0 <= k * radius < |activeList| && 1 <= |GroupAt(activeList, k, radius)| <= radius
  {
    assert (rounds - 1) * radius == rounds * radius - radius;
    assert k * radius <= (rounds - 1) * radius;
  }

  // A node sits in no other group than the one its index names.
  lemma GroupMember(activeList: seq<Node>, radius: int, rounds: int, k: int, j: int)
    requires 0 < radius && 0 <= k < rounds && Rounds(|activeList|, radius, rounds)
    requires 0 <= j < |GroupAt(activeList, k, radius)|
    ensures 0 <= k * radius + j < |activeList| && GroupAt(activeList, k, radius)[j] == activeList[k * radius + j]
    ensures (k * radius + j) / radius == k
  {
    GroupSize(activeList, radius, rounds, k);
    DivideExactly(k * radius + j, radius, k, j);
  }

  lemma DivideExactly(x: int, radius: int, k: int, j: int)
    requires 0 <= j < radius && x == k * radius + j
    ensures x / radius == k
  {
    var d := x / radius - k;
    assert x == (x / radius) * radius + x % radius;
    assert d * radius == j - x % radius;
    assert d >= 1 ==> d * radius >= radius;
    assert d <= -1 ==> d * radius <= -radius;
  }

  ghost predicate HasSubscriber(subscribed: set<int>, k: int, radius: int)
    requires 0 < radius
  {
    exists i :: i in subscribed && i / radius == k
  }

  // Whatever one node of each group is subscribed, every partition has a subscribed node that covers it.
  lemma EveryPartitionIsCovered(g: ShardGlobals, nodes: seq<Node>, rounds: int, subscribed: set<int>, p: int)
    requires ActiveNodes(g, nodes) && 0 <= p < |nodes| && Rounds(|nodes|, g.consensusRadius, rounds)
    requires forall i :: i in subscribed ==> 0 <= i < |nodes|
    requires forall k :: 0 <= k < rounds ==> HasSubscriber(subscribed, k, g.consensusRadius)
    ensures exists i :: i in subscribed && nodes[i].id in CoverSet(g, nodes, p, |nodes|)
  {
    var r := g.consensusRadius;
    GroupOfNode(nodes, r, rounds, p);
    assert HasSubscriber(subscribed, p / r, r);
    var i :| i in subscribed && i / r == p / r;
    QuotientBounds(i, r);
    QuotientBounds(p, r);
    assert Covers(g, i, p);
  }
}
