/** The signature quorum of the non-global branch of verifyReceiptData (src/Data/Collector.ts:551-616). */
module ReceiptQuorum {
  import opened Basics
  import opened ShardGeometry
  import opened NodeScan
  import opened ShardCoverage

  // votingGroupCount: nodesPerConsenusGroup, capped at the number of nodes.
  function VotingGroupCount(g: ShardGlobals): int {
    if g.nodesPerConsenusGroup > g.numPartitions then g.numPartitions else g.nodesPerConsenusGroup
  }

  // requiredVotesPercentage is 2/3; usePOQo rounds up, otherwise to the nearest integer.
  function RequiredSignatures(usePOQo: bool, group: int): int {
    if usePOQo then (2 * group + 2) / 3 else (4 * group + 3) / 6
  }

  // nodes.find by public key; the first match, or undefined.
  function FindByKey(nodes: seq<Node>, key: nat): (i: int)
    ensures -1 <= i < |nodes|
    ensures i >= 0 ==> nodes[i].publicKey == key && forall k :: 0 <= k < i ==> nodes[k].publicKey != key
    ensures i == -1 ==> forall k :: 0 <= k < |nodes| ==> nodes[k].publicKey != key
  {
    if nodes == [] then -1
    else if nodes[0].publicKey == key then 0
    else var i := FindByKey(nodes[1..], key); if i < 0 then -1 else i + 1
  }

  // A signature counts when its owner is an active node that covers the home partition.
  predicate Counts(nodes: seq<Node>, coveredBy: set<nat>, owner: nat) {
    var i := FindByKey(nodes, owner);
    i >= 0 && nodes[i].id in coveredBy
  }

  function Signers(nodes: seq<Node>, coveredBy: set<nat>, pack: seq<nat>): set<nat> {
    set owner | owner in pack && Counts(nodes, coveredBy, owner)
  }

  // coveredBy of a partition; past the rounding slack a home partition can lie outside the table.
  ghost function CoveredAt(data: CycleShardData, homePartition: int): set<nat>
    reads data
  {
    if homePartition in data.coveredBy then data.coveredBy[homePartition] else {}
  }

  // `data` is shardValuesByCycle.get(cycle): null when the cycle has no shard data. Looking up the coveredBy of
  // a partition outside the table throws, once some owner is an active node. With POQo two thirds of the group
  // have to sign; without it, the integer nearest to that, and the greater of two.
  method VerifySignaturePack(data: CycleShardData?, homePartition: int, pack: seq<nat>, usePOQo: bool)
    returns (success: bool, requiredSignatures: int, thrown: bool)
    requires data != null ==> data.Valid()
    ensures success <==>
      && data != null && !thrown
      && |Signers(data.nodes, CoveredAt(data, homePartition), pack)|
           >= RequiredSignatures(usePOQo, VotingGroupCount(data.g))
    ensures thrown <==>
      && data != null && homePartition !in data.coveredBy
      && |pack| >= RequiredSignatures(usePOQo, VotingGroupCount(data.g))
      && exists k :: 0 <= k < |pack| && FindByKey(data.nodes, pack[k]) >= 0
    ensures success ==> requiredSignatures == RequiredSignatures(usePOQo, VotingGroupCount(data.g))
    ensures data != null && !thrown ==>
      var group := Min(data.g.nodesPerConsenusGroup, |data.nodes|);
      var signers := |Signers(data.nodes, CoveredAt(data, homePartition), pack)|;
      success <==> if usePOQo then 3 * signers >= 2 * group else 6 * signers + 3 > 4 * group
    ensures success ==>
      var group := Min(data.g.nodesPerConsenusGroup, |data.nodes|);
      if usePOQo then 3 * (requiredSignatures - 1) < 2 * group <= 3 * requiredSignatures
      else 6 * (requiredSignatures - 1) + 3 <= 4 * group < 6 * requiredSignatures + 3
  {
    success, requiredSignatures, thrown := false, 0, false;
    if data == null {
      return;
    }
    var votingGroupCount := data.g.nodesPerConsenusGroup;
    if votingGroupCount > |data.nodes| {
      votingGroupCount := |data.nodes|;
    }
    requiredSignatures := RequiredSignatures(usePOQo, votingGroupCount);
    ghost var coveredBy := CoveredAt(data, homePartition);
    if |pack| < requiredSignatures {
      AtMostPackSize(data.nodes, coveredBy, pack);
      return;
    }
    var uniqueSigners: set<nat> := {};
    for k := 0 to |pack|
      invariant uniqueSigners == Signers(data.nodes, coveredBy, pack[..k])
      invariant homePartition !in data.coveredBy ==>
        forall i :: 0 <= i < k ==> FindByKey(data.nodes, pack[i]) < 0
    {
      var nodePubKey := pack[k];
      assert pack[..k + 1] == pack[..k] + [nodePubKey];
      var node := FindByKey(data.nodes, nodePubKey);
      if node < 0 {
        continue;
      }
      if homePartition !in data.coveredBy {
        thrown := true;
        return;
      }
      if data.nodes[node].id !in data.coveredBy[homePartition] {
        continue;
      }
      uniqueSigners := uniqueSigners + {nodePubKey};
    }
    assert pack[..|pack|] == pack;
    success := |uniqueSigners| >= requiredSignatures;
  }

  lemma {:induction false} AtMostPackSize(nodes: seq<Node>, coveredBy: set<nat>, pack: seq<nat>)
    ensures |Signers(nodes, coveredBy, pack)| <= |pack|
  {
    if pack == [] {
      assert Signers(nodes, coveredBy, pack) == {};
    } else {
      var front, last := pack[..|pack| - 1], pack[|pack| - 1];
      AtMostPackSize(nodes, coveredBy, front);
      assert pack == front + [last];
      assert Signers(nodes, coveredBy, pack) <= Signers(nodes, coveredBy, front) + {last};
      SubsetSize(Signers(nodes, coveredBy, pack), Signers(nodes, coveredBy, front) + {last});
    }
  }

  lemma {:induction false} SubsetSize<T>(a: set<T>, b: set<T>)
    requires a <= b
    ensures |a| <= |b|
    decreases b
  {
    if a != {} {
      var x :| x in a;
      SubsetSize(a - {x}, b - {x});
    }
  }

  // The keys that can count at all: one per covering node.
  ghost function CoveringKeys(nodes: seq<Node>, coveredBy: set<nat>): set<nat> {
    set i | 0 <= i < |nodes| && nodes[i].id in coveredBy :: nodes[i].publicKey
  }

  // At most as many keys as covering ids: the node found for a key has its own id.
  lemma {:induction false} CoveringKeysSize(nodes: seq<Node>, coveredBy: set<nat>)
    requires forall i, j :: 0 <= i < j < |nodes| ==> nodes[i].id != nodes[j].id
    ensures |CoveringKeys(nodes, coveredBy)| <= |coveredBy|
  {
    if nodes == [] {
      assert CoveringKeys(nodes, coveredBy) == {};
    } else {
      var front, last := nodes[..|nodes| - 1], nodes[|nodes| - 1];
      CoveringKeysSize(front, coveredBy - {last.id});
      var keys, rest := CoveringKeys(nodes, coveredBy), CoveringKeys(front, coveredBy - {last.id});
      if last.id in coveredBy {
        assert keys <= rest + {last.publicKey};
        SubsetSize(keys, rest + {last.publicKey});
      } else {
        assert keys <= rest;
        SubsetSize(keys, rest);
      }
    }
  }

  lemma {:induction false} IntersectionSize<T>(a: set<T>, b: set<T>, whole: set<T>)
    requires a <= whole && b <= whole
    ensures |a * b| >= |a| + |b| - |whole|
  {
    SubsetSize(a + b, whole);
    assert |a + b| == |a| + |b| - |a * b|;
  }

  // Two packs accepted for the same cycle and home partition share at least this many owners.
  lemma AcceptedPacksOverlap(g: ShardGlobals, nodes: seq<Node>, p: int, pack1: seq<nat>, pack2: seq<nat>, usePOQo: bool)
    requires ActiveNodes(g, nodes) && 0 <= p < |nodes|
    requires |Signers(nodes, CoverSet(g, nodes, p, |nodes|), pack1)| >= RequiredSignatures(usePOQo, VotingGroupCount(g))
    requires |Signers(nodes, CoverSet(g, nodes, p, |nodes|), pack2)| >= RequiredSignatures(usePOQo, VotingGroupCount(g))
    ensures
      var coveredBy, group := CoverSet(g, nodes, p, |nodes|), VotingGroupCount(g);
      var shared := Signers(nodes, coveredBy, pack1) * Signers(nodes, coveredBy, pack2);
      && |shared| >= 2 * RequiredSignatures(usePOQo, group) - CoveringNodes(g)
      && (CoverExact(g) && usePOQo ==> |shared| >= (group + 2) / 3)
      && (CoverExact(g) && !usePOQo ==> |shared| >= group / 3)
  {
    var coveredBy := CoverSet(g, nodes, p, |nodes|);
    var whole := CoveringKeys(nodes, coveredBy);
    CoverCount(g, nodes, p);
    CoveringKeysSize(nodes, coveredBy);
    IntersectionSize(Signers(nodes, coveredBy, pack1), Signers(nodes, coveredBy, pack2), whole);
  }

  // End to end, for the shard data of a cycle: two packs that are accepted for one of its partitions share
  // that many owners.
  method VerifyTwoPacks(g: ShardGlobals, nodes: seq<Node>, homePartition: int,
      pack1: seq<nat>, pack2: seq<nat>, usePOQo: bool)
    returns (data: CycleShardData, success1: bool, success2: bool)
    requires ActiveNodes(g, nodes) && 0 <= homePartition < |nodes|
    ensures fresh(data) && data.g == g && data.nodes == nodes && homePartition in data.coveredBy
    ensures success1 && success2 ==>
      var coveredBy, group := data.coveredBy[homePartition], VotingGroupCount(g);
      var shared := Signers(nodes, coveredBy, pack1) * Signers(nodes, coveredBy, pack2);
      && |shared| >= 2 * RequiredSignatures(usePOQo, group) - CoveringNodes(g)
      && (CoverExact(g) && usePOQo ==> |shared| >= (group + 2) / 3)
      && (CoverExact(g) && !usePOQo ==> |shared| >= group / 3)
  {
    var thrown, required;
    data, thrown := UpdateShardValues(g, nodes);
    success1, required, thrown := VerifySignaturePack(data, homePartition, pack1, usePOQo);
    success2, required, thrown := VerifySignaturePack(data, homePartition, pack2, usePOQo);
    if success1 && success2 {
      AcceptedPacksOverlap(g, nodes, homePartition, pack1, pack2, usePOQo);
    }
  }

  // ----- the bound is tight -----

  lemma {:induction false} SubsetOfSize<T>(a: set<T>, size: nat) returns (b: set<T>)
    requires size <= |a|
    ensures b <= a && |b| == size
    decreases a
  {
    if size == |a| {
      b := a;
    } else {
      var x :| x in a;
      b := SubsetOfSize(a - {x}, size);
    }
  }

  lemma {:induction false} SetAsPack(keys: set<nat>) returns (pack: seq<nat>)
    ensures forall key :: key in pack <==> key in keys
    decreases keys
  {
    if keys == {} {
      pack := [];
    } else {
      var x :| x in keys;
      pack := SetAsPack(keys - {x});
      pack := pack + [x];
    }
  }

  // With distinct ids and public keys there are as many covering keys as covering nodes.
  lemma CoveringKeysExact(nodes: seq<Node>, indices: set<int>)
    requires forall i, j :: 0 <= i < j < |nodes| ==>
      nodes[i].id != nodes[j].id && nodes[i].publicKey != nodes[j].publicKey
    requires forall i :: i in indices ==> 0 <= i < |nodes|
    ensures |CoveringKeys(nodes, set i | i in indices :: nodes[i].id)| == |indices|
  {
    var coveredBy := set i | i in indices :: nodes[i].id;
    var keys := seq(|nodes|, i requires 0 <= i < |nodes| => nodes[i].publicKey);
    ImageSize(keys, indices);
    assert CoveringKeys(nodes, coveredBy) == set i | i in indices :: keys[i];
  }

  lemma CoveringKeysCount(nodes: seq<Node>, coveredBy: set<nat>, keys: set<nat>, pack: seq<nat>)
    requires forall i, j :: 0 <= i < j < |nodes| ==> nodes[i].publicKey != nodes[j].publicKey
    requires keys <= CoveringKeys(nodes, coveredBy)
    requires forall key :: key in pack <==> key in keys
    ensures Signers(nodes, coveredBy, pack) == keys
  {
    forall key | key in keys
      ensures Counts(nodes, coveredBy, key)
    {
      var i :| 0 <= i < |nodes| && nodes[i].id in coveredBy && nodes[i].publicKey == key;
      assert FindByKey(nodes, key) == i;
    }
  }

  // How many nodes cover a partition (see CoverCount).
  function CoveringNodes(g: ShardGlobals): int
    requires g.Valid()
  {
    if CoverExact(g) then VotingGroupCount(g) else g.numPartitions
  }

  lemma TightPacks(g: ShardGlobals, nodes: seq<Node>, p: int, usePOQo: bool) returns (pack1: seq<nat>, pack2: seq<nat>)
    requires ActiveNodes(g, nodes) && 0 <= p < |nodes|
    requires forall i, j :: 0 <= i < j < |nodes| ==> nodes[i].publicKey != nodes[j].publicKey
    ensures
      var coveredBy, required := CoverSet(g, nodes, p, |nodes|), RequiredSignatures(usePOQo, VotingGroupCount(g));
      && |Signers(nodes, coveredBy, pack1)| == |Signers(nodes, coveredBy, pack2)| == required
      && |Signers(nodes, coveredBy, pack1) * Signers(nodes, coveredBy, pack2)| ==
           (if 2 * required <= CoveringNodes(g) then 0 else 2 * required - CoveringNodes(g))
  {
    var coveredBy := CoverSet(g, nodes, p, |nodes|);
    var indices := set i | 0 <= i < |nodes| && Covers(g, i, p);
    CoverCount(g, nodes, p);
    assert coveredBy == set i | i in indices :: nodes[i].id;
    IdCount(nodes, indices);
    CoveringKeysExact(nodes, indices);
    pack1, pack2 := PacksFrom(nodes, coveredBy, RequiredSignatures(usePOQo, VotingGroupCount(g)));
  }

  lemma PacksFrom(nodes: seq<Node>, coveredBy: set<nat>, required: nat) returns (pack1: seq<nat>, pack2: seq<nat>)
    requires forall i, j :: 0 <= i < j < |nodes| ==> nodes[i].publicKey != nodes[j].publicKey
    requires required <= |CoveringKeys(nodes, coveredBy)|
    ensures |Signers(nodes, coveredBy, pack1)| == |Signers(nodes, coveredBy, pack2)| == required
    ensures |Signers(nodes, coveredBy, pack1) * Signers(nodes, coveredBy, pack2)| ==
      var count := |CoveringKeys(nodes, coveredBy)|; if 2 * required <= count then 0 else 2 * required - count
  {
    var a, b := TightSets(CoveringKeys(nodes, coveredBy), required);
    pack1 := SetAsPack(a);
    pack2 := SetAsPack(b);
    CoveringKeysCount(nodes, coveredBy, a, pack1);
    CoveringKeysCount(nodes, coveredBy, b, pack2);
  }

  lemma TightSets(whole: set<nat>, required: nat) returns (a: set<nat>, b: set<nat>)
    requires required <= |whole|
    ensures a <= whole && b <= whole && |a| == |b| == required
    ensures |a * b| == if 2 * required <= |whole| then 0 else 2 * required - |whole|
  {
    a := SubsetOfSize(whole, required);
    if 2 * required <= |whole| {
      b := SubsetOfSize(whole - a, required);
      assert a * b == {};
    } else {
      var common := SubsetOfSize(a, 2 * required - |whole|);
      b := (whole - a) + common;
      assert a * b == common && (whole - a) * common == {};
    }
  }

  ghost predicate Accepted(g: ShardGlobals, nodes: seq<Node>, p: int, usePOQo: bool, pack: seq<nat>)
    requires g.Valid()
  {
    |Signers(nodes, CoverSet(g, nodes, p, |nodes|), pack)| >= RequiredSignatures(usePOQo, VotingGroupCount(g))
  }

  // Any two accepted packs share k > 0 owners exactly when the two quorums overfill the covering nodes by k.
  lemma OverlapGuaranteedExactly(g: ShardGlobals, nodes: seq<Node>, p: int, usePOQo: bool, k: int)
    requires ActiveNodes(g, nodes) && 0 <= p < |nodes| && 0 < k
    requires forall i, j :: 0 <= i < j < |nodes| ==> nodes[i].publicKey != nodes[j].publicKey
    ensures
      var coveredBy := CoverSet(g, nodes, p, |nodes|);
      (forall pack1, pack2 :: Accepted(g, nodes, p, usePOQo, pack1) && Accepted(g, nodes, p, usePOQo, pack2) ==>
         |Signers(nodes, coveredBy, pack1) * Signers(nodes, coveredBy, pack2)| >= k)
      <==> 2 * RequiredSignatures(usePOQo, VotingGroupCount(g)) - CoveringNodes(g) >= k
  {
    var coveredBy := CoverSet(g, nodes, p, |nodes|);
    if 2 * RequiredSignatures(usePOQo, VotingGroupCount(g)) - CoveringNodes(g) >= k {
      forall pack1, pack2 | Accepted(g, nodes, p, usePOQo, pack1) && Accepted(g, nodes, p, usePOQo, pack2)
        ensures |Signers(nodes, coveredBy, pack1) * Signers(nodes, coveredBy, pack2)| >= k
      {
        AcceptedPacksOverlap(g, nodes, p, pack1, pack2, usePOQo);
      }
    } else {
      var pack1, pack2 := TightPacks(g, nodes, p, usePOQo);
      assert Accepted(g, nodes, p, usePOQo, pack1) && Accepted(g, nodes, p, usePOQo, pack2);
    }
  }

  // Without the size condition the quorum can split: with four nodes, group size 3 and edge 2 every node
  // covers every partition, two signatures suffice, and two accepted packs share nobody.
  lemma QuorumCanSplit(nodes: seq<Node>, p: int) returns (pack1: seq<nat>, pack2: seq<nat>)
    requires ActiveNodes(ShardGlobals(4, 3, 1, 2), nodes) && 0 <= p < 4
    requires forall i, j :: 0 <= i < j < |nodes| ==> nodes[i].publicKey != nodes[j].publicKey
    ensures
      var g := ShardGlobals(4, 3, 1, 2);
      var coveredBy := CoverSet(g, nodes, p, 4);
      && Accepted(g, nodes, p, true, pack1) && Accepted(g, nodes, p, true, pack2)
      && |Signers(nodes, coveredBy, pack1) * Signers(nodes, coveredBy, pack2)| == 0
  {
    pack1, pack2 := TightPacks(ShardGlobals(4, 3, 1, 2), nodes, p, true);
  }
}
