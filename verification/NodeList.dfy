/** The node lists (src/NodeList.ts) and the cycle that drives them (src/Data/Cycles.ts:238-320). */
module NodeList {
  import opened Wrappers
  import opened SortedInsert

  // A public key, identified by the id the network assigns to it. The assignment is stable and injective;
  // the code only compares keys and never looks at assignedId.
  datatype PublicKey = PublicKey(assignedId: nat)

  datatype NodeStatus = Standby | Active | Syncing

  // A ConsensusNodeInfo record: the maps share these objects, and an id may be filled in later.
  class ConsensusNode {
    const publicKey: PublicKey
    var id: Option<nat>

    constructor (publicKey: PublicKey, id: Option<nat>)
      ensures this.publicKey == publicKey && this.id == id
    {
      this.publicKey, this.id := publicKey, id;
    }
  }

  // a.id > b.id ? 1 : -1, never 0; a comparison with an undefined id is false.
  function ByAscendingNodeId(a: ConsensusNode, b: ConsensusNode): int
    reads a, b
  {
    if a.id.Some? && b.id.Some? && a.id.value > b.id.value then 1 else -1
  }

  // ----- the lists as sets of public keys -----

  // Who is standing by, syncing and active.
  datatype Roster = Roster(standby: set<PublicKey>, syncing: set<PublicKey>, active: set<PublicKey>)
  {
    function Members(): set<PublicKey> { syncing + active }
  }

  function MovedToSyncing(v: Roster, key: PublicKey): Roster {
    Roster(v.standby - {key}, v.syncing + {key}, v.active - {key})
  }

  function MovedToActive(v: Roster, key: PublicKey): Roster {
    Roster(v.standby - {key}, v.syncing - {key}, v.active + {key})
  }

  function AddOne(v: Roster, status: NodeStatus, key: PublicKey): Roster {
    if key in v.Members() then v
    else if status == Syncing then MovedToSyncing(v, key)
    else MovedToActive(v, key)
  }

  // Refreshing does not take the key off the standby list.
  function RefreshOne(v: Roster, status: NodeStatus, key: PublicKey): Roster {
    if key in v.Members() then v
    else if status == Syncing then v.(syncing := v.syncing + {key})
    else v.(active := v.active + {key})
  }

  function RemoveOne(v: Roster, key: PublicKey): Roster {
    if key !in v.Members() then v else Roster(v.standby - {key}, v.syncing - {key}, v.active - {key})
  }

  function SetStatusOne(v: Roster, status: NodeStatus, key: PublicKey): Roster {
    if key !in v.Members() then v
    else if status == Syncing then MovedToSyncing(v, key)
    else MovedToActive(v, key)
  }

  // One operation over a whole list, first to last.
  function AddAll(v: Roster, status: NodeStatus, keys: seq<PublicKey>): Roster {
    if keys == [] then v else AddOne(AddAll(v, status, keys[..|keys| - 1]), status, keys[|keys| - 1])
  }

  function IdsOf(keys: seq<PublicKey>): set<nat> {
    if keys == [] then {} else IdsOf(keys[..|keys| - 1]) + {keys[|keys| - 1].assignedId}
  }

  // What a cycle record says about nodes: joining and refreshed nodes by key, removals by id.
  datatype CycleRecord = CycleRecord(
    start: nat,
    joinedConsensors: seq<PublicKey>,
    activatedPublicKeys: seq<PublicKey>,
    refreshedConsensors: seq<PublicKey>,
    standbyAdd: seq<PublicKey>,
    standbyRemove: seq<PublicKey>,
    removed: seq<nat>,
    appRemoved: seq<nat>,
    apoptosized: seq<nat>,
    lostAfterSelection: seq<nat>)

  // The keys of the known ids.
  function KeysOfIds(known: set<nat>, ids: seq<nat>): seq<PublicKey> {
    if ids == [] then [] else
      var front, last := KeysOfIds(known, ids[..|ids| - 1]), ids[|ids| - 1];
      if last in known then front + [PublicKey(last)] else front
  }

  function StandbyOnRoster(v: Roster, cycle: CycleRecord): Roster {
    v.(standby := v.standby + (set key | key in cycle.standbyAdd) - (set key | key in cycle.standbyRemove))
  }

  // The ids known once the cycle's joining and refreshed nodes are in.
  function KnownBeforeRemoval(known: set<nat>, cycle: CycleRecord): set<nat> {
    known + IdsOf(cycle.joinedConsensors) + IdsOf(cycle.refreshedConsensors)
  }

  function AfterRemoval(known: set<nat>, ids: seq<nat>): set<nat> {
    known - IdsOf(KeysOfIds(known, ids))
  }

  function DepartedOnIds(known: set<nat>, cycle: CycleRecord): set<nat> {
    var known1 := AfterRemoval(known, cycle.removed + cycle.appRemoved);
    AfterRemoval(AfterRemoval(known1, cycle.apoptosized), cycle.lostAfterSelection)
  }

  function JoinedOnRoster(v: Roster, cycle: CycleRecord): Roster {
    var joined := AddAll(v, Syncing, cycle.joinedConsensors);
    RefreshAll(SetStatusAll(joined, Active, cycle.activatedPublicKeys), Active, cycle.refreshedConsensors)
  }

  // Three rounds of removals, each by the ids still known.
  function DepartedOnRoster(v: Roster, known: set<nat>, cycle: CycleRecord): Roster {
    var known1 := AfterRemoval(known, cycle.removed + cycle.appRemoved);
    var known2 := AfterRemoval(known1, cycle.apoptosized);
    var v1 := RemoveAll(v, KeysOfIds(known, cycle.removed + cycle.appRemoved));
    var v2 := RemoveAll(v1, KeysOfIds(known1, cycle.apoptosized));
    RemoveAll(v2, KeysOfIds(known2, cycle.lostAfterSelection))
  }

  // The cycle on the sets of keys: join as syncing, activate, refresh as active, standby, remove.
  function CycleOnRoster(v: Roster, known: set<nat>, cycle: CycleRecord): Roster {
    DepartedOnRoster(StandbyOnRoster(JoinedOnRoster(v, cycle), cycle), KnownBeforeRemoval(known, cycle), cycle)
  }

  lemma AddedMember(v: Roster, key: PublicKey)
    ensures AddOne(v, Syncing, key).Members() == v.Members() + {key}
  {
  }

  lemma {:induction false} AddedMembers(v: Roster, keys: seq<PublicKey>)
    ensures AddAll(v, Syncing, keys).Members() == v.Members() + set key | key in keys
  {
    if keys != [] {
      var front, last := keys[..|keys| - 1], keys[|keys| - 1];
      AddedMembers(v, front);
      assert keys == front + [last];
      assert (set key | key in keys) == (set key | key in front) + {last};
      AddedMember(AddAll(v, Syncing, front), last);
    }
  }

  lemma {:induction false} JoinedAreKnown(keys: seq<PublicKey>)
    ensures forall key :: key in keys ==> key.assignedId in IdsOf(keys)
  {
    if keys != [] {
      JoinedAreKnown(keys[..|keys| - 1]);
    }
  }

  // Fresh records for the keys of a cycle record, with their assigned ids or without.
  method NewNodes(keys: seq<PublicKey>, withId: bool) returns (nodes: seq<ConsensusNode>)
    ensures Keys(nodes) == keys && forall k :: 0 <= k < |nodes| ==> fresh(nodes[k])
    ensures forall k :: 0 <= k < |nodes| ==> nodes[k].id == if withId then Some(keys[k].assignedId) else None
  {
    nodes := [];
    for i := 0 to |keys|
      invariant |nodes| == i && forall k :: 0 <= k < i ==> fresh(nodes[k]) && nodes[k].publicKey == keys[k]
      invariant forall k :: 0 <= k < i ==> nodes[k].id == if withId then Some(keys[k].assignedId) else None
    {
      var node := new ConsensusNode(keys[i], if withId then Some(keys[i].assignedId) else None);
      nodes := nodes + [node];
    }
  }

  // Setting everyone active to syncing leaves nobody active.
  lemma {:induction false} AllBackToSyncing(v: Roster, keys: seq<PublicKey>)
    requires forall key :: key in keys ==> key in v.Members()
    ensures
      var moved := set key | key in keys;
      SetStatusAll(v, Syncing, keys) == Roster(v.standby - moved, v.syncing + moved, v.active - moved)
  {
    if keys != [] {
      var front, last := keys[..|keys| - 1], keys[|keys| - 1];
      AllBackToSyncing(v, front);
      assert keys == front + [last];
      assert (set key | key in keys) == (set key | key in front) + {last};
    }
  }

  lemma ActiveBackToSyncing(v: Roster, keys: seq<PublicKey>)
    requires forall key :: key in keys <==> key in v.active
    ensures SetStatusAll(v, Syncing, keys) == Roster(v.standby - v.active, v.syncing + v.active, {})
  {
    AllBackToSyncing(v, keys);
    assert (set key | key in keys) == v.active;
  }

  lemma AddAllNext(v: Roster, status: NodeStatus, keys: seq<PublicKey>, i: int)
    requires 0 <= i < |keys|
    ensures AddAll(v, status, keys[..i + 1]) == AddOne(AddAll(v, status, keys[..i]), status, keys[i])
    ensures RefreshAll(v, status, keys[..i + 1]) == RefreshOne(RefreshAll(v, status, keys[..i]), status, keys[i])
    ensures IdsOf(keys[..i + 1]) == IdsOf(keys[..i]) + {keys[i].assignedId}
  {
    assert keys[..i + 1][..i] == keys[..i];
  }

  function RefreshAll(v: Roster, status: NodeStatus, keys: seq<PublicKey>): Roster {
    if keys == [] then v else RefreshOne(RefreshAll(v, status, keys[..|keys| - 1]), status, keys[|keys| - 1])
  }

  function RemoveAll(v: Roster, keys: seq<PublicKey>): Roster {
    if keys == [] then v else RemoveOne(RemoveAll(v, keys[..|keys| - 1]), keys[|keys| - 1])
  }

  function SetStatusAll(v: Roster, status: NodeStatus, keys: seq<PublicKey>): Roster {
    if keys == [] then v else SetStatusOne(SetStatusAll(v, status, keys[..|keys| - 1]), status, keys[|keys| - 1])
  }

  // ----- what happens to one key -----

  // A key that is added and is no member yet leaves standby and is listed with the status.
  lemma {:induction false} AddedKey(v: Roster, status: NodeStatus, keys: seq<PublicKey>, key: PublicKey)
    ensures
      var after, listed := AddAll(v, status, keys), key in keys && key !in v.Members();
      && (key in after.standby <==> key in v.standby && !listed)
      && (key in after.syncing <==> key in v.syncing || (listed && status == Syncing))
      && (key in after.active <==> key in v.active || (listed && status != Syncing))
  {
    if keys != [] {
      AddedKey(v, status, keys[..|keys| - 1], key);
      assert keys == keys[..|keys| - 1] + [keys[|keys| - 1]];
    }
  }

  // A refreshed one also stays on standby.
  lemma {:induction false} RefreshedKey(v: Roster, status: NodeStatus, keys: seq<PublicKey>, key: PublicKey)
    ensures
      var after, listed := RefreshAll(v, status, keys), key in keys && key !in v.Members();
      && (key in after.standby <==> key in v.standby)
      && (key in after.syncing <==> key in v.syncing || (listed && status == Syncing))
      && (key in after.active <==> key in v.active || (listed && status != Syncing))
  {
    if keys != [] {
      RefreshedKey(v, status, keys[..|keys| - 1], key);
      assert keys == keys[..|keys| - 1] + [keys[|keys| - 1]];
    }
  }

  // A member whose status is set has that status only.
  lemma {:induction false} SetKey(v: Roster, status: NodeStatus, keys: seq<PublicKey>, key: PublicKey)
    ensures
      var after, set1 := SetStatusAll(v, status, keys), key in keys && key in v.Members();
      && (key in after.standby <==> key in v.standby && !set1)
      && (key in after.syncing <==> if set1 then status == Syncing else key in v.syncing)
      && (key in after.active <==> if set1 then status != Syncing else key in v.active)
  {
    if keys != [] {
      SetKey(v, status, keys[..|keys| - 1], key);
      assert keys == keys[..|keys| - 1] + [keys[|keys| - 1]];
    }
  }

  // A member that is removed is on no list, not even standby.
  lemma {:induction false} RemovedKey(v: Roster, keys: seq<PublicKey>, key: PublicKey)
    ensures
      var after, gone := RemoveAll(v, keys), key in keys && key in v.Members();
      && (key in after.standby <==> key in v.standby && !gone)
      && (key in after.syncing <==> key in v.syncing && !gone)
      && (key in after.active <==> key in v.active && !gone)
  {
    if keys != [] {
      RemovedKey(v, keys[..|keys| - 1], key);
      assert keys == keys[..|keys| - 1] + [keys[|keys| - 1]];
    }
  }

  lemma {:induction false} KeyOfKnownId(known: set<nat>, ids: seq<nat>, key: PublicKey)
    ensures key in KeysOfIds(known, ids) <==> key.assignedId in known && key.assignedId in ids
  {
    if ids != [] {
      KeyOfKnownId(known, ids[..|ids| - 1], key);
      assert ids == ids[..|ids| - 1] + [ids[|ids| - 1]];
    }
  }

  lemma {:induction false} IdOfKey(keys: seq<PublicKey>, id: nat)
    ensures id in IdsOf(keys) <==> PublicKey(id) in keys
  {
    if keys != [] {
      IdOfKey(keys[..|keys| - 1], id);
      assert keys == keys[..|keys| - 1] + [keys[|keys| - 1]];
    }
  }

  lemma StaysKnown(known: set<nat>, ids: seq<nat>, id: nat)
    ensures id in AfterRemoval(known, ids) <==> id in known && id !in ids
  {
    IdOfKey(KeysOfIds(known, ids), id);
    KeyOfKnownId(known, ids, PublicKey(id));
  }

  predicate Departs(cycle: CycleRecord, id: nat) {
    id in cycle.removed || id in cycle.appRemoved || id in cycle.apoptosized || id in cycle.lostAfterSelection
  }

  // A cycle knows the ids that were known, joined or were refreshed, and did not depart.
  lemma KnownAfterCycle(known: set<nat>, cycle: CycleRecord, id: nat)
    ensures id in DepartedOnIds(KnownBeforeRemoval(known, cycle), cycle) <==>
      && (id in known || PublicKey(id) in cycle.joinedConsensors || PublicKey(id) in cycle.refreshedConsensors)
      && !Departs(cycle, id)
  {
    var known0 := KnownBeforeRemoval(known, cycle);
    var known1 := AfterRemoval(known0, cycle.removed + cycle.appRemoved);
    IdOfKey(cycle.joinedConsensors, id);
    IdOfKey(cycle.refreshedConsensors, id);
    StaysKnown(known0, cycle.removed + cycle.appRemoved, id);
    StaysKnown(known1, cycle.apoptosized, id);
    StaysKnown(AfterRemoval(known1, cycle.apoptosized), cycle.lostAfterSelection, id);
  }

  lemma JoinedKey(v: Roster, cycle: CycleRecord, key: PublicKey)
    ensures
      var after, was := JoinedOnRoster(v, cycle), key in v.Members();
      var joins, activated := key in cycle.joinedConsensors && !was, key in cycle.activatedPublicKeys;
      && (key in after.standby <==> key in v.standby && !joins && !(activated && was))
      && (key in after.syncing <==> (key in v.syncing || joins) && !activated)
      && (key in after.active <==>
            || key in v.active || (activated && (was || joins))
            || (key in cycle.refreshedConsensors && !was && !joins))
  {
    var joined := AddAll(v, Syncing, cycle.joinedConsensors);
    AddedKey(v, Syncing, cycle.joinedConsensors, key);
    SetKey(joined, Active, cycle.activatedPublicKeys, key);
    RefreshedKey(SetStatusAll(joined, Active, cycle.activatedPublicKeys), Active, cycle.refreshedConsensors, key);
  }

  lemma DepartedKey(v: Roster, known: set<nat>, cycle: CycleRecord, key: PublicKey)
    ensures
      var after := DepartedOnRoster(v, known, cycle);
      var gone := key in v.Members() && key.assignedId in known && Departs(cycle, key.assignedId);
      && (key in after.standby <==> key in v.standby && !gone)
      && (key in after.syncing <==> key in v.syncing && !gone)
      && (key in after.active <==> key in v.active && !gone)
  {
    var ids := cycle.removed + cycle.appRemoved;
    var known1 := AfterRemoval(known, ids);
    var known2 := AfterRemoval(known1, cycle.apoptosized);
    var v1 := RemoveAll(v, KeysOfIds(known, ids));
    var v2 := RemoveAll(v1, KeysOfIds(known1, cycle.apoptosized));
    RemovedKey(v, KeysOfIds(known, ids), key);
    RemovedKey(v1, KeysOfIds(known1, cycle.apoptosized), key);
    RemovedKey(v2, KeysOfIds(known2, cycle.lostAfterSelection), key);
    KeyOfKnownId(known, ids, key);
    KeyOfKnownId(known1, cycle.apoptosized, key);
    KeyOfKnownId(known2, cycle.lostAfterSelection, key);
    StaysKnown(known, ids, key.assignedId);
    StaysKnown(known1, cycle.apoptosized, key.assignedId);
  }

  // What a cycle record does to a key: it joins as syncing if it is no member; an activated member is active; a
  // refreshed key that is no member by then is active, and may stay on standby; a key is put on standby, or taken off;
  // and a member whose id is known departs from all three lists.
  lemma CycleOnKey(v: Roster, known: set<nat>, cycle: CycleRecord, key: PublicKey)
    ensures
      var after, was := CycleOnRoster(v, known, cycle), key in v.Members();
      var joins, activated := key in cycle.joinedConsensors && !was, key in cycle.activatedPublicKeys;
      var enters := key in cycle.refreshedConsensors && !was && !joins;
      var idKnown := key.assignedId in known || key in cycle.joinedConsensors || key in cycle.refreshedConsensors;
      var gone := (was || joins || enters) && idKnown && Departs(cycle, key.assignedId);
      && (key in after.standby <==>
            && ((key in v.standby && !joins && !(activated && was)) || key in cycle.standbyAdd)
            && key !in cycle.standbyRemove && !gone)
      && (key in after.syncing <==> (key in v.syncing || joins) && !activated && !gone)
      && (key in after.active <==> (key in v.active || (activated && (was || joins)) || enters) && !gone)
  {
    var joined := JoinedOnRoster(v, cycle);
    var known0 := KnownBeforeRemoval(known, cycle);
    JoinedKey(v, cycle, key);
    IdOfKey(cycle.joinedConsensors, key.assignedId);
    IdOfKey(cycle.refreshedConsensors, key.assignedId);
    DepartedKey(StandbyOnRoster(joined, cycle), known0, cycle, key);
  }

  // ----- the lists -----

  class Lists {
    var standbyList: map<PublicKey, ConsensusNode>
    var syncingList: map<PublicKey, ConsensusNode>
    var activeList: map<PublicKey, ConsensusNode>
    var byId: map<nat, PublicKey>
    var byPublicKey: map<PublicKey, ConsensusNode>
    var activeListByIdSorted: seq<ConsensusNode>
    ghost var entries: set<ConsensusNode>

    ghost function AsRoster(): Roster
      reads this
    {
      Roster(standbyList.Keys, syncingList.Keys, activeList.Keys)
    }

    // An id, where known, is the one the network assigns to the public key.
    ghost predicate IdAgrees(node: ConsensusNode)
      reads node
    {
      node.id.Some? ==> node.id.value == node.publicKey.assignedId
    }

    ghost predicate ListsAgree()
      reads this
    {
      && (forall key :: key in syncingList ==>
            key !in activeList && key in byPublicKey && syncingList[key] == byPublicKey[key])
      && (forall key :: key in activeList ==> key in byPublicKey && activeList[key] == byPublicKey[key])
      && (forall key :: key in byPublicKey ==> key in syncingList || key in activeList)
      && (forall key :: key in byPublicKey ==> byPublicKey[key].publicKey == key && byPublicKey[key] in entries)
    }

    // Every entry has no id or the assigned one; byId inverts the known ids; active nodes have theirs.
    ghost predicate IdsAgree()
      requires ListsAgree()
      reads this, entries
    {
      && (forall key :: key in byPublicKey ==>
            byPublicKey[key].id == if key.assignedId in byId then Some(key.assignedId) else None)
      && (forall key :: key in activeList ==> key.assignedId in byId)
      && (forall id :: id in byId ==> byId[id].assignedId == id && byId[id] in byPublicKey)
    }

    // The sorted list: strictly ascending ids, and exactly the active nodes.
    ghost predicate SortedAgrees()
      reads this
    {
      && SortedKeys(activeListByIdSorted)
      && (forall x :: x in activeListByIdSorted ==> x.publicKey in activeList && activeList[x.publicKey] == x)
      && (forall key :: key in activeList ==> activeList[key] in activeListByIdSorted)
    }

    ghost predicate Valid()
      reads this, entries
    {
      ListsAgree() && IdsAgree() && SortedAgrees()
    }

    constructor ()
      ensures Valid() && AsRoster() == Roster({}, {}, {})
    {
      standbyList, syncingList, activeList, byId, byPublicKey := map[], map[], map[], map[], map[];
      activeListByIdSorted := [];
      entries := {};
    }

    // The `case SYNCING` blocks of addNodes and setStatus.
    method MoveToSyncing(key: PublicKey, node: ConsensusNode)
      requires SortedKeys(activeListByIdSorted)
      modifies this`standbyList, this`activeList, this`activeListByIdSorted, this`syncingList
      ensures standbyList == old(standbyList) - {key} && activeList == old(activeList) - {key}
      ensures syncingList == if key in old(syncingList) then old(syncingList) else old(syncingList)[key := node]
      ensures AsRoster() == MovedToSyncing(old(AsRoster()), key)
      ensures SortedKeys(activeListByIdSorted)
      ensures forall x :: x in activeListByIdSorted <==>
        x in old(activeListByIdSorted) && (key in old(activeList) ==> x.publicKey != key)
    {
      standbyList := standbyList - {key};
      if key in activeList {
        activeList := activeList - {key};
        FilterKeepsOrder(activeListByIdSorted, key);
        WithoutKeyElements(activeListByIdSorted, key);
        activeListByIdSorted := WithoutKey(activeListByIdSorted, key);
      }
      assert key !in old(activeList) ==> old(activeList) - {key} == old(activeList);
      if key in syncingList {
        return;
      }
      syncingList := syncingList[key := node];
    }

    // The `case ACTIVE` blocks; the id of a node that is not active yet must be known.
    method MoveToActive(key: PublicKey, node: ConsensusNode)
      requires SortedKeys(activeListByIdSorted) && node.publicKey == key
      requires key !in activeList ==> CanActivate(node)
      modifies this`standbyList, this`activeList, this`activeListByIdSorted, this`syncingList
      ensures standbyList == old(standbyList) - {key} && syncingList == old(syncingList) - {key}
      ensures activeList == if key in old(activeList) then old(activeList) else old(activeList)[key := node]
      ensures AsRoster() == MovedToActive(old(AsRoster()), key)
      ensures SortedKeys(activeListByIdSorted)
      ensures forall x :: x in activeListByIdSorted <==>
        x in old(activeListByIdSorted) || (key !in old(activeList) && x == node)
    {
      standbyList := standbyList - {key};
      syncingList := syncingList - {key};
      if key in activeList {
        return;
      }
      Activate(node);
    }

    ghost predicate CanActivate(node: ConsensusNode)
      reads this, node, activeListByIdSorted
    {
      && node.id == Some(node.publicKey.assignedId)
      && forall x :: x in activeListByIdSorted ==> x.id == Some(x.publicKey.assignedId) && x.publicKey != node.publicKey
    }

    // activeList.set and insertSorted.
    method Activate(node: ConsensusNode)
      requires SortedKeys(activeListByIdSorted) && CanActivate(node)
      modifies this`activeList, this`activeListByIdSorted
      ensures activeList == old(activeList)[node.publicKey := node]
      ensures activeList.Keys == old(activeList.Keys) + {node.publicKey}
      ensures SortedKeys(activeListByIdSorted)
      ensures forall x :: x in activeListByIdSorted <==> x in old(activeListByIdSorted) || x == node
    {
      activeList := activeList[node.publicKey := node];
      activeListByIdSorted := InsertById(activeListByIdSorted, node);
    }

    // One round of addNodes.
    method AddNode(status: NodeStatus, node: ConsensusNode)
      requires Valid() && status != Standby && IdAgrees(node)
      requires status == Active && node.publicKey !in byPublicKey ==> node.id.Some?
      modifies this, if node.publicKey in byPublicKey then byPublicKey[node.publicKey] else node
      ensures Valid() && AsRoster() == AddOne(old(AsRoster()), status, node.publicKey)
      ensures byPublicKey ==
        if node.publicKey in old(byPublicKey) then old(byPublicKey) else old(byPublicKey)[node.publicKey := node]
      ensures entries <= old(entries) + {node}
      ensures byId == if old(node.id.Some?) then old(byId)[node.publicKey.assignedId := node.publicKey] else old(byId)
      ensures var entry := byPublicKey[node.publicKey];
        entry.id == old(entry.id) || entry.id == Some(entry.publicKey.assignedId)
    {
      if node.publicKey !in byPublicKey {
        if status == Syncing {
          AddSyncingEntry(node);
        } else {
          AddActiveEntry(node);
        }
      }
      SetId(node.id, node.publicKey);
    }

    // A node that is in neither list.
    method AddSyncingEntry(node: ConsensusNode)
      requires Valid() && IdAgrees(node) && node.publicKey !in byPublicKey
      modifies this`standbyList, this`activeList, this`activeListByIdSorted, this`syncingList
      modifies this`byPublicKey, this`entries
      ensures ListsAgree() && SortedAgrees() && IdsAgreeExcept(node.publicKey) && (node.id.None? ==> IdsAgree())
      ensures AsRoster() == MovedToSyncing(old(AsRoster()), node.publicKey)
      ensures byPublicKey == old(byPublicKey)[node.publicKey := node] && entries == old(entries) + {node}
    {
      MoveToSyncing(node.publicKey, node);
      byPublicKey := byPublicKey[node.publicKey := node];
      entries := entries + {node};
    }

    method AddActiveEntry(node: ConsensusNode)
      requires Valid() && IdAgrees(node) && node.publicKey !in byPublicKey && node.id.Some?
      modifies this`standbyList, this`activeList, this`activeListByIdSorted, this`syncingList
      modifies this`byPublicKey, this`entries
      ensures ListsAgree() && SortedAgrees() && IdsAgreeExcept(node.publicKey) && (node.id.None? ==> IdsAgree())
      ensures AsRoster() == MovedToActive(old(AsRoster()), node.publicKey)
      ensures byPublicKey == old(byPublicKey)[node.publicKey := node] && entries == old(entries) + {node}
    {
      MoveToActive(node.publicKey, node);
      byPublicKey := byPublicKey[node.publicKey := node];
      entries := entries + {node};
    }

    // `if (node.id)`: the entry for the key takes the id, and byId points back.
    method SetId(id: Option<nat>, key: PublicKey)
      requires ListsAgree() && SortedAgrees() && key in byPublicKey && IdsAgreeExcept(key)
      requires id.Some? ==> id.value == key.assignedId
      requires id.None? ==> IdsAgree()
      modifies this`byId, byPublicKey[key]
      ensures Valid()
      ensures byId == if id.Some? then old(byId)[key.assignedId := key] else old(byId)
    {
      if id.Some? {
        var entry := byPublicKey[key];
        entry.id := id;
        byId := byId[id.value := key];
      }
    }

    // One round of refreshNodes: as addNodes, but the standby list is left alone.
    method RefreshNode(status: NodeStatus, node: ConsensusNode)
      requires Valid() && status != Standby && IdAgrees(node)
      requires status == Active && node.publicKey !in byPublicKey ==> node.id.Some?
      modifies this, if node.publicKey in byPublicKey then byPublicKey[node.publicKey] else node
      ensures Valid() && AsRoster() == RefreshOne(old(AsRoster()), status, node.publicKey)
      ensures byPublicKey ==
        if node.publicKey in old(byPublicKey) then old(byPublicKey) else old(byPublicKey)[node.publicKey := node]
      ensures entries <= old(entries) + {node}
      ensures byId == if old(node.id.Some?) then old(byId)[node.publicKey.assignedId := node.publicKey] else old(byId)
      ensures var entry := byPublicKey[node.publicKey];
        entry.id == old(entry.id) || entry.id == Some(entry.publicKey.assignedId)
    {
      if node.publicKey !in byPublicKey {
        if status == Syncing {
          RefreshSyncingEntry(node);
        } else {
          RefreshActiveEntry(node);
        }
      }
      SetId(node.id, node.publicKey);
    }

    method RefreshSyncingEntry(node: ConsensusNode)
      requires Valid() && IdAgrees(node) && node.publicKey !in byPublicKey
      modifies this`syncingList, this`byPublicKey, this`entries
      ensures ListsAgree() && SortedAgrees() && IdsAgreeExcept(node.publicKey) && (node.id.None? ==> IdsAgree())
      ensures AsRoster() == RefreshOne(old(AsRoster()), Syncing, node.publicKey)
      ensures byPublicKey == old(byPublicKey)[node.publicKey := node] && entries == old(entries) + {node}
    {
      syncingList := syncingList[node.publicKey := node];
      byPublicKey := byPublicKey[node.publicKey := node];
      entries := entries + {node};
    }

    method RefreshActiveEntry(node: ConsensusNode)
      requires Valid() && IdAgrees(node) && node.publicKey !in byPublicKey && node.id.Some?
      modifies this`activeList, this`activeListByIdSorted, this`byPublicKey, this`entries
      ensures ListsAgree() && SortedAgrees() && IdsAgreeExcept(node.publicKey) && (node.id.None? ==> IdsAgree())
      ensures AsRoster() == RefreshOne(old(AsRoster()), Active, node.publicKey)
      ensures byPublicKey == old(byPublicKey)[node.publicKey := node] && entries == old(entries) + {node}
    {
      Activate(node);
      byPublicKey := byPublicKey[node.publicKey := node];
      entries := entries + {node};
    }

    // One round of removeNodes.
    method RemoveNode(key: PublicKey)
      requires Valid()
      modifies this
      ensures Valid() && AsRoster() == RemoveOne(old(AsRoster()), key)
      ensures byPublicKey == old(byPublicKey) - {key} && entries == old(entries)
      ensures byId == if key in old(byPublicKey) then old(byId) - {key.assignedId} else old(byId)
    {
      if key !in byPublicKey {
        assert old(byPublicKey) - {key} == old(byPublicKey);
        return;
      }
      var id := byPublicKey[key].id;
      TakeOffLists(key, id);
      DropEntry(key, id);
    }

    // Every entry is listed but the one that is being removed.
    ghost predicate OffLists(key: PublicKey)
      reads this
    {
      && key !in syncingList && key !in activeList
      && (forall k :: k in syncingList ==>
            k !in activeList && k in byPublicKey && syncingList[k] == byPublicKey[k])
      && (forall k :: k in activeList ==> k in byPublicKey && activeList[k] == byPublicKey[k])
      && (forall k :: k in byPublicKey ==> k == key || k in syncingList || k in activeList)
      && (forall k :: k in byPublicKey ==> byPublicKey[k].publicKey == k && byPublicKey[k] in entries)
    }

    ghost predicate IdsAgreeOff(key: PublicKey)
      requires OffLists(key)
      reads this, entries
    {
      && (forall k :: k in byPublicKey ==>
            byPublicKey[k].id == if k.assignedId in byId then Some(k.assignedId) else None)
      && (forall k :: k in activeList ==> k.assignedId in byId)
      && (forall id :: id in byId ==> byId[id].assignedId == id && byId[id] in byPublicKey)
    }

    // The deletes from the two indices, once the key is off the lists.
    method DropEntry(key: PublicKey, id: Option<nat>)
      requires key in byPublicKey && id == byPublicKey[key].id && OffLists(key) && IdsAgreeOff(key)
      modifies this`byId, this`byPublicKey
      ensures ListsAgree() && IdsAgree()
      ensures byPublicKey == old(byPublicKey) - {key} && byId == old(byId) - {key.assignedId}
    {
      if id.Some? {
        byId := byId - {id.value};
      }
      assert id.None? ==> old(byId) - {key.assignedId} == old(byId);
      byPublicKey := byPublicKey - {key};
    }

    // The deletes from the three lists, and the filter of the sorted list by id.
    method TakeOffLists(key: PublicKey, id: Option<nat>)
      requires Valid() && key in byPublicKey && id == byPublicKey[key].id
      modifies this`standbyList, this`activeList, this`activeListByIdSorted, this`syncingList
      ensures syncingList == old(syncingList) - {key} && activeList == old(activeList) - {key}
      ensures standbyList == old(standbyList) - {key}
      ensures OffLists(key) && IdsAgreeOff(key) && SortedAgrees()
    {
      TakeOffActive(key, id);
      syncingList := syncingList - {key};
      standbyList := standbyList - {key};
    }

    method TakeOffActive(key: PublicKey, id: Option<nat>)
      requires Valid() && key in byPublicKey && id == byPublicKey[key].id
      modifies this`activeList, this`activeListByIdSorted
      ensures activeList == old(activeList) - {key} && SortedAgrees()
    {
      var filtered := FilterSorted(key, id);
      activeList := activeList - {key};
      activeListByIdSorted := filtered;
    }

    method FilterSorted(key: PublicKey, id: Option<nat>) returns (filtered: seq<ConsensusNode>)
      requires Valid() && key in byPublicKey && id == byPublicKey[key].id
      ensures SortedKeys(filtered)
      ensures forall x :: x in filtered <==> x in activeListByIdSorted && x.publicKey != key
    {
      filtered := WithoutId(activeListByIdSorted, id);
      FilterByIdIsByKey(activeListByIdSorted, id, key);
      FilterKeepsOrder(activeListByIdSorted, key);
      WithoutKeyElements(activeListByIdSorted, key);
    }

    // One round of setStatus; a node is activated only once its id is known.
    method SetStatusOf(status: NodeStatus, key: PublicKey)
      requires Valid() && status != Standby
      requires status == Active && key in byPublicKey ==> key.assignedId in byId
      modifies this`standbyList, this`activeList, this`activeListByIdSorted, this`syncingList
      ensures Valid() && AsRoster() == SetStatusOne(old(AsRoster()), status, key)
    {
      if key !in byPublicKey {
        return;
      }
      if status == Syncing {
        SetSyncing(key);
      } else {
        SetActive(key);
      }
    }

    method SetSyncing(key: PublicKey)
      requires Valid() && key in byPublicKey
      modifies this`standbyList, this`activeList, this`activeListByIdSorted, this`syncingList
      ensures Valid() && AsRoster() == MovedToSyncing(old(AsRoster()), key)
    {
      MoveToSyncing(key, byPublicKey[key]);
    }

    method SetActive(key: PublicKey)
      requires Valid() && key in byPublicKey && key.assignedId in byId
      modifies this`standbyList, this`activeList, this`activeListByIdSorted, this`syncingList
      ensures Valid() && AsRoster() == MovedToActive(old(AsRoster()), key)
    {
      MoveToActive(key, byPublicKey[key]);
    }

    // ----- the operations, over lists of nodes or keys -----

    method AddNodes(status: NodeStatus, nodes: seq<ConsensusNode>)
      requires Valid() && status != Standby && NodesGiven(status, nodes)
      modifies this, entries, nodes
      ensures Valid() && AsRoster() == AddAll(old(AsRoster()), status, Keys(nodes))
      ensures forall e :: e in entries ==> e in old(entries) || e in nodes
      ensures old(byId.Keys) <= byId.Keys
      ensures old(AllHaveIds(nodes)) ==> byId.Keys == old(byId.Keys) + IdsOf(Keys(nodes))
    {
      ghost var haveIds, keys := AllHaveIds(nodes), Keys(nodes);
      for i := 0 to |nodes|
        invariant Valid() && AsRoster() == AddAll(old(AsRoster()), status, keys[..i])
        invariant forall e :: e in entries ==> e in old(entries) || e in nodes
        invariant old(byId.Keys) <= byId.Keys && NodesGiven(status, nodes)
        invariant haveIds ==> AllHaveIds(nodes) && byId.Keys == old(byId.Keys) + IdsOf(keys[..i])
      {
        AddNext(status, nodes, i);
        AddAllNext(old(AsRoster()), status, keys, i);
      }
      assert keys[..|nodes|] == keys;
    }

    // addNodes on one node of a list: the others keep what the loop needs of them.
    method AddNext(status: NodeStatus, nodes: seq<ConsensusNode>, i: int)
      requires Valid() && status != Standby && NodesGiven(status, nodes) && 0 <= i < |nodes|
      modifies this, entries, nodes[i]
      ensures Valid() && AsRoster() == AddOne(old(AsRoster()), status, nodes[i].publicKey)
      ensures forall e :: e in entries ==> e in old(entries) || e == nodes[i]
      ensures old(byId.Keys) <= byId.Keys
      ensures NodesGiven(status, nodes) && (old(AllHaveIds(nodes)) ==> AllHaveIds(nodes))
      ensures old(nodes[i].id.Some?) ==> byId.Keys == old(byId.Keys) + {nodes[i].publicKey.assignedId}
    {
      AddNode(status, nodes[i]);
    }

    ghost predicate AllHaveIds(nodes: seq<ConsensusNode>)
      reads nodes
    {
      forall k :: 0 <= k < |nodes| ==> nodes[k].id.Some?
    }

    // Ids agree with the assignment, and nodes to be activated come with theirs.
    ghost predicate NodesGiven(status: NodeStatus, nodes: seq<ConsensusNode>)
      reads nodes
    {
      forall k :: 0 <= k < |nodes| ==> IdAgrees(nodes[k]) && (status == Active ==> nodes[k].id.Some?)
    }

    method RefreshNodes(status: NodeStatus, nodes: seq<ConsensusNode>)
      requires Valid() && status != Standby && NodesGiven(status, nodes)
      modifies this, entries, nodes
      ensures Valid() && AsRoster() == RefreshAll(old(AsRoster()), status, Keys(nodes))
      ensures forall e :: e in entries ==> e in old(entries) || e in nodes
      ensures old(AllHaveIds(nodes)) ==> byId.Keys == old(byId.Keys) + IdsOf(Keys(nodes))
    {
      ghost var haveIds, keys := AllHaveIds(nodes), Keys(nodes);
      for i := 0 to |nodes|
        invariant Valid() && AsRoster() == RefreshAll(old(AsRoster()), status, keys[..i])
        invariant forall e :: e in entries ==> e in old(entries) || e in nodes
        invariant NodesGiven(status, nodes)
        invariant haveIds ==> AllHaveIds(nodes) && byId.Keys == old(byId.Keys) + IdsOf(keys[..i])
      {
        RefreshNext(status, nodes, i);
        AddAllNext(old(AsRoster()), status, keys, i);
      }
      assert keys[..|nodes|] == keys;
    }

    method RefreshNext(status: NodeStatus, nodes: seq<ConsensusNode>, i: int)
      requires Valid() && status != Standby && NodesGiven(status, nodes) && 0 <= i < |nodes|
      modifies this, entries, nodes[i]
      ensures Valid() && AsRoster() == RefreshOne(old(AsRoster()), status, nodes[i].publicKey)
      ensures forall e :: e in entries ==> e in old(entries) || e == nodes[i]
      ensures NodesGiven(status, nodes) && (old(AllHaveIds(nodes)) ==> AllHaveIds(nodes))
      ensures old(nodes[i].id.Some?) ==> byId.Keys == old(byId.Keys) + {nodes[i].publicKey.assignedId}
    {
      RefreshNode(status, nodes[i]);
    }

    method RemoveNodes(publicKeys: seq<PublicKey>)
      requires Valid()
      modifies this
      ensures Valid() && entries == old(entries)
      ensures AsRoster() == RemoveAll(old(AsRoster()), publicKeys)
      ensures byId.Keys == old(byId.Keys) - IdsOf(publicKeys)
    {
      for i := 0 to |publicKeys|
        invariant Valid() && entries == old(entries)
        invariant AsRoster() == RemoveAll(old(AsRoster()), publicKeys[..i])
        invariant byId.Keys == old(byId.Keys) - IdsOf(publicKeys[..i])
      {
        RemoveNode(publicKeys[i]);
        assert publicKeys[..i + 1][..i] == publicKeys[..i];
      }
      assert publicKeys[..|publicKeys|] == publicKeys;
    }

    method SetStatus(status: NodeStatus, publicKeys: seq<PublicKey>)
      requires Valid() && status != Standby
      requires status == Active ==> forall key :: key in publicKeys && key in byPublicKey ==> key.assignedId in byId
      modifies this`standbyList, this`activeList, this`activeListByIdSorted, this`syncingList
      ensures Valid() && AsRoster() == SetStatusAll(old(AsRoster()), status, publicKeys)
    {
      for i := 0 to |publicKeys|
        invariant Valid() && AsRoster() == SetStatusAll(old(AsRoster()), status, publicKeys[..i])
      {
        SetStatusOf(status, publicKeys[i]);
        assert publicKeys[..i + 1][..i] == publicKeys[..i];
      }
      assert publicKeys[..|publicKeys|] == publicKeys;
    }

    method AddStandbyNodes(nodes: seq<ConsensusNode>)
      requires Valid()
      modifies this`standbyList
      ensures Valid() && AsRoster() == old(AsRoster()).(standby := standbyList.Keys)
      ensures standbyList.Keys == old(standbyList.Keys) + set key | key in Keys(nodes)
    {
      ghost var keys := Keys(nodes);
      for i := 0 to |nodes|
        invariant standbyList.Keys == old(standbyList.Keys) + set key | key in keys[..i]
      {
        assert keys[..i + 1] == keys[..i] + [nodes[i].publicKey];
        if nodes[i].publicKey !in standbyList {
          standbyList := standbyList[nodes[i].publicKey := nodes[i]];
        }
      }
      assert keys[..|nodes|] == keys;
    }

    method RemoveStandbyNodes(publicKeys: seq<PublicKey>)
      requires Valid()
      modifies this`standbyList
      ensures Valid() && AsRoster() == old(AsRoster()).(standby := standbyList.Keys)
      ensures standbyList.Keys == old(standbyList.Keys) - set key | key in publicKeys
    {
      for i := 0 to |publicKeys|
        invariant standbyList.Keys == old(standbyList.Keys) - set key | key in publicKeys[..i]
      {
        assert publicKeys[..i + 1] == publicKeys[..i] + [publicKeys[i]];
        standbyList := standbyList - {publicKeys[i]};
      }
      assert publicKeys[..|publicKeys|] == publicKeys;
    }

    // Every active node goes back to syncing.
    method ChangeNodeListInRestore()
      requires Valid()
      modifies this`standbyList, this`activeList, this`activeListByIdSorted, this`syncingList
      ensures Valid() && activeList == map[] && activeListByIdSorted == []
      ensures AsRoster() == Roster(
        old(standbyList.Keys) - old(activeList.Keys), old(syncingList.Keys) + old(activeList.Keys), {})
    {
      if activeList.Keys == {} {
        NoActiveNodes();
        return;
      }
      var activatedPublicKeys := Keys(activeListByIdSorted);
      ActiveKeys();
      ActiveBackToSyncing(AsRoster(), activatedPublicKeys);
      SetStatus(Syncing, activatedPublicKeys);
      NoActiveNodes();
    }

    lemma NoActiveNodes()
      requires SortedAgrees() && activeList.Keys == {}
      ensures activeList == map[] && activeListByIdSorted == []
    {
      FirstIsMember(activeListByIdSorted);
    }

    lemma ActiveKeys()
      requires ListsAgree() && SortedAgrees()
      ensures forall key :: key in Keys(activeListByIdSorted) <==> key in activeList
    {
      forall key | key in activeList
        ensures key in Keys(activeListByIdSorted)
      {
        var k :| 0 <= k < |activeListByIdSorted| && activeListByIdSorted[k] == activeList[key];
        assert Keys(activeListByIdSorted)[k] == key;
      }
    }

    method ClearNodeLists()
      requires Valid()
      modifies this
      ensures Valid() && AsRoster() == Roster(old(standbyList.Keys), {}, {})
      ensures byPublicKey == map[] && byId == map[]
    {
      activeList := map[];
      syncingList := map[];
      byId := map[];
      byPublicKey := map[];
      activeListByIdSorted := [];
    }

    method GetNodeInfoById(id: nat) returns (node: ConsensusNode?)
      requires Valid()
      ensures node != null <==> id in byId
      ensures node != null ==>
        node.publicKey in byPublicKey && byPublicKey[node.publicKey] == node && node.publicKey.assignedId == id
    {
      node := null;
      if id in byId {
        node := byPublicKey[byId[id]];
      }
    }

    // ----- one cycle record -----

    // getNodeInfoById over a list of ids, then removeNodes on the keys found.
    method RemoveByIds(ids: seq<nat>)
      requires Valid()
      modifies this
      ensures Valid() && entries == old(entries)
      ensures AsRoster() == RemoveAll(old(AsRoster()), KeysOfIds(old(byId.Keys), ids))
      ensures byId.Keys == old(byId.Keys) - IdsOf(KeysOfIds(old(byId.Keys), ids))
    {
      var keys := KeysById(ids);
      RemoveNodes(keys);
    }

    method KeysById(ids: seq<nat>) returns (keys: seq<PublicKey>)
      requires Valid()
      ensures keys == KeysOfIds(byId.Keys, ids)
    {
      keys := [];
      for i := 0 to |ids|
        invariant keys == KeysOfIds(byId.Keys, ids[..i])
      {
        assert ids[..i + 1][..i] == ids[..i];
        var node := GetNodeInfoById(ids[i]);
        if node != null {
          keys := keys + [node.publicKey];
        }
      }
      assert ids[..|ids|] == ids;
    }

    method UpdateStandby(cycle: CycleRecord)
      requires Valid()
      modifies this`standbyList
      ensures Valid() && AsRoster() == StandbyOnRoster(old(AsRoster()), cycle)
    {
      if |cycle.standbyAdd| > 0 {
        var standbyNodeList := NewNodes(cycle.standbyAdd, false);
        AddStandbyNodes(standbyNodeList);
      }
      if |cycle.standbyRemove| > 0 {
        RemoveStandbyNodes(cycle.standbyRemove);
      }
    }

    // The node list part of updateNodeList. Joining and refreshed nodes come with their assigned ids; an
    // activated member has its id by then, from an earlier cycle or from joining in this one.
    method UpdateNodeList(cycle: CycleRecord)
      requires Valid()
      requires forall key :: key in cycle.activatedPublicKeys && key in byPublicKey ==>
        key.assignedId in byId || key in cycle.joinedConsensors
      modifies this, entries
      ensures Valid()
      ensures AsRoster() == CycleOnRoster(old(AsRoster()), old(byId.Keys), cycle)
      ensures byId.Keys == DepartedOnIds(KnownBeforeRemoval(old(byId.Keys), cycle), cycle)
    {
      JoinAndRefresh(cycle);
      UpdateStandby(cycle);
      RemoveDeparted(cycle);
    }

    method JoinAndRefresh(cycle: CycleRecord)
      requires Valid()
      requires forall key :: key in cycle.activatedPublicKeys && key in byPublicKey ==>
        key.assignedId in byId || key in cycle.joinedConsensors
      modifies this, entries
      ensures Valid() && AsRoster() == JoinedOnRoster(old(AsRoster()), cycle)
      ensures byId.Keys == KnownBeforeRemoval(old(byId.Keys), cycle)
    {
      JoinAndActivate(cycle);
      var refreshedConsensorInfos := NewNodes(cycle.refreshedConsensors, true);
      RefreshNodes(Active, refreshedConsensorInfos);
    }

    method JoinAndActivate(cycle: CycleRecord)
      requires Valid()
      requires forall key :: key in cycle.activatedPublicKeys && key in byPublicKey ==>
        key.assignedId in byId || key in cycle.joinedConsensors
      modifies this, entries
      ensures Valid() && fresh(entries - old(entries))
      ensures AsRoster() ==
        SetStatusAll(AddAll(old(AsRoster()), Syncing, cycle.joinedConsensors), Active, cycle.activatedPublicKeys)
      ensures byId.Keys == old(byId.Keys) + IdsOf(cycle.joinedConsensors)
    {
      ghost var members, known := AsRoster().Members(), byId.Keys;
      var consensorInfos := NewNodes(cycle.joinedConsensors, true);
      AddNodes(Syncing, consensorInfos);
      JoinedAreKnown(cycle.joinedConsensors);
      AddedMembers(old(AsRoster()), cycle.joinedConsensors);
      forall key | key in cycle.activatedPublicKeys && key in byPublicKey
        ensures key.assignedId in byId
      {
        assert key in AsRoster().Members();
      }
      SetStatus(Active, cycle.activatedPublicKeys);
    }

    method RemoveDeparted(cycle: CycleRecord)
      requires Valid()
      modifies this
      ensures Valid()
      ensures AsRoster() == DepartedOnRoster(old(AsRoster()), old(byId.Keys), cycle)
      ensures byId.Keys == DepartedOnIds(old(byId.Keys), cycle)
    {
      RemoveByIds(cycle.removed + cycle.appRemoved);
      RemoveByIds(cycle.apoptosized);
      RemoveByIds(cycle.lostAfterSelection);
    }

    // IdsAgree, but byId may not yet point back to `key`.
    ghost predicate IdsAgreeExcept(key: PublicKey)
      requires ListsAgree()
      reads this, entries
    {
      && (forall k :: k in byPublicKey && k != key ==>
            byPublicKey[k].id == if k.assignedId in byId then Some(k.assignedId) else None)
      && (forall k :: k in activeList && k != key ==> k.assignedId in byId)
      && (forall id :: id in byId ==> byId[id].assignedId == id && byId[id] in byPublicKey)
      && (key in byPublicKey && key.assignedId in byId ==> byPublicKey[key].id == Some(key.assignedId))
    }
  }

  lemma FirstIsMember(list: seq<ConsensusNode>)
    ensures list != [] ==> list[0] in list
  {
  }

  function Keys(nodes: seq<ConsensusNode>): seq<PublicKey> {
    seq(|nodes|, i requires 0 <= i < |nodes| => nodes[i].publicKey)
  }

  // list.filter(node => node.id !== id)
  function WithoutId(list: seq<ConsensusNode>, id: Option<nat>): seq<ConsensusNode>
    reads list
  {
    if list == [] then [] else
      var front := WithoutId(list[..|list| - 1], id);
      if list[|list| - 1].id == id then front else front + [list[|list| - 1]]
  }

  lemma {:induction false} FilterByIdIsByKey(list: seq<ConsensusNode>, id: Option<nat>, key: PublicKey)
    requires forall x :: x in list ==> x.id == Some(x.publicKey.assignedId)
    requires if id.Some? then id.value == key.assignedId else forall x :: x in list ==> x.publicKey != key
    ensures WithoutId(list, id) == WithoutKey(list, key)
  {
    if list != [] {
      var front, last := list[..|list| - 1], list[|list| - 1];
      FilterByIdIsByKey(front, id, key);
      assert last in list;
    }
  }

  // list.filter(node => node.publicKey !== key)
  function WithoutKey(list: seq<ConsensusNode>, key: PublicKey): seq<ConsensusNode> {
    if list == [] then [] else
      var front := WithoutKey(list[..|list| - 1], key);
      if list[|list| - 1].publicKey == key then front else front + [list[|list| - 1]]
  }

  lemma {:induction false} WithoutKeyElements(list: seq<ConsensusNode>, key: PublicKey)
    ensures forall x :: x in WithoutKey(list, key) <==> x in list && x.publicKey != key
  {
    if list != [] {
      var front, last := list[..|list| - 1], list[|list| - 1];
      WithoutKeyElements(front, key);
      assert list == front + [last];
    }
  }

  lemma {:induction false} WithoutKeySorted(list: seq<ConsensusNode>, key: PublicKey, bound: int)
    requires SortedKeys(list)
    requires forall k :: 0 <= k < |list| ==> list[k].publicKey.assignedId < bound
    ensures SortedKeys(WithoutKey(list, key))
    ensures forall k :: 0 <= k < |WithoutKey(list, key)| ==> WithoutKey(list, key)[k].publicKey.assignedId < bound
  {
    if list != [] {
      var front, last := list[..|list| - 1], list[|list| - 1];
      WithoutKeySorted(front, key, last.publicKey.assignedId);
      SortedSnoc(WithoutKey(front, key), last);
    }
  }

  lemma FilterKeepsOrder(list: seq<ConsensusNode>, key: PublicKey)
    requires SortedKeys(list)
    ensures SortedKeys(WithoutKey(list, key))
  {
    WithoutKeySorted(list, key, if list == [] then 0 else list[|list| - 1].publicKey.assignedId + 1);
  }

  lemma SortedSnoc(list: seq<ConsensusNode>, last: ConsensusNode)
    requires SortedKeys(list)
    requires forall k :: 0 <= k < |list| ==> list[k].publicKey.assignedId < last.publicKey.assignedId
    ensures SortedKeys(list + [last])
  {
  }

  // Strictly ascending ids.
  ghost predicate SortedKeys(list: seq<ConsensusNode>) {
    forall i, j :: 0 <= i < j < |list| ==> list[i].publicKey.assignedId < list[j].publicKey.assignedId
  }

  // The sorted list is determined by its members.
  lemma {:induction false} SortedIsDetermined(a: seq<ConsensusNode>, b: seq<ConsensusNode>)
    requires SortedKeys(a) && SortedKeys(b)
    requires Members(a) == Members(b)
    ensures a == b
  {
    if a == [] || b == [] {
      NoMembers(a);
      NoMembers(b);
    } else {
      FrontMembers(a);
      FrontMembers(b);
      LastIsGreatest(a, b[|b| - 1]);
      LastIsGreatest(b, a[|a| - 1]);
      SortedIsDetermined(a[..|a| - 1], b[..|b| - 1]);
      assert a == a[..|a| - 1] + [a[|a| - 1]] && b == b[..|b| - 1] + [b[|b| - 1]];
    }
  }

  ghost function Members(list: seq<ConsensusNode>): set<ConsensusNode> {
    set x | x in list
  }

  lemma NoMembers(list: seq<ConsensusNode>)
    ensures Members(list) == {} <==> list == []
  {
    assert list != [] ==> list[0] in Members(list);
  }

  lemma FrontMembers(list: seq<ConsensusNode>)
    requires SortedKeys(list) && list != []
    ensures SortedKeys(list[..|list| - 1])
    ensures Members(list[..|list| - 1]) == Members(list) - {list[|list| - 1]}
  {
    var front, last := list[..|list| - 1], list[|list| - 1];
    assert list == front + [last];
    assert last !in front;
  }

  lemma LastIsGreatest(list: seq<ConsensusNode>, x: ConsensusNode)
    requires SortedKeys(list) && list != [] && x in Members(list)
    ensures x == list[|list| - 1] || x.publicKey.assignedId < list[|list| - 1].publicKey.assignedId
  {
  }

  lemma SortedSplice(list: seq<ConsensusNode>, node: ConsensusNode, i: int)
    requires SortedKeys(list) && 0 <= i <= |list|
    requires forall k :: 0 <= k < i ==> list[k].publicKey.assignedId < node.publicKey.assignedId
    requires forall k :: i <= k < |list| ==> node.publicKey.assignedId < list[k].publicKey.assignedId
    ensures SortedKeys(list[..i] + [node] + list[i..])
  {
  }

  // Utils.insertSorted(list, node, byAscendingNodeId), for nodes whose ids are known.
  method InsertById(list: seq<ConsensusNode>, node: ConsensusNode) returns (r: seq<ConsensusNode>)
    requires SortedKeys(list) && node.id == Some(node.publicKey.assignedId)
    requires forall x :: x in list ==>
      x.id == Some(x.publicKey.assignedId) && x.publicKey.assignedId != node.publicKey.assignedId
    ensures SortedKeys(r)
    ensures forall x :: x in r <==> x in list || x == node
  {
    assert forall k :: 0 <= k < |list| ==> list[k] in list;
    var i;
    r, i := InsertSorted(list, node, ByAscendingNodeId);
    assert forall k :: 0 <= k < |list| ==>
      ByAscendingNodeId(node, list[k]) == if node.publicKey.assignedId > list[k].publicKey.assignedId then 1 else -1;
    SortedSplice(list, node, i);
    SplicedMembers(list, node, i);
  }

  lemma SplicedMembers(before: seq<ConsensusNode>, node: ConsensusNode, i: int)
    requires 0 <= i <= |before|
    ensures forall x :: x in before[..i] + [node] + before[i..] <==> x in before || x == node
  {
    assert before == before[..i] + before[i..];
  }
}
