/** Building the node lists from squashed cycles (src/Data/CycleParser.ts:100-210) against following every cycle. */
module NodeListSync {
  import opened Basics
  import opened ChangeReplay
  import opened ChangeSquasher
  import opened NodeList
  import opened Rejoin

  // ----- a cycle record as a change -----

  function Records(keys: seq<PublicKey>): seq<Joined> {
    seq(|keys|, i requires 0 <= i < |keys| => Joined(keys[i].assignedId, keys[i].assignedId))
  }

  function Activations(keys: seq<PublicKey>, start: nat): seq<Update> {
    seq(|keys|, i requires 0 <= i < |keys| => Update(keys[i].assignedId, start))
  }

  function Removals(cycle: CycleRecord): seq<nat> {
    cycle.apoptosized + cycle.removed + cycle.appRemoved
  }

  // parseRecord while no refreshed node is listed: each is updated, without a time, but not added. Nodes lost after
  // selection are not part of the change.
  function ParseRecord(cycle: CycleRecord): Change {
    Change(
      Records(cycle.joinedConsensors), Removals(cycle),
      Activations(cycle.activatedPublicKeys, cycle.start) + Activations(cycle.refreshedConsensors, 0))
  }

  // The joining nodes in their order; exactly the ids of the three kinds of removal; and an update for each activated
  // node, at the start of the cycle, then one for each refreshed node.
  lemma ParsedRecord(cycle: CycleRecord, id: nat)
    ensures
      var change, activated := ParseRecord(cycle), |cycle.activatedPublicKeys|;
      && |change.added| == |cycle.joinedConsensors|
      && (forall i :: 0 <= i < |change.added| ==> change.added[i].id == cycle.joinedConsensors[i].assignedId)
      && (id in change.removed <==> id in cycle.apoptosized || id in cycle.removed || id in cycle.appRemoved)
      && |change.updated| == activated + |cycle.refreshedConsensors|
      && (forall i :: 0 <= i < activated ==>
            change.updated[i] == Update(cycle.activatedPublicKeys[i].assignedId, cycle.start))
      && forall i :: 0 <= i < |cycle.refreshedConsensors| ==>
        change.updated[activated + i].id == cycle.refreshedConsensors[i].assignedId
  {
  }

  predicate Touched(cycle: CycleRecord, id: nat) {
    PublicKey(id) in cycle.activatedPublicKeys || PublicKey(id) in cycle.refreshedConsensors
  }

  function EventsOf(cycles: seq<CycleRecord>, k: nat): seq<Event>
    requires k <= |cycles|
  {
    if k == 0 then [] else EventsOf(cycles, k - 1) + Events(ParseRecord(cycles[k - 1]))
  }

  // The same with the nodes lost after selection leaving too.
  function AllEventsOf(cycles: seq<CycleRecord>, k: nat): seq<Event>
    requires k <= |cycles|
  {
    if k == 0 then [] else
      var cycle := cycles[k - 1];
      AllEventsOf(cycles, k - 1) + Events(ParseRecord(cycle)) + Leaves(cycle.lostAfterSelection)
  }

  // ----- following every cycle -----

  // The rosters and the known ids after the first k cycles.
  function Followed(cycles: seq<CycleRecord>, k: nat): (Roster, set<nat>)
    requires k <= |cycles|
  {
    if k == 0 then (Roster({}, {}, {}), {}) else
      var (v, known) := Followed(cycles, k - 1);
      (CycleOnRoster(v, known, cycles[k - 1]), DepartedOnIds(KnownBeforeRemoval(known, cycles[k - 1]), cycles[k - 1]))
  }

  // ----- building the lists from the squash -----

  function AddedKeys(added: seq<Joined>): seq<PublicKey> {
    seq(|added|, i requires 0 <= i < |added| => PublicKey(added[i].id))
  }

  function UpdatedIds(updated: seq<Update>): seq<nat> {
    seq(|updated|, i requires 0 <= i < |updated| => updated[i].id)
  }

  // applyNodeListChange: everyone joins as syncing, then the updated ones that are known become active.
  function Built(v: Roster, known: set<nat>, added: seq<Joined>, updated: seq<Update>): Roster {
    var keys := AddedKeys(added);
    SetStatusAll(AddAll(v, Syncing, keys), Active, KeysOfIds(known + IdsOf(keys), UpdatedIds(updated)))
  }

  method ApplyNodeListChange(lists: Lists, added: seq<Joined>, updated: seq<Update>)
    requires lists.Valid()
    modifies lists, lists.entries
    ensures lists.Valid()
    ensures lists.AsRoster() == Built(old(lists.AsRoster()), old(lists.byId.Keys), added, updated)
  {
    ghost var before := lists.AsRoster();
    ghost var known := lists.byId.Keys;
    if |added| > 0 {
      var consensorInfos := NewNodes(AddedKeys(added), true);
      lists.AddNodes(Syncing, consensorInfos);
    } else {
      assert AddedKeys(added) == [];
    }
    assert lists.AsRoster() == AddAll(before, Syncing, AddedKeys(added));
    assert lists.byId.Keys == known + IdsOf(AddedKeys(added));
    if |updated| > 0 {
      var ids := UpdatedIds(updated);
      var activatedPublicKeys := lists.KeysById(ids);
      KnownKeysOnly(lists.byId.Keys, ids);
      lists.SetStatus(Active, activatedPublicKeys);
    } else {
      assert UpdatedIds(updated) == [];
    }
  }

  lemma {:induction false} KnownKeysOnly(known: set<nat>, ids: seq<nat>)
    ensures forall key :: key in KeysOfIds(known, ids) <==> key.assignedId in known && key.assignedId in ids
  {
    if ids != [] {
      KnownKeysOnly(known, ids[..|ids| - 1]);
      assert ids == ids[..|ids| - 1] + [ids[|ids| - 1]];
    }
  }

  // ----- what the list operations do to one key -----

  lemma {:induction false} IdsOfKeys(keys: seq<PublicKey>, key: PublicKey)
    ensures key.assignedId in IdsOf(keys) <==> key in keys
  {
    if keys != [] {
      IdsOfKeys(keys[..|keys| - 1], key);
      assert keys == keys[..|keys| - 1] + [keys[|keys| - 1]];
    }
  }

  lemma {:induction false} AddingOne(v: Roster, keys: seq<PublicKey>, key: PublicKey)
    ensures key in AddAll(v, Syncing, keys).syncing <==> key in v.syncing || (key in keys && key !in v.active)
    ensures key in AddAll(v, Syncing, keys).active <==> key in v.active
  {
    if keys != [] {
      AddingOne(v, keys[..|keys| - 1], key);
      assert keys == keys[..|keys| - 1] + [keys[|keys| - 1]];
    }
  }

  lemma {:induction false} ActivatingOne(v: Roster, keys: seq<PublicKey>, key: PublicKey)
    ensures key in SetStatusAll(v, Active, keys).syncing <==> key in v.syncing && key !in keys
    ensures key in SetStatusAll(v, Active, keys).active <==> key in v.active || (key in keys && key in v.syncing)
  {
    if keys != [] {
      ActivatingOne(v, keys[..|keys| - 1], key);
      assert keys == keys[..|keys| - 1] + [keys[|keys| - 1]];
    }
  }

  lemma {:induction false} RemovingOne(v: Roster, keys: seq<PublicKey>, key: PublicKey)
    ensures key in RemoveAll(v, keys).syncing <==> key in v.syncing && key !in keys
    ensures key in RemoveAll(v, keys).active <==> key in v.active && key !in keys
  {
    if keys != [] {
      RemovingOne(v, keys[..|keys| - 1], key);
      assert keys == keys[..|keys| - 1] + [keys[|keys| - 1]];
    }
  }

  // A round of removals by id, where members have known ids.
  lemma RemovalRound(v: Roster, known: set<nat>, ids: seq<nat>, key: PublicKey)
    requires key in v.Members() ==> key.assignedId in known
    ensures
      var after := RemoveAll(v, KeysOfIds(known, ids));
      && (key in after.syncing <==> key in v.syncing && key.assignedId !in ids)
      && (key in after.active <==> key in v.active && key.assignedId !in ids)
    ensures key.assignedId in AfterRemoval(known, ids) <==> key.assignedId in known && key.assignedId !in ids
  {
    RemovingOne(v, KeysOfIds(known, ids), key);
    KnownKeysOnly(known, ids);
    IdsOfKeys(KeysOfIds(known, ids), key);
  }

  // ----- what the replay does to one id -----

  lemma {:induction false} KeepingConcat(nodes: Nodes, a: seq<Event>, b: seq<Event>)
    ensures ReplayKeeping(nodes, a + b) == ReplayKeeping(ReplayKeeping(nodes, a), b)
    decreases |b|
  {
    if b == [] {
      assert a + b == a;
    } else {
      var front, last := b[..|b| - 1], b[|b| - 1];
      KeepingConcat(nodes, a, front);
      KeepingSnoc(nodes, a + front, last);
      KeepingSnoc(ReplayKeeping(nodes, a), front, last);
      assert b == front + [last] && a + b == (a + front) + [last];
    }
  }

  // Whether an id is present and whether it has an update.
  predicate Is(nodes: Nodes, id: nat, present: bool, updated: bool) {
    (Present(nodes.order, id) <==> present) && (id in nodes.latest <==> updated)
  }

  lemma KeepingOne(nodes: Nodes, event: Event, id: nat)
    ensures
      var after := ApplyKeeping(nodes, event);
      && (Present(after.order, id) <==>
            (Present(nodes.order, id) && !(event.Leave? && event.id == id)) || (event.Join? && event.node.id == id))
      && (id in after.latest <==>
            || (id in nodes.latest && !(event.Leave? && event.id == id)
                && !(event.Join? && event.node.id == id && !Present(nodes.order, id)))
            || (event.Touch? && event.update.id == id && Present(nodes.order, id)))
  {
    if !event.Touch? {
      var other := if event.Join? then event.node.id else event.id;
      WithoutPresent(nodes.order, other, id);
      if event.Join? {
        PresentSnoc(Without(nodes.order, other), event.node, id);
      }
    }
  }

  lemma {:induction false} JoiningOne(nodes: Nodes, keys: seq<PublicKey>, id: nat)
    requires id in nodes.latest ==> Present(nodes.order, id)
    ensures Is(ReplayKeeping(nodes, Joins(Records(keys))), id,
      Present(nodes.order, id) || PublicKey(id) in keys, id in nodes.latest)
  {
    if keys != [] {
      var front, last := keys[..|keys| - 1], keys[|keys| - 1];
      JoiningOne(nodes, front, id);
      var event := Join(Joined(last.assignedId, last.assignedId));
      KeepingSnoc(nodes, Joins(Records(front)), event);
      KeepingOne(ReplayKeeping(nodes, Joins(Records(front))), event, id);
      assert keys == front + [last] && Joins(Records(keys)) == Joins(Records(front)) + [event];
    }
  }

  lemma {:induction false} TouchingOne(nodes: Nodes, updates: seq<Update>, id: nat)
    ensures Is(ReplayKeeping(nodes, Touches(updates)), id,
      Present(nodes.order, id), id in nodes.latest || (Present(nodes.order, id) && id in UpdatedIds(updates)))
  {
    if updates != [] {
      var event, before := Touch(updates[0]), Touches(updates[1..]);
      TouchingOne(nodes, updates[1..], id);
      KeepingSnoc(nodes, before, event);
      KeepingOne(ReplayKeeping(nodes, before), event, id);
      assert Touches(updates) == before + [event];
      assert UpdatedIds(updates) == [updates[0].id] + UpdatedIds(updates[1..]);
    }
  }

  lemma ActivatedIds(keys: seq<PublicKey>, start: nat, id: nat)
    ensures id in UpdatedIds(Activations(keys, start)) <==> PublicKey(id) in keys
  {
    assert forall i :: 0 <= i < |keys| ==> UpdatedIds(Activations(keys, start))[i] == keys[i].assignedId;
    if PublicKey(id) in keys {
      var i :| 0 <= i < |keys| && keys[i] == PublicKey(id);
      assert UpdatedIds(Activations(keys, start))[i] == id;
    }
  }

  lemma TouchedIds(cycle: CycleRecord, id: nat)
    ensures id in UpdatedIds(ParseRecord(cycle).updated) <==> Touched(cycle, id)
  {
    var activated := Activations(cycle.activatedPublicKeys, cycle.start);
    var refreshed := Activations(cycle.refreshedConsensors, 0);
    assert UpdatedIds(activated + refreshed) == UpdatedIds(activated) + UpdatedIds(refreshed);
    ActivatedIds(cycle.activatedPublicKeys, cycle.start, id);
    ActivatedIds(cycle.refreshedConsensors, 0, id);
  }

  lemma {:induction false} LeavingOne(nodes: Nodes, ids: seq<nat>, id: nat)
    ensures Is(ReplayKeeping(nodes, Leaves(ids)), id,
      Present(nodes.order, id) && id !in ids, id in nodes.latest && id !in ids)
  {
    if ids != [] {
      var front, last := ids[..|ids| - 1], ids[|ids| - 1];
      LeavingOne(nodes, front, id);
      KeepingSnoc(nodes, Leaves(front), Leave(last));
      KeepingOne(ReplayKeeping(nodes, Leaves(front)), Leave(last), id);
      assert ids == front + [last] && Leaves(ids) == Leaves(front) + [Leave(last)];
    }
  }

  lemma ChangingOne(nodes: Nodes, cycle: CycleRecord, id: nat)
    requires id in nodes.latest ==> Present(nodes.order, id)
    ensures
      var joined := Present(nodes.order, id) || PublicKey(id) in cycle.joinedConsensors;
      var leaves := id in Removals(cycle);
      Is(ReplayKeeping(nodes, Events(ParseRecord(cycle))), id, joined && !leaves,
        (id in nodes.latest || (joined && Touched(cycle, id))) && !leaves)
  {
    var change := ParseRecord(cycle);
    var joins, touches, leaves := Joins(change.added), Touches(change.updated), Leaves(change.removed);
    KeepingConcat(nodes, joins + touches, leaves);
    KeepingConcat(nodes, joins, touches);
    JoiningOne(nodes, cycle.joinedConsensors, id);
    TouchingOne(ReplayKeeping(nodes, joins), change.updated, id);
    TouchedIds(cycle, id);
    LeavingOne(ReplayKeeping(nodes, joins + touches), change.removed, id);
  }

  // ----- following mirrors the replay that keeps present nodes -----

  ghost predicate NoRefreshes(cycles: seq<CycleRecord>) {
    forall i :: 0 <= i < |cycles| ==> cycles[i].refreshedConsensors == []
  }

  // Present ids are known; a present node is active if it has an update and syncing otherwise.
  predicate Mirrors(v: Roster, known: set<nat>, nodes: Nodes, id: nat) {
    && (id in known <==> Present(nodes.order, id))
    && (PublicKey(id) in v.syncing <==> Present(nodes.order, id) && id !in nodes.latest)
    && (PublicKey(id) in v.active <==> Present(nodes.order, id) && id in nodes.latest)
  }

  lemma JoinedMirror(v: Roster, known: set<nat>, cycle: CycleRecord, id: nat)
    requires cycle.refreshedConsensors == []
    ensures
      var after, key := JoinedOnRoster(v, cycle), PublicKey(id);
      var joined := key in v.syncing || (key in cycle.joinedConsensors && key !in v.active);
      && (key in after.syncing <==> joined && key !in cycle.activatedPublicKeys)
      && (key in after.active <==> key in v.active || (joined && key in cycle.activatedPublicKeys))
    ensures id in KnownBeforeRemoval(known, cycle) <==> id in known || PublicKey(id) in cycle.joinedConsensors
  {
    AddingOne(v, cycle.joinedConsensors, PublicKey(id));
    ActivatingOne(AddAll(v, Syncing, cycle.joinedConsensors), cycle.activatedPublicKeys, PublicKey(id));
    IdsOfKeys(cycle.joinedConsensors, PublicKey(id));
  }

  lemma DepartedMirror(v: Roster, known: set<nat>, cycle: CycleRecord, id: nat)
    requires PublicKey(id) in v.Members() ==> id in known
    ensures
      var after, key := DepartedOnRoster(v, known, cycle), PublicKey(id);
      var leaves := id in Removals(cycle) || id in cycle.lostAfterSelection;
      && (key in after.syncing <==> key in v.syncing && !leaves)
      && (key in after.active <==> key in v.active && !leaves)
      && (id in DepartedOnIds(known, cycle) <==> id in known && !leaves)
  {
    var key, ids := PublicKey(id), cycle.removed + cycle.appRemoved;
    var known1 := AfterRemoval(known, ids);
    var known2 := AfterRemoval(known1, cycle.apoptosized);
    var v1 := RemoveAll(v, KeysOfIds(known, ids));
    var v2 := RemoveAll(v1, KeysOfIds(known1, cycle.apoptosized));
    RemovalRound(v, known, ids, key);
    RemovalRound(v1, known1, cycle.apoptosized, key);
    RemovalRound(v2, known2, cycle.lostAfterSelection, key);
  }

  lemma CycleMirrors(v: Roster, known: set<nat>, nodes: Nodes, cycle: CycleRecord, id: nat)
    requires Mirrors(v, known, nodes, id) && cycle.refreshedConsensors == []
    requires id in nodes.latest ==> Present(nodes.order, id)
    ensures Mirrors(
      CycleOnRoster(v, known, cycle), DepartedOnIds(KnownBeforeRemoval(known, cycle), cycle),
      ReplayKeeping(nodes, Events(ParseRecord(cycle)) + Leaves(cycle.lostAfterSelection)), id)
  {
    var events, lost := Events(ParseRecord(cycle)), cycle.lostAfterSelection;
    JoinedMirror(v, known, cycle, id);
    DepartedMirror(StandbyOnRoster(JoinedOnRoster(v, cycle), cycle), KnownBeforeRemoval(known, cycle), cycle, id);
    ChangingOne(nodes, cycle, id);
    KeepingConcat(nodes, events, Leaves(lost));
    LeavingOne(ReplayKeeping(nodes, events), lost, id);
  }

  lemma NextMirrors(v: Roster, known: set<nat>, events: seq<Event>, cycle: CycleRecord, id: nat)
    requires Mirrors(v, known, ReplayKeeping(NoNodes, events), id) && cycle.refreshedConsensors == []
    ensures Mirrors(
      CycleOnRoster(v, known, cycle), DepartedOnIds(KnownBeforeRemoval(known, cycle), cycle),
      ReplayKeeping(NoNodes, events + Events(ParseRecord(cycle)) + Leaves(cycle.lostAfterSelection)), id)
  {
    var nodes, change := ReplayKeeping(NoNodes, events), Events(ParseRecord(cycle));
    var lost := Leaves(cycle.lostAfterSelection);
    assert id in nodes.latest ==> Present(nodes.order, id) by {
      assert events[..|events|] == events;
      KeepingWellFormed(events, |events|);
    }
    KeepingConcat(NoNodes, events, change + lost);
    assert events + change + lost == events + (change + lost);
    CycleMirrors(v, known, nodes, cycle, id);
  }

  lemma {:induction false} FollowingMirrors(cycles: seq<CycleRecord>, k: nat, id: nat)
    requires k <= |cycles| && NoRefreshes(cycles)
    ensures
      var (v, known) := Followed(cycles, k);
      Mirrors(v, known, ReplayKeeping(NoNodes, AllEventsOf(cycles, k)), id)
  {
    if k > 0 {
      FollowingMirrors(cycles, k - 1, id);
      var (v, known) := Followed(cycles, k - 1);
      NextMirrors(v, known, AllEventsOf(cycles, k - 1), cycles[k - 1], id);
    }
  }

  // ----- what the renewing replay does to one id -----

  lemma {:induction false} ReplayConcat(nodes: Nodes, a: seq<Event>, b: seq<Event>)
    ensures Replay(nodes, a + b) == Replay(Replay(nodes, a), b)
    decreases |b|
  {
    if b == [] {
      assert a + b == a;
    } else {
      var front, last := b[..|b| - 1], b[|b| - 1];
      ReplayConcat(nodes, a, front);
      ReplaySnoc(nodes, a + front, last);
      ReplaySnoc(Replay(nodes, a), front, last);
      assert b == front + [last] && a + b == (a + front) + [last];
    }
  }

  // Without joins the two replays are the same.
  lemma {:induction false} WithoutJoins(nodes: Nodes, events: seq<Event>)
    requires forall i :: 0 <= i < |events| ==> !events[i].Join?
    ensures Replay(nodes, events) == ReplayKeeping(nodes, events)
    decreases events
  {
    if events != [] {
      WithoutJoins(Apply(nodes, events[0]), events[1..]);
    }
  }

  lemma {:induction false} RenewingOne(nodes: Nodes, keys: seq<PublicKey>, id: nat)
    requires id in nodes.latest ==> Present(nodes.order, id)
    ensures Is(Replay(nodes, Joins(Records(keys))), id,
      Present(nodes.order, id) || PublicKey(id) in keys, id in nodes.latest && PublicKey(id) !in keys)
  {
    if keys != [] {
      var front, last := keys[..|keys| - 1], keys[|keys| - 1];
      RenewingOne(nodes, front, id);
      var event := Join(Joined(last.assignedId, last.assignedId));
      var before := Replay(nodes, Joins(Records(front)));
      ReplaySnoc(nodes, Joins(Records(front)), event);
      WithoutPresent(before.order, last.assignedId, id);
      PresentSnoc(Without(before.order, last.assignedId), event.node, id);
      assert keys == front + [last] && Joins(Records(keys)) == Joins(Records(front)) + [event];
    }
  }

  lemma ReplacingOne(nodes: Nodes, cycle: CycleRecord, id: nat)
    requires id in nodes.latest ==> Present(nodes.order, id)
    ensures
      var joins := PublicKey(id) in cycle.joinedConsensors;
      var present, leaves := Present(nodes.order, id) || joins, id in Removals(cycle);
      Is(Replay(nodes, Events(ParseRecord(cycle))), id, present && !leaves,
        ((id in nodes.latest && !joins) || (present && Touched(cycle, id))) && !leaves)
  {
    var change := ParseRecord(cycle);
    var joins, touches, leaves := Joins(change.added), Touches(change.updated), Leaves(change.removed);
    var joined := Replay(nodes, joins);
    ReplayConcat(nodes, joins + touches, leaves);
    ReplayConcat(nodes, joins, touches);
    RenewingOne(nodes, cycle.joinedConsensors, id);
    WithoutJoins(joined, touches);
    TouchingOne(joined, change.updated, id);
    TouchedIds(cycle, id);
    WithoutJoins(ReplayKeeping(joined, touches), leaves);
    LeavingOne(ReplayKeeping(joined, touches), change.removed, id);
  }

  // ----- nodes lost after selection -----

  // The node joined and no change has removed it since.
  predicate Listed(cycles: seq<CycleRecord>, k: nat, id: nat)
    requires k <= |cycles|
  {
    && k > 0
    && id !in Removals(cycles[k - 1])
    && (PublicKey(id) in cycles[k - 1].joinedConsensors || Listed(cycles, k - 1, id))
  }

  // A listed node was lost after selection and has not joined again since.
  predicate ListedThoughLost(cycles: seq<CycleRecord>, k: nat, id: nat)
    requires k <= |cycles|
  {
    && Listed(cycles, k, id)
    && (id in cycles[k - 1].lostAfterSelection
        || (PublicKey(id) !in cycles[k - 1].joinedConsensors && ListedThoughLost(cycles, k - 1, id)))
  }

  // The state of one id with the changes alone and with all departures.
  ghost predicate LostIs(changed: Nodes, all: Nodes, id: nat, listed: bool, lost: bool) {
    && (Present(changed.order, id) <==> listed)
    && (lost ==> listed && !Present(all.order, id))
    && (!lost ==> (Present(all.order, id) <==> listed) && (id in all.latest <==> id in changed.latest))
  }

  lemma NextLost(changed: Nodes, all: Nodes, cycle: CycleRecord, id: nat, listed: bool, lost: bool)
    requires LostIs(changed, all, id, listed, lost)
    requires (id in changed.latest ==> Present(changed.order, id)) && (id in all.latest ==> Present(all.order, id))
    ensures
      var change, joins := Events(ParseRecord(cycle)), PublicKey(id) in cycle.joinedConsensors;
      var departed := Replay(Replay(all, change), Leaves(cycle.lostAfterSelection));
      var listed' := id !in Removals(cycle) && (joins || listed);
      var lost' := listed' && (id in cycle.lostAfterSelection || (!joins && lost));
      LostIs(Replay(changed, change), departed, id, listed', lost')
  {
    var more := Replay(all, Events(ParseRecord(cycle)));
    ReplacingOne(changed, cycle, id);
    ReplacingOne(all, cycle, id);
    WithoutJoins(more, Leaves(cycle.lostAfterSelection));
    LeavingOne(more, cycle.lostAfterSelection, id);
  }

  lemma ReplayKeepsUpdatesOfPresent(events: seq<Event>, id: nat)
    ensures id in Replay(NoNodes, events).latest ==> Present(Replay(NoNodes, events).order, id)
  {
    ReplayWellFormed(NoNodes, events);
  }

  lemma NextLostUpTo(
    events: seq<Event>, all: seq<Event>, cycle: CycleRecord, id: nat, listed: bool, lost: bool)
    requires LostIs(Replay(NoNodes, events), Replay(NoNodes, all), id, listed, lost)
    ensures
      var change, joins := Events(ParseRecord(cycle)), PublicKey(id) in cycle.joinedConsensors;
      var listed' := id !in Removals(cycle) && (joins || listed);
      var lost' := listed' && (id in cycle.lostAfterSelection || (!joins && lost));
      LostIs(
        Replay(NoNodes, events + change), Replay(NoNodes, all + change + Leaves(cycle.lostAfterSelection)), id,
        listed', lost')
  {
    var change := Events(ParseRecord(cycle));
    ReplayKeepsUpdatesOfPresent(events, id);
    ReplayKeepsUpdatesOfPresent(all, id);
    ReplayConcat(NoNodes, events, change);
    ReplayConcat(NoNodes, all, change);
    ReplayConcat(NoNodes, all + change, Leaves(cycle.lostAfterSelection));
    NextLost(Replay(NoNodes, events), Replay(NoNodes, all), cycle, id, listed, lost);
  }

  lemma {:induction false} LostUpTo(cycles: seq<CycleRecord>, k: nat, id: nat)
    requires k <= |cycles|
    ensures LostIs(
      Replay(NoNodes, EventsOf(cycles, k)), Replay(NoNodes, AllEventsOf(cycles, k)), id,
      Listed(cycles, k, id), ListedThoughLost(cycles, k, id))
  {
    if k > 0 {
      LostUpTo(cycles, k - 1, id);
      NextLostUpTo(EventsOf(cycles, k - 1), AllEventsOf(cycles, k - 1), cycles[k - 1], id,
        Listed(cycles, k - 1, id), ListedThoughLost(cycles, k - 1, id));
    }
  }

  // ----- the lists built from the squash -----

  lemma {:induction false} UpdatedAre(order: seq<Joined>, latest: map<nat, Update>, id: nat)
    requires forall k :: k in latest ==> latest[k].id == k
    ensures id in UpdatedIds(UpdatesOf(order, latest)) <==> Present(order, id) && id in latest
  {
    if order != [] {
      var front, last := order[..|order| - 1], order[|order| - 1];
      UpdatedAre(front, latest, id);
      PresentSnoc(front, last, id);
      assert order == front + [last];
      var more := if last.id in latest then [latest[last.id]] else [];
      assert UpdatedIds(UpdatesOf(order, latest)) == UpdatedIds(UpdatesOf(front, latest)) + UpdatedIds(more);
      assert more != [] ==> UpdatedIds(more) == [last.id];
    }
  }

  lemma AddedAre(order: seq<Joined>, id: nat)
    ensures PublicKey(id) in AddedKeys(order) <==> Present(order, id)
  {
    forall k | 0 <= k < |order| && order[k].id == id ensures AddedKeys(order)[k] == PublicKey(id) {
    }
    if PublicKey(id) in AddedKeys(order) {
      var k :| 0 <= k < |order| && AddedKeys(order)[k] == PublicKey(id);
      assert order[k].id == id;
    }
  }

  function Answer(events: seq<Event>): Squashed {
    AbsorbAll(NothingSquashed, events)
  }

  function ListsOf(events: seq<Event>): Roster {
    Built(Roster({}, {}, {}), {}, Answer(events).added, Answer(events).updated)
  }

  // The built lists mirror the replay that renews a node when it joins again.
  lemma BuiltMirrors(events: seq<Event>, id: nat)
    ensures
      var v, nodes := ListsOf(events), Replay(NoNodes, events);
      && (PublicKey(id) in v.syncing <==> Present(nodes.order, id) && id !in nodes.latest)
      && (PublicKey(id) in v.active <==> Present(nodes.order, id) && id in nodes.latest)
  {
    var nodes, key, empty := Replay(NoNodes, events), PublicKey(id), Roster({}, {}, {});
    SquashIsReplay(events);
    ReplayWellFormed(NoNodes, events);
    var keys, ids := AddedKeys(nodes.order), UpdatedIds(UpdatesOf(nodes.order, nodes.latest));
    AddedAre(nodes.order, id);
    UpdatedAre(nodes.order, nodes.latest, id);
    AddingOne(empty, keys, key);
    IdsOfKeys(keys, key);
    KnownKeysOnly({} + IdsOf(keys), ids);
    ActivatingOne(AddAll(empty, Syncing, keys), KeysOfIds({} + IdsOf(keys), ids), key);
  }

  // ----- the theorem -----

  // The lists after following all cycles, and those built from the squash of their changes.
  function FollowedLists(cycles: seq<CycleRecord>): Roster {
    Followed(cycles, |cycles|).0
  }

  function BuiltLists(cycles: seq<CycleRecord>): Roster {
    ListsOf(EventsOf(cycles, |cycles|))
  }

  // The ids that stay listed though lost after selection, and those whose update is lost as they join again.
  ghost function StillListed(cycles: seq<CycleRecord>): iset<nat> {
    iset id: nat | ListedThoughLost(cycles, |cycles|, id)
  }

  ghost function UpdatesLost(cycles: seq<CycleRecord>): iset<nat> {
    var events := AllEventsOf(cycles, |cycles|);
    iset id: nat | LostUpdate(events, |events|, id)
  }

  ghost predicate KeyAgrees(built: Roster, followed: Roster, key: PublicKey, lost: bool, update: bool) {
    && (key in built.Members() <==> key in followed.Members() || lost)
    && (lost ==> key !in followed.Members())
    && (!lost ==> (update <==> key in followed.active && key !in built.active))
    && (!lost && key in built.active ==> key in followed.active)
    && (key in built.syncing ==> key !in built.active) && (key in followed.syncing ==> key !in followed.active)
  }

  lemma OneKeyAgrees(cycles: seq<CycleRecord>, id: nat)
    requires NoRefreshes(cycles)
    ensures KeyAgrees(BuiltLists(cycles), FollowedLists(cycles), PublicKey(id),
      id in StillListed(cycles), id in UpdatesLost(cycles))
  {
    var events := AllEventsOf(cycles, |cycles|);
    assert events[..|events|] == events;
    FollowingMirrors(cycles, |cycles|, id);
    BuiltMirrors(EventsOf(cycles, |cycles|), id);
    LostUpTo(cycles, |cycles|, id);
    UpdatesUpTo(events, |events|, id);
    OrdersFollowJoins(events, |events|);
    SameStays(events, |events|);
    OrderedPresent(events, |events|, Fresh(events, |events|).order, LastJoins(events, |events|), id);
    OrderedPresent(events, |events|, Keeping(events, |events|).order, FirstJoins(events, |events|), id);
    KeepingWellFormed(events, |events|);
  }

  lemma RostersAgree(built: Roster, followed: Roster, lost: iset<nat>, update: iset<nat>)
    requires forall key: PublicKey ::
      KeyAgrees(built, followed, key, key.assignedId in lost, key.assignedId in update)
    ensures built.Members() == followed.Members() <==> lost == iset{}
    ensures built.syncing == followed.syncing && built.active == followed.active <==> lost + update == iset{}
  {
    forall id ensures KeyAgrees(built, followed, PublicKey(id), id in lost, id in update) {
      assert PublicKey(id).assignedId == id;
    }
    if lost == iset{} {
      forall key: PublicKey ensures key in built.Members() <==> key in followed.Members() {
        assert KeyAgrees(built, followed, key, key.assignedId in lost, key.assignedId in update);
      }
      assert built.Members() == followed.Members();
      if update == iset{} {
        forall key: PublicKey
          ensures key in built.syncing <==> key in followed.syncing
          ensures key in built.active <==> key in followed.active
        {
          assert KeyAgrees(built, followed, key, key.assignedId in lost, key.assignedId in update);
        }
      }
    }
  }

  lemma KeysAgree(cycles: seq<CycleRecord>)
    requires NoRefreshes(cycles)
    ensures forall key: PublicKey :: KeyAgrees(BuiltLists(cycles), FollowedLists(cycles), key,
      key.assignedId in StillListed(cycles), key.assignedId in UpdatesLost(cycles))
  {
    forall key: PublicKey
      ensures KeyAgrees(BuiltLists(cycles), FollowedLists(cycles), key,
        key.assignedId in StillListed(cycles), key.assignedId in UpdatesLost(cycles))
    {
      OneKeyAgrees(cycles, key.assignedId);
    }
  }

  // For cycles without refreshes, the lists built from the squash are those that following every cycle gives
  // exactly when no listed node was lost after selection and no update was lost to a re-join.
  lemma BuiltAgreesExactly(cycles: seq<CycleRecord>)
    requires NoRefreshes(cycles)
    ensures
      var built, followed := BuiltLists(cycles), FollowedLists(cycles);
      && (built.Members() == followed.Members() <==> StillListed(cycles) == iset{})
      && (built.syncing == followed.syncing && built.active == followed.active <==>
            StillListed(cycles) + UpdatesLost(cycles) == iset{})
  {
    KeysAgree(cycles);
    RostersAgree(BuiltLists(cycles), FollowedLists(cycles), StillListed(cycles), UpdatesLost(cycles));
  }

  // A node that joins and is lost after selection in one cycle stays in the built lists only.
  lemma LostAfterSelectionStaysListed(key: PublicKey, start: nat)
    ensures
      var cycles := [CycleRecord(start, [key], [], [], [], [], [], [], [], [key.assignedId])];
      key in BuiltLists(cycles).Members() && key !in FollowedLists(cycles).Members()
  {
    var cycles := [CycleRecord(start, [key], [], [], [], [], [], [], [], [key.assignedId])];
    OneKeyAgrees(cycles, key.assignedId);
    assert ListedThoughLost(cycles, 1, key.assignedId);
  }

  // ----- building from the newest cycles only -----

  // The lists built from the changes of the cycles from one on.
  function ListsFrom(cycles: seq<CycleRecord>, from: nat): Roster
    requires from <= |cycles|
  {
    BuiltLists(cycles[from..])
  }

  function AnswerFrom(cycles: seq<CycleRecord>, from: nat): Squashed
    requires from <= |cycles|
  {
    Answer(EventsOf(cycles[from..], |cycles| - from))
  }

  // The squash of the cycles from one on has as many nodes, and as many active ones, as that of all cycles.
  ghost predicate HasAll(cycles: seq<CycleRecord>, from: nat)
    requires from <= |cycles|
  {
    && |AnswerFrom(cycles, from).added| >= |AnswerFrom(cycles, 0).added|
    && |AnswerFrom(cycles, from).updated| >= |AnswerFrom(cycles, 0).updated|
  }

  lemma {:induction false} EventsSplit(cycles: seq<CycleRecord>, from: nat, k: nat)
    requires from <= k <= |cycles|
    ensures EventsOf(cycles, k) == EventsOf(cycles, from) + EventsOf(cycles[from..], k - from)
  {
    if from == k {
      assert EventsOf(cycles, from) + [] == EventsOf(cycles, from);
    } else {
      EventsSplit(cycles, from, k - 1);
      assert cycles[from..][k - 1 - from] == cycles[k - 1];
      Regroup(
        EventsOf(cycles, from), EventsOf(cycles[from..], k - 1 - from), Events(ParseRecord(cycles[k - 1])));
    }
  }

  lemma PartsAreApart<T>(front: seq<T>, back: seq<T>)
    requires Distinct(front + back)
    ensures forall x :: x in front ==> x !in back
  {
    forall i, j | 0 <= i < |front| && 0 <= j < |back| ensures front[i] != back[j] {
      assert (front + back)[i] == front[i] && (front + back)[|front| + j] == back[j];
    }
  }

  lemma SomeElement<T>(front: seq<T>, back: seq<T>)
    requires front != []
    ensures exists x :: x in front && x in front + back
  {
    assert front[0] in front + back;
  }

  // A suffix without repetition that has every element is the whole.
  lemma SuffixIsWhole<T>(front: seq<T>, back: seq<T>)
    requires Distinct(front + back) && forall x :: x in front + back ==> x in back
    ensures front == []
  {
    PartsAreApart(front, back);
    if front != [] {
      SomeElement(front, back);
    }
  }

  lemma {:induction false} UpdatesDistinct(order: seq<Joined>, latest: map<nat, Update>)
    requires DistinctIds(order) && forall k :: k in latest ==> latest[k].id == k
    ensures Distinct(UpdatedIds(UpdatesOf(order, latest)))
  {
    if order != [] {
      var front, last := order[..|order| - 1], order[|order| - 1];
      UpdatesDistinct(front, latest);
      UpdatedAre(front, latest, last.id);
      var more := if last.id in latest then [latest[last.id]] else [];
      assert UpdatedIds(UpdatesOf(order, latest)) == UpdatedIds(UpdatesOf(front, latest)) + UpdatedIds(more);
    }
  }

  // What a squash of any events answers: distinct nodes, distinct updates, and the lists built from them.
  lemma AnswerIsDistinct(events: seq<Event>)
    ensures Distinct(AddedKeys(Answer(events).added)) && Distinct(UpdatedIds(Answer(events).updated))
  {
    var nodes := Replay(NoNodes, events);
    SquashIsReplay(events);
    ReplayWellFormed(NoNodes, events);
    UpdatesDistinct(nodes.order, nodes.latest);
  }

  lemma AnswerIsListed(events: seq<Event>, id: nat)
    ensures PublicKey(id) in AddedKeys(Answer(events).added) <==> PublicKey(id) in ListsOf(events).Members()
    ensures id in UpdatedIds(Answer(events).updated) <==> PublicKey(id) in ListsOf(events).active
  {
    var nodes := Replay(NoNodes, events);
    SquashIsReplay(events);
    ReplayWellFormed(NoNodes, events);
    BuiltMirrors(events, id);
    AddedAre(nodes.order, id);
    UpdatedAre(nodes.order, nodes.latest, id);
  }

  // The answer to all events has the one to the newer events as its end.
  lemma AnswerGrows(older: seq<Event>, newer: seq<Event>) returns (keys: seq<PublicKey>, ids: seq<nat>)
    ensures AddedKeys(Answer(older + newer).added) == keys + AddedKeys(Answer(newer).added)
    ensures UpdatedIds(Answer(older + newer).updated) == ids + UpdatedIds(Answer(newer).updated)
  {
    AbsorbAllConcat(NothingSquashed, older, newer);
    var added, updated := OlderOnlyPrepend(Answer(newer), older);
    keys, ids := AddedKeys(added), UpdatedIds(updated);
  }

  // Newer events whose lists are those of all events give as many nodes and updates.
  lemma SameListsMeanAll(older: seq<Event>, newer: seq<Event>)
    requires ListsOf(newer).Members() == ListsOf(older + newer).Members()
    requires ListsOf(newer).active == ListsOf(older + newer).active
    ensures |Answer(newer).added| >= |Answer(older + newer).added|
    ensures |Answer(newer).updated| >= |Answer(older + newer).updated|
  {
    var keys, ids := AnswerGrows(older, newer);
    AnswerIsDistinct(older + newer);
    forall key | key in AddedKeys(Answer(older + newer).added) ensures key in AddedKeys(Answer(newer).added) {
      AnswerIsListed(newer, key.assignedId);
      AnswerIsListed(older + newer, key.assignedId);
    }
    SuffixIsWhole(keys, AddedKeys(Answer(newer).added));
    forall id | id in UpdatedIds(Answer(older + newer).updated) ensures id in UpdatedIds(Answer(newer).updated) {
      AnswerIsListed(newer, id);
      AnswerIsListed(older + newer, id);
    }
    SuffixIsWhole(ids, UpdatedIds(Answer(newer).updated));
  }

  // The lists built from the newest cycles are those built from all of them exactly when their squash has as many
  // nodes, and as many active ones.
  lemma StoppedExactly(cycles: seq<CycleRecord>, from: nat)
    requires from <= |cycles|
    ensures ListsFrom(cycles, from) == BuiltLists(cycles) <==> HasAll(cycles, from)
  {
    var older, newer := EventsOf(cycles, from), EventsOf(cycles[from..], |cycles| - from);
    assert cycles[0..] == cycles;
    EventsSplit(cycles, from, |cycles|);
    SquashIsReplay(older + newer);
    EnoughIsAll(older, newer);
    if ListsFrom(cycles, from) == BuiltLists(cycles) {
      SameListsMeanAll(older, newer);
    }
  }

  // The changes of the cycles before the last one, from the newest to the oldest.
  function EarlierChanges(cycles: seq<CycleRecord>): seq<Change>
    requires cycles != []
  {
    seq(|cycles| - 1, i requires 0 <= i < |cycles| - 1 => ParseRecord(cycles[|cycles| - 2 - i]))
  }

  lemma FirstEvents(cycles: seq<CycleRecord>)
    requires cycles != []
    ensures EventsOf(cycles, |cycles|) ==
      Events(ParseRecord(cycles[0])) + EventsOf(cycles[1..], |cycles| - 1)
  {
    EventsSplit(cycles, 1, |cycles|);
    assert EventsOf(cycles, 0) == [];
    assert EventsOf(cycles, 1) == [] + Events(ParseRecord(cycles[0])) == Events(ParseRecord(cycles[0]));
  }

  lemma NextNewest(changes: seq<Change>, change: Change, last: seq<Event>)
    ensures EventsNewestFirst(changes + [change]) + last == Events(change) + (EventsNewestFirst(changes) + last)
  {
    assert (changes + [change])[..|changes|] == changes;
    Regroup(Events(change), EventsNewestFirst(changes), last);
  }

  // The last cycle and the k before it.
  lemma {:induction false} NewestEvents(cycles: seq<CycleRecord>, k: nat)
    requires k < |cycles|
    ensures EventsNewestFirst(EarlierChanges(cycles)[..k]) + Events(ParseRecord(cycles[|cycles| - 1]))
         == EventsOf(cycles[|cycles| - 1 - k..], k + 1)
  {
    var last, newest := Events(ParseRecord(cycles[|cycles| - 1])), cycles[|cycles| - 1 - k..];
    FirstEvents(newest);
    if k == 0 {
      assert EventsOf(newest[1..], 0) == [] && [] + last == last + [];
    } else {
      var changes := EarlierChanges(cycles)[..k - 1];
      NewestEvents(cycles, k - 1);
      assert EarlierChanges(cycles)[..k] == changes + [ParseRecord(newest[0])];
      NextNewest(changes, ParseRecord(newest[0]), last);
      assert newest[1..] == cycles[|cycles| - k..];
    }
  }

  // Older cycles only add nodes and updates.
  lemma NoFewer(cycles: seq<CycleRecord>, from: nat)
    requires from <= |cycles|
    ensures |AnswerFrom(cycles, from).added| <= |AnswerFrom(cycles, 0).added|
    ensures |AnswerFrom(cycles, from).updated| <= |AnswerFrom(cycles, 0).updated|
  {
    assert cycles[0..] == cycles;
    EventsSplit(cycles, from, |cycles|);
    var keys, ids := AnswerGrows(EventsOf(cycles, from), EventsOf(cycles[from..], |cycles| - from));
  }

  // The squash of the cycles from one on has the wanted numbers of active and of all nodes.
  ghost predicate Suffices(cycles: seq<CycleRecord>, from: nat, activeCount: int, totalCount: int)
    requires from <= |cycles|
  {
    |AnswerFrom(cycles, from).updated| >= activeCount && |AnswerFrom(cycles, from).added| >= totalCount
  }

  // buildNodeListFromStoredCycle on empty lists, for the stored cycles, the last stored one at the end. The cycles
  // before it are squashed from the newest on until the wanted numbers are reached; if they never are, it throws.
  method BuildNodeListFromStoredCycle(lists: Lists, cycles: seq<CycleRecord>, activeCount: int, totalCount: int)
    returns (from: nat, thrown: bool)
    requires lists.Valid() && lists.AsRoster() == Roster({}, {}, {}) && lists.byId.Keys == {} && cycles != []
    modifies lists, lists.entries
    ensures lists.Valid() && from < |cycles| && (|cycles| > 1 ==> from < |cycles| - 1)
    ensures forall j :: from < j < |cycles| - 1 ==> !Suffices(cycles, j, activeCount, totalCount)
    ensures thrown <==> |cycles| == 1 || !Suffices(cycles, 0, activeCount, totalCount)
    ensures lists.AsRoster() == if thrown then Roster({}, {}, {}) else ListsFrom(cycles, from)
    ensures !thrown ==> (lists.AsRoster() == BuiltLists(cycles) <==> HasAll(cycles, from))
    ensures !thrown && activeCount == |AnswerFrom(cycles, 0).updated| && totalCount == |AnswerFrom(cycles, 0).added| ==>
      lists.AsRoster() == BuiltLists(cycles)
  {
    var added, updated;
    from, added, updated := SquashStoredCycles(cycles, activeCount, totalCount);
    StoppedExactly(cycles, from);
    NoFewer(cycles, from);
    thrown := |cycles| == 1 || |updated| < activeCount || |added| < totalCount;
    if !thrown {
      ApplyNodeListChange(lists, added, updated);
    }
  }

  // The squash of the last cycle and the k before it is that of the cycles from there on.
  lemma NewestSquash(cycles: seq<CycleRecord>, k: nat)
    requires k < |cycles|
    ensures SquashOf(EarlierChanges(cycles), k, Events(ParseRecord(cycles[|cycles| - 1])))
         == AnswerFrom(cycles, |cycles| - 1 - k)
  {
    NewestEvents(cycles, k);
  }

  // Where the squash of the newest cycles is short, they do not suffice.
  lemma ShortBehind(cycles: seq<CycleRecord>, from: nat, activeCount: int, totalCount: int)
    requires from < |cycles|
    requires
      var last := Events(ParseRecord(cycles[|cycles| - 1]));
      forall k :: 0 < k < |cycles| - 1 - from ==>
        IsShort(SquashOf(EarlierChanges(cycles), k, last), activeCount, totalCount)
    ensures forall j :: from < j < |cycles| - 1 ==> !Suffices(cycles, j, activeCount, totalCount)
  {
    forall j | from < j < |cycles| - 1 ensures !Suffices(cycles, j, activeCount, totalCount) {
      NewestSquash(cycles, |cycles| - 1 - j);
    }
  }

  // The last change, then earlier ones until there are enough.
  method SquashNewest(earlier: seq<Change>, last: Change, activeCount: int, totalCount: int)
    returns (prepended: nat, added: seq<Joined>, updated: seq<Update>)
    ensures prepended <= |earlier| && (earlier != [] ==> prepended > 0)
    ensures added == SquashOf(earlier, prepended, Events(last)).added
    ensures updated == SquashOf(earlier, prepended, Events(last)).updated
    ensures prepended < |earlier| ==> |updated| >= activeCount && |added| >= totalCount
    ensures forall k :: 0 < k < prepended ==> IsShort(SquashOf(earlier, k, Events(last)), activeCount, totalCount)
  {
    var squasher := new Squasher();
    squasher.AddChange(last);
    prepended := squasher.SquashUntilEnough(earlier, activeCount, totalCount, Events(last));
    added, updated := squasher.added, squasher.updated;
  }

  method SquashStoredCycles(cycles: seq<CycleRecord>, activeCount: int, totalCount: int)
    returns (from: nat, added: seq<Joined>, updated: seq<Update>)
    requires cycles != []
    ensures from < |cycles| && added == AnswerFrom(cycles, from).added && updated == AnswerFrom(cycles, from).updated
    ensures from > 0 ==> |cycles| == 1 || Suffices(cycles, from, activeCount, totalCount)
    ensures |cycles| > 1 ==> from < |cycles| - 1
    ensures forall j :: from < j < |cycles| - 1 ==> !Suffices(cycles, j, activeCount, totalCount)
  {
    var prepended;
    prepended, added, updated := SquashNewest(EarlierChanges(cycles), ParseRecord(cycles[|cycles| - 1]), activeCount,
                                              totalCount);
    from := |cycles| - 1 - prepended;
    NewestSquash(cycles, prepended);
    ShortBehind(cycles, from, activeCount, totalCount);
  }
}
