/** Squashing changes from the newest to the oldest (src/Data/CycleParser.ts:43-98, src/Data/Data.ts:1230-1259). */
module ChangeSquasher {
  import opened Basics
  import opened ChangeReplay

  // ----- one event at a time, newest first -----

  datatype Squashed = Squashed(
    added: seq<Joined>,
    updated: seq<Update>,
    removedIds: set<nat>,
    seenUpdates: map<nat, Update>,
    addedIds: set<nat>)

  const NothingSquashed := Squashed([], [], {}, map[], {})

  function Absorb(s: Squashed, event: Event): Squashed {
    match event
    case Leave(id) => s.(removedIds := s.removedIds + {id})
    case Touch(update) =>
      if update.id in s.removedIds || update.id in s.seenUpdates then s
      else s.(seenUpdates := s.seenUpdates[update.id := update])
    case Join(node) =>
      if node.id in s.addedIds || node.id in s.removedIds then s else
        Squashed(
          [node] + s.added,
          (if node.id in s.seenUpdates then [s.seenUpdates[node.id]] else []) + s.updated,
          s.removedIds,
          s.seenUpdates - {node.id},
          s.addedIds + {node.id})
  }

  // Absorbs a run of events from its last to its first.
  function AbsorbAll(s: Squashed, events: seq<Event>): Squashed
    decreases events
  {
    if events == [] then s else AbsorbAll(Absorb(s, events[|events| - 1]), events[..|events| - 1])
  }

  // ----- what a partial squash means -----

  // The nodes of an older state that the squashed newer events leave alone.
  function Kept(order: seq<Joined>, gone: set<nat>): seq<Joined> {
    if order == [] then [] else
      var front, last := Kept(order[..|order| - 1], gone), order[|order| - 1];
      if last.id in gone then front else front + [last]
  }

  // Any older state, continued with the squashed newer events: join order and updates in join order.
  function Continue(nodes: Nodes, s: Squashed): (seq<Joined>, seq<Update>) {
    var kept := Kept(nodes.order, s.removedIds + s.addedIds);
    (kept + s.added, UpdatesOf(kept, nodes.latest + s.seenUpdates) + s.updated)
  }

  lemma KeptSnoc(order: seq<Joined>, node: Joined, gone: set<nat>)
    ensures Kept(order + [node], gone) == if node.id in gone then Kept(order, gone) else Kept(order, gone) + [node]
  {
    assert (order + [node])[..|order|] == order;
  }

  lemma {:induction false} KeptWithout(order: seq<Joined>, id: nat, gone: set<nat>)
    ensures Kept(Without(order, id), gone) == Kept(order, gone + {id})
  {
    if order != [] {
      var front, last := order[..|order| - 1], order[|order| - 1];
      KeptWithout(front, id, gone);
      KeptSnoc(Without(front, id), last, gone);
    }
  }

  lemma {:induction false} KeptElements(order: seq<Joined>, gone: set<nat>)
    ensures forall k :: 0 <= k < |Kept(order, gone)| ==>
      Kept(order, gone)[k].id !in gone && Present(order, Kept(order, gone)[k].id)
  {
    if order != [] {
      var front, last := order[..|order| - 1], order[|order| - 1];
      KeptElements(front, gone);
      assert order == front + [last];
      forall k | 0 <= k < |Kept(order, gone)|
        ensures Present(order, Kept(order, gone)[k].id)
      {
        PresentSnoc(front, last, Kept(order, gone)[k].id);
      }
    }
  }

  // Only the updates of the listed ids matter.
  lemma {:induction false} UpdatesAgree(order: seq<Joined>, a: map<nat, Update>, b: map<nat, Update>)
    requires forall k :: 0 <= k < |order| ==> SameUpdate(a, b, order[k].id)
    ensures UpdatesOf(order, a) == UpdatesOf(order, b)
  {
    if order != [] {
      UpdatesAgree(order[..|order| - 1], a, b);
    }
  }

  // The heart: absorbing the next older event is the same as applying it first.
  lemma AbsorbIsApply(nodes: Nodes, s: Squashed, event: Event)
    ensures Continue(nodes, Absorb(s, event)) == Continue(Apply(nodes, event), s)
  {
    match event {
      case Leave(id) => AbsorbLeave(nodes, s, id);
      case Touch(update) => AbsorbTouch(nodes, s, update);
      case Join(node) => AbsorbJoin(nodes, s, node);
    }
  }

  lemma AbsorbLeave(nodes: Nodes, s: Squashed, id: nat)
    ensures Continue(nodes, Absorb(s, Leave(id))) == Continue(Apply(nodes, Leave(id)), s)
  {
    var gone := s.removedIds + s.addedIds;
    KeptWithout(nodes.order, id, gone);
    assert s.removedIds + {id} + s.addedIds == gone + {id};
    KeptElements(nodes.order, gone + {id});
    UpdatesAgree(Kept(nodes.order, gone + {id}), nodes.latest + s.seenUpdates, nodes.latest - {id} + s.seenUpdates);
  }

  lemma AbsorbTouch(nodes: Nodes, s: Squashed, update: Update)
    ensures Continue(nodes, Absorb(s, Touch(update))) == Continue(Apply(nodes, Touch(update)), s)
  {
    var kept := Kept(nodes.order, s.removedIds + s.addedIds);
    KeptElements(nodes.order, s.removedIds + s.addedIds);
    forall k | 0 <= k < |kept|
      ensures SameUpdate(TouchedLater(nodes, s, update), TouchedFirst(nodes, s, update), kept[k].id)
    {
      TouchAgrees(nodes, s, update, kept[k].id);
    }
    UpdatesAgree(kept, TouchedLater(nodes, s, update), TouchedFirst(nodes, s, update));
  }

  // The newest updates when an update is absorbed by the squash, and when it is applied before it.
  function TouchedLater(nodes: Nodes, s: Squashed, update: Update): map<nat, Update> {
    nodes.latest + Absorb(s, Touch(update)).seenUpdates
  }

  function TouchedFirst(nodes: Nodes, s: Squashed, update: Update): map<nat, Update> {
    Apply(nodes, Touch(update)).latest + s.seenUpdates
  }

  predicate SameUpdate(a: map<nat, Update>, b: map<nat, Update>, id: nat) {
    (id in a <==> id in b) && (id in a ==> a[id] == b[id])
  }

  lemma TouchAgrees(nodes: Nodes, s: Squashed, update: Update, id: nat)
    requires id !in s.removedIds && Present(nodes.order, id)
    ensures SameUpdate(TouchedLater(nodes, s, update), TouchedFirst(nodes, s, update), id)
  {
  }

  lemma AbsorbJoin(nodes: Nodes, s: Squashed, node: Joined)
    ensures Continue(nodes, Absorb(s, Join(node))) == Continue(Apply(nodes, Join(node)), s)
  {
    KeptSnoc(Without(nodes.order, node.id), node, s.removedIds + s.addedIds);
    KeptWithout(nodes.order, node.id, s.removedIds + s.addedIds);
    if node.id in s.removedIds + s.addedIds {
      assert s.removedIds + s.addedIds + {node.id} == s.removedIds + s.addedIds;
      OlderUpdates(nodes, s, node.id, s.seenUpdates);
    } else {
      AbsorbNewJoin(nodes, s, node);
    }
  }

  // The update of `id` plays no part for the nodes kept without it.
  lemma OlderUpdates(nodes: Nodes, s: Squashed, id: nat, seen: map<nat, Update>)
    requires seen - {id} == s.seenUpdates - {id}
    ensures
      var older := Kept(nodes.order, s.removedIds + s.addedIds + {id});
      UpdatesOf(older, nodes.latest + seen) == UpdatesOf(older, nodes.latest - {id} + s.seenUpdates)
  {
    var older := Kept(nodes.order, s.removedIds + s.addedIds + {id});
    KeptElements(nodes.order, s.removedIds + s.addedIds + {id});
    forall k | 0 <= k < |older|
      ensures older[k].id in seen <==> older[k].id in s.seenUpdates
      ensures older[k].id in seen ==> seen[older[k].id] == s.seenUpdates[older[k].id]
    {
      assert older[k].id in seen <==> older[k].id in seen - {id};
      assert older[k].id in s.seenUpdates <==> older[k].id in s.seenUpdates - {id};
    }
    UpdatesAgree(older, nodes.latest + seen, nodes.latest - {id} + s.seenUpdates);
  }

  lemma AbsorbNewJoin(nodes: Nodes, s: Squashed, node: Joined)
    requires node.id !in s.removedIds + s.addedIds
    requires Kept(Without(nodes.order, node.id) + [node], s.removedIds + s.addedIds)
          == Kept(nodes.order, s.removedIds + s.addedIds + {node.id}) + [node]
    ensures Continue(nodes, Absorb(s, Join(node))) == Continue(Apply(nodes, Join(node)), s)
  {
    var older := Kept(nodes.order, s.removedIds + s.addedIds + {node.id});
    var latest := nodes.latest - {node.id} + s.seenUpdates;
    var own := if node.id in s.seenUpdates then [s.seenUpdates[node.id]] else [];
    assert s.removedIds + (s.addedIds + {node.id}) == s.removedIds + s.addedIds + {node.id};
    OlderUpdates(nodes, s, node.id, s.seenUpdates - {node.id});
    UpdatesOfSnoc(older, node, latest);
    Regroup(older, [node], s.added);
    Regroup(UpdatesOf(older, latest), own, s.updated);
  }

  lemma {:induction false} AbsorbAllIsReplay(nodes: Nodes, s: Squashed, events: seq<Event>)
    ensures Continue(nodes, AbsorbAll(s, events)) == Continue(Replay(nodes, events), s)
    decreases events
  {
    if events != [] {
      var front, last := events[..|events| - 1], events[|events| - 1];
      AbsorbAllIsReplay(nodes, Absorb(s, last), front);
      AbsorbIsApply(Replay(nodes, front), s, last);
      assert events == front + [last];
      ReplaySnoc(nodes, front, last);
    }
  }

  lemma {:induction false} ReplaySnoc(nodes: Nodes, events: seq<Event>, event: Event)
    ensures Replay(nodes, events + [event]) == Apply(Replay(nodes, events), event)
    decreases events
  {
    if events == [] {
      assert (events + [event])[1..] == [];
    } else {
      assert (events + [event])[1..] == events[1..] + [event];
      ReplaySnoc(Apply(nodes, events[0]), events[1..], event);
    }
  }

  // ----- the main results -----

  // Squashing everything, newest to oldest, gives the same nodes in the same order, with the same
  // updates, as replaying everything, oldest to newest.
  lemma SquashIsReplay(events: seq<Event>)
    ensures
      var s, nodes := AbsorbAll(NothingSquashed, events), Replay(NoNodes, events);
      && s.added == nodes.order && DistinctIds(s.added)
      && s.updated == UpdatesOf(nodes.order, nodes.latest)
  {
    AbsorbAllIsReplay(NoNodes, NothingSquashed, events);
    ContinueNoNodes(AbsorbAll(NothingSquashed, events));
    ContinueWithNothing(Replay(NoNodes, events));
    ReplayWellFormed(NoNodes, events);
  }

  lemma ContinueNoNodes(s: Squashed)
    ensures Continue(NoNodes, s) == (s.added, s.updated)
  {
    assert [] + s.added == s.added && [] + s.updated == s.updated;
  }

  lemma ContinueWithNothing(nodes: Nodes)
    ensures Continue(nodes, NothingSquashed) == (nodes.order, UpdatesOf(nodes.order, nodes.latest))
  {
    KeepAll(nodes.order);
    assert NothingSquashed.removedIds + NothingSquashed.addedIds == {};
    assert nodes.latest + map[] == nodes.latest;
    assert nodes.order + [] == nodes.order;
    assert UpdatesOf(nodes.order, nodes.latest) + [] == UpdatesOf(nodes.order, nodes.latest);
  }

  lemma {:induction false} KeepAll(order: seq<Joined>)
    ensures Kept(order, {}) == order
  {
    if order != [] {
      KeepAll(order[..|order| - 1]);
    }
  }

  // Older events only prepend to what newer ones have given.
  lemma {:induction false} OlderOnlyPrepend(s: Squashed, older: seq<Event>)
    returns (added: seq<Joined>, updated: seq<Update>)
    ensures AbsorbAll(s, older).added == added + s.added
    ensures AbsorbAll(s, older).updated == updated + s.updated
    decreases older
  {
    if older == [] {
      added, updated := [], [];
    } else {
      var next := Absorb(s, older[|older| - 1]);
      added, updated := OlderOnlyPrepend(next, older[..|older| - 1]);
      var ownAdded, ownUpdated := next.added[..|next.added| - |s.added|], next.updated[..|next.updated| - |s.updated|];
      assert next.added == ownAdded + s.added && next.updated == ownUpdated + s.updated;
      added, updated := added + ownAdded, updated + ownUpdated;
    }
  }

  lemma {:induction false} AbsorbAllConcat(s: Squashed, older: seq<Event>, newer: seq<Event>)
    ensures AbsorbAll(s, older + newer) == AbsorbAll(AbsorbAll(s, newer), older)
    decreases newer
  {
    if newer == [] {
      assert older + newer == older;
    } else {
      var front, last := newer[..|newer| - 1], newer[|newer| - 1];
      assert (older + newer)[..|older + newer| - 1] == older + front;
      AbsorbAllConcat(Absorb(s, last), older, front);
    }
  }

  // The answer is that of a full replay.
  ghost predicate IsAnswer(added: seq<Joined>, updated: seq<Update>, nodes: Nodes) {
    added == nodes.order && updated == UpdatesOf(nodes.order, nodes.latest)
  }

  // Newer events alone give the full answer exactly when they give as many nodes and updates.
  lemma EnoughIsAll(older: seq<Event>, newer: seq<Event>)
    ensures
      var s, nodes := AbsorbAll(NothingSquashed, newer), Replay(NoNodes, older + newer);
      IsAnswer(s.added, s.updated, nodes) <==>
        |s.added| >= |nodes.order| && |s.updated| >= |UpdatesOf(nodes.order, nodes.latest)|
  {
    SquashIsReplay(older + newer);
    EnoughIsFull(NothingSquashed, older, newer);
  }

  lemma EnoughIsFull(start: Squashed, older: seq<Event>, newer: seq<Event>)
    ensures
      var s, full := AbsorbAll(start, newer), AbsorbAll(start, older + newer);
      && (|s.added| >= |full.added| ==> s.added == full.added)
      && (|s.updated| >= |full.updated| ==> s.updated == full.updated)
  {
    var s, full := AbsorbAll(start, newer), AbsorbAll(start, older + newer);
    AbsorbAllConcat(start, older, newer);
    var added, updated := OlderOnlyPrepend(s, older);
    LongSuffix(added, s.added, full.added);
    LongSuffix(updated, s.updated, full.updated);
  }

  lemma LongSuffix<T>(front: seq<T>, back: seq<T>, whole: seq<T>)
    requires whole == front + back
    ensures |back| >= |whole| ==> back == whole
  {
  }

  // ----- a present node that joins again -----

  // The other reading of a join of a present id, which NodeList.addNodes follows: the node stays as it is.
  function ApplyKeeping(nodes: Nodes, event: Event): Nodes {
    if event.Join? && Present(nodes.order, event.node.id) then nodes else Apply(nodes, event)
  }

  function ReplayKeeping(nodes: Nodes, events: seq<Event>): Nodes
    decreases events
  {
    if events == [] then nodes else ReplayKeeping(ApplyKeeping(nodes, events[0]), events[1..])
  }

  // No event joins an id that is present at that point.
  ghost predicate NoRejoin(nodes: Nodes, events: seq<Event>)
    decreases events
  {
    events == [] ||
    (!(events[0].Join? && Present(nodes.order, events[0].node.id)) && NoRejoin(Apply(nodes, events[0]), events[1..]))
  }

  lemma {:induction false} KeepingIsSame(nodes: Nodes, events: seq<Event>)
    requires NoRejoin(nodes, events)
    ensures ReplayKeeping(nodes, events) == Replay(nodes, events)
    decreases events
  {
    if events != [] {
      KeepingIsSame(Apply(nodes, events[0]), events[1..]);
    }
  }

  // When nothing re-joins while present, the squash is also the replay that keeps present nodes.
  lemma SquashIsReplayKeeping(events: seq<Event>)
    requires NoRejoin(NoNodes, events)
    ensures
      var s, nodes := AbsorbAll(NothingSquashed, events), ReplayKeeping(NoNodes, events);
      IsAnswer(s.added, s.updated, nodes)
  {
    SquashIsReplay(events);
    KeepingIsSame(NoNodes, events);
  }

  lemma ReplayThree(nodes: Nodes, a: Event, b: Event, c: Event)
    ensures Replay(nodes, [a, b, c]) == Apply(Apply(Apply(nodes, a), b), c)
    ensures ReplayKeeping(nodes, [a, b, c]) == ApplyKeeping(ApplyKeeping(ApplyKeeping(nodes, a), b), c)
  {
    assert [a, b, c][1..] == [b, c] && [b, c][1..] == [c] && [c][1..] == [];
    calc {
      Replay(nodes, [a, b, c]);
      Replay(Apply(nodes, a), [b, c]);
      Replay(Apply(Apply(nodes, a), b), [c]);
      Replay(Apply(Apply(Apply(nodes, a), b), c), []);
    }
    calc {
      ReplayKeeping(nodes, [a, b, c]);
      ReplayKeeping(ApplyKeeping(nodes, a), [b, c]);
      ReplayKeeping(ApplyKeeping(ApplyKeeping(nodes, a), b), [c]);
      ReplayKeeping(ApplyKeeping(ApplyKeeping(ApplyKeeping(nodes, a), b), c), []);
    }
  }

  lemma Rejoined(node: Joined, update: Update)
    requires update.id == node.id
    ensures
      var touched := Nodes([node], map[node.id := update]);
      && Apply(NoNodes, Join(node)) == ApplyKeeping(NoNodes, Join(node)) == Nodes([node], map[])
      && Apply(Nodes([node], map[]), Touch(update)) == ApplyKeeping(Nodes([node], map[]), Touch(update)) == touched
      && Apply(touched, Join(node)) == Nodes([node], map[]) && ApplyKeeping(touched, Join(node)) == touched
  {
    assert Present([node], node.id) by { assert [node][0].id == node.id; }
    assert Without([node], node.id) == Without([], node.id) == [] by { assert [node][..0] == []; }
    assert map[node.id := update] - {node.id} == map[];
  }

  lemma UpdatesOfOne(node: Joined, latest: map<nat, Update>)
    ensures UpdatesOf([node], latest) == if node.id in latest then [latest[node.id]] else []
  {
    assert [node] == [] + [node];
    UpdatesOfSnoc([], node, latest);
  }

  // A re-join of a present, updated node makes the squash drop its update.
  lemma RejoinLosesUpdate(node: Joined, update: Update)
    requires update.id == node.id
    ensures
      var events := [Join(node), Touch(update), Join(node)];
      && AbsorbAll(NothingSquashed, events).updated == []
      && UpdatesOf(ReplayKeeping(NoNodes, events).order, ReplayKeeping(NoNodes, events).latest) == [update]
  {
    SquashIsReplay([Join(node), Touch(update), Join(node)]);
    ReplayThree(NoNodes, Join(node), Touch(update), Join(node));
    Rejoined(node, update);
    UpdatesOfOne(node, map[]);
    UpdatesOfOne(node, map[node.id := update]);
  }

  // ----- the squasher itself -----

  class Squasher {
    var added: seq<Joined>
    var updated: seq<Update>
    var removedIds: set<nat>
    var seenUpdates: map<nat, Update>
    var addedIds: set<nat>

    function State(): Squashed
      reads this
    {
      Squashed(added, updated, removedIds, seenUpdates, addedIds)
    }

    constructor ()
      ensures State() == NothingSquashed
    {
      added, updated, removedIds, seenUpdates, addedIds := [], [], {}, map[], {};
    }

    method AddChange(change: Change)
      modifies this
      ensures State() == AbsorbAll(old(State()), Events(change))
    {
      AddRemoved(change.removed);
      AddUpdated(change.updated);
      AddAdded(change.added);
      AbsorbAllConcat(old(State()), Joins(change.added) + Touches(change.updated), Leaves(change.removed));
      AbsorbAllConcat(AbsorbAll(old(State()), Leaves(change.removed)), Joins(change.added), Touches(change.updated));
    }

    // The first loop of addChange.
    method AddRemoved(removed: seq<nat>)
      modifies this
      ensures State() == AbsorbAll(old(State()), Leaves(removed))
    {
      LeavesAbsorbed(State(), removed);
      for i := 0 to |removed|
        invariant State() == old(State()).(removedIds := old(removedIds) + set id | id in removed[..i])
      {
        if removed[i] in removedIds {
          continue;
        }
        removedIds := removedIds + {removed[i]};
      }
      assert removed[..|removed|] == removed;
    }

    // The second loop.
    method AddUpdated(changes: seq<Update>)
      modifies this
      ensures State() == AbsorbAll(old(State()), Touches(changes))
    {
      assert changes[0..] == changes;
      for i := 0 to |changes|
        invariant AbsorbAll(State(), Touches(changes[i..])) == AbsorbAll(old(State()), Touches(changes))
      {
        var update := changes[i];
        assert Touches(changes[i..]) == Touches(changes[i + 1..]) + [Touch(update)];
        assert AbsorbAll(State(), Touches(changes[i..])) ==
          AbsorbAll(Absorb(State(), Touch(update)), Touches(changes[i + 1..]));
        if update.id in removedIds {
          continue;
        }
        if update.id in seenUpdates {
          continue;
        }
        seenUpdates := seenUpdates[update.id := update];
      }
    }

    // The third loop, over reversed(change.added).
    method AddAdded(nodes: seq<Joined>)
      modifies this
      ensures State() == AbsorbAll(old(State()), Joins(nodes))
    {
      assert nodes[..|nodes|] == nodes;
      for i := |nodes| downto 0
        invariant AbsorbAll(State(), Joins(nodes[..i])) == AbsorbAll(old(State()), Joins(nodes))
      {
        var node := nodes[i];
        assert Joins(nodes[..i + 1]) == Joins(nodes[..i]) + [Join(node)];
        assert AbsorbAll(State(), Joins(nodes[..i + 1])) == AbsorbAll(Absorb(State(), Join(node)), Joins(nodes[..i]));
        if node.id in addedIds {
          continue;
        }
        if node.id in removedIds {
          continue;
        }
        if node.id in seenUpdates {
          updated := [seenUpdates[node.id]] + updated;
          seenUpdates := seenUpdates - {node.id};
        } else {
          assert seenUpdates - {node.id} == seenUpdates;
          assert [] + updated == updated;
        }
        added := [node] + added;
        addedIds := addedIds + {node.id};
      }
    }

    // The loop over earlier cycles, newest first, which stops once the counts are reached; `newer` is what has been
    // squashed before. As few of them are squashed, but at least one, as reach the counts; reaching the counts of the
    // full replay means having the full replay.
    method SquashUntilEnough(prevCycles: seq<Change>, activeCount: int, totalCount: int, ghost newer: seq<Event>)
      returns (prepended: nat)
      requires State() == AbsorbAll(NothingSquashed, newer)
      modifies this
      ensures prepended <= |prevCycles| && (prevCycles != [] ==> prepended > 0)
      ensures State() == SquashOf(prevCycles, prepended, newer)
      ensures prepended < |prevCycles| ==> |updated| >= activeCount && |added| >= totalCount
      ensures forall k :: 0 < k < prepended ==> IsShort(SquashOf(prevCycles, k, newer), activeCount, totalCount)
      ensures IsAllIfEnough(
        EventsNewestFirst(prevCycles[..prepended]) + newer, added, updated, activeCount, totalCount)
    {
      prepended := 0;
      assert [] + newer == newer;
      while prepended < |prevCycles|
        invariant prepended <= |prevCycles|
        invariant State() == SquashOf(prevCycles, prepended, newer)
        invariant forall k :: 0 < k <= prepended ==> IsShort(SquashOf(prevCycles, k, newer), activeCount, totalCount)
      {
        SquashOneMore(prevCycles, prepended, newer);
        AddChange(prevCycles[prepended]);
        prepended := prepended + 1;
        if |updated| >= activeCount && |added| >= totalCount {
          break;
        }
      }
      EnoughForAnyOlder(EventsNewestFirst(prevCycles[..prepended]) + newer, activeCount, totalCount);
    }
  }

  // Whatever the older events: these nodes and updates are the answer to all events exactly when they are as many, and
  // so when they reach wanted counts that are no smaller.
  ghost predicate IsAllIfEnough(
    squashed: seq<Event>, added: seq<Joined>, updated: seq<Update>, activeCount: int, totalCount: int)
  {
    forall older: seq<Event> ::
      var nodes := Replay(NoNodes, older + squashed);
      && (IsAnswer(added, updated, nodes) <==>
            |added| >= |nodes.order| && |updated| >= |UpdatesOf(nodes.order, nodes.latest)|)
      && (activeCount >= |UpdatesOf(nodes.order, nodes.latest)| && totalCount >= |nodes.order| ==>
            |updated| >= activeCount && |added| >= totalCount ==> IsAnswer(added, updated, nodes))
  }

  lemma EnoughForAnyOlder(squashed: seq<Event>, activeCount: int, totalCount: int)
    ensures
      var s := AbsorbAll(NothingSquashed, squashed);
      IsAllIfEnough(squashed, s.added, s.updated, activeCount, totalCount)
  {
    var s := AbsorbAll(NothingSquashed, squashed);
    forall older: seq<Event>
      ensures
        var nodes := Replay(NoNodes, older + squashed);
        IsAnswer(s.added, s.updated, nodes) <==>
          |s.added| >= |nodes.order| && |s.updated| >= |UpdatesOf(nodes.order, nodes.latest)|
    {
      EnoughIsAll(older, squashed);
    }
  }

  // The squash of the first k of the earlier cycles and the newer events.
  function SquashOf(prevCycles: seq<Change>, k: nat, newer: seq<Event>): Squashed
    requires k <= |prevCycles|
  {
    AbsorbAll(NothingSquashed, EventsNewestFirst(prevCycles[..k]) + newer)
  }

  predicate IsShort(s: Squashed, activeCount: int, totalCount: int) {
    |s.updated| < activeCount || |s.added| < totalCount
  }

  lemma SquashOneMore(prevCycles: seq<Change>, k: nat, newer: seq<Event>)
    requires k < |prevCycles|
    ensures SquashOf(prevCycles, k + 1, newer) == AbsorbAll(SquashOf(prevCycles, k, newer), Events(prevCycles[k]))
  {
    var before := EventsNewestFirst(prevCycles[..k]) + newer;
    assert prevCycles[..k + 1][..k] == prevCycles[..k];
    assert EventsNewestFirst(prevCycles[..k + 1]) + newer == Events(prevCycles[k]) + before;
    AbsorbAllConcat(NothingSquashed, Events(prevCycles[k]), before);
  }

  lemma {:induction false} LeavesAbsorbed(s: Squashed, removed: seq<nat>)
    ensures AbsorbAll(s, Leaves(removed)) == s.(removedIds := s.removedIds + set id | id in removed)
    decreases removed
  {
    if removed == [] {
      assert s.removedIds + (set id | id in removed) == s.removedIds;
    } else {
      var front, last := removed[..|removed| - 1], removed[|removed| - 1];
      assert Leaves(removed)[..|removed| - 1] == Leaves(front);
      LeavesAbsorbed(Absorb(s, Leave(last)), front);
      assert removed == front + [last];
      assert s.removedIds + {last} + (set id | id in front) == s.removedIds + (set id | id in removed);
    }
  }
}
