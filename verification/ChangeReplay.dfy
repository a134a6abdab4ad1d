/** What a run of node list changes means: replaying them from the oldest to the newest. */
module ChangeReplay {
  datatype Joined = Joined(id: nat, publicKey: nat)

  datatype Update = Update(id: nat, activeTimestamp: nat)

  datatype Change = Change(added: seq<Joined>, removed: seq<nat>, updated: seq<Update>)

  // One change is a series of events: its joins, its updates, its removals. Where a change updates an id
  // more than once, the update listed first has the last word.
  datatype Event = Join(node: Joined) | Touch(update: Update) | Leave(id: nat)

  function Joins(added: seq<Joined>): seq<Event> {
    seq(|added|, i requires 0 <= i < |added| => Join(added[i]))
  }

  function Touches(updated: seq<Update>): seq<Event> {
    seq(|updated|, i requires 0 <= i < |updated| => Touch(updated[|updated| - 1 - i]))
  }

  function Leaves(removed: seq<nat>): seq<Event> {
    seq(|removed|, i requires 0 <= i < |removed| => Leave(removed[i]))
  }

  function Events(change: Change): seq<Event> {
    Joins(change.added) + Touches(change.updated) + Leaves(change.removed)
  }

  // The events of changes listed from the newest to the oldest, in the order they happened.
  function EventsNewestFirst(changes: seq<Change>): seq<Event> {
    if changes == [] then [] else Events(changes[|changes| - 1]) + EventsNewestFirst(changes[..|changes| - 1])
  }

  // The nodes present, in join order, and the newest update each has had since it joined.
  datatype Nodes = Nodes(order: seq<Joined>, latest: map<nat, Update>)

  function Without(order: seq<Joined>, id: nat): seq<Joined> {
    if order == [] then []
    else if order[|order| - 1].id == id then Without(order[..|order| - 1], id)
    else Without(order[..|order| - 1], id) + [order[|order| - 1]]
  }

  predicate Present(order: seq<Joined>, id: nat) {
    exists k :: 0 <= k < |order| && order[k].id == id
  }

  // A join of a present id starts that node afresh: it moves to the end and loses its update.
  function Apply(nodes: Nodes, event: Event): Nodes {
    match event
    case Join(node) => Nodes(Without(nodes.order, node.id) + [node], nodes.latest - {node.id})
    case Touch(update) =>
      if Present(nodes.order, update.id) then nodes.(latest := nodes.latest[update.id := update]) else nodes
    case Leave(id) => Nodes(Without(nodes.order, id), nodes.latest - {id})
  }

  function Replay(nodes: Nodes, events: seq<Event>): Nodes
    decreases events
  {
    if events == [] then nodes else Replay(Apply(nodes, events[0]), events[1..])
  }

  const NoNodes := Nodes([], map[])

  // The updates of the present nodes, in join order.
  function UpdatesOf(order: seq<Joined>, latest: map<nat, Update>): seq<Update> {
    if order == [] then [] else
      var last := order[|order| - 1].id;
      UpdatesOf(order[..|order| - 1], latest) + (if last in latest then [latest[last]] else [])
  }

  ghost predicate DistinctIds(order: seq<Joined>) {
    forall i, j :: 0 <= i < j < |order| ==> order[i].id != order[j].id
  }

  // ----- basic facts -----

  lemma UpdatesOfSnoc(order: seq<Joined>, node: Joined, latest: map<nat, Update>)
    ensures UpdatesOf(order + [node], latest) ==
      UpdatesOf(order, latest) + (if node.id in latest then [latest[node.id]] else [])
  {
    assert (order + [node])[..|order|] == order;
  }

  lemma {:induction false} WithoutPresent(order: seq<Joined>, id: nat, other: nat)
    ensures Present(Without(order, id), other) <==> Present(order, other) && other != id
  {
    if order != [] {
      var front, last := order[..|order| - 1], order[|order| - 1];
      WithoutPresent(front, id, other);
      assert order == front + [last];
      PresentSnoc(front, last, other);
      PresentSnoc(Without(front, id), last, other);
    }
  }

  lemma PresentSnoc(order: seq<Joined>, node: Joined, id: nat)
    ensures Present(order + [node], id) <==> Present(order, id) || node.id == id
  {
    if Present(order, id) {
      var k :| 0 <= k < |order| && order[k].id == id;
      assert (order + [node])[k].id == id;
    }
    if node.id == id {
      assert (order + [node])[|order|].id == id;
    }
  }

  // Every replayed state lists each id once and keeps updates of present ids only.
  ghost predicate WellFormed(nodes: Nodes) {
    && DistinctIds(nodes.order)
    && forall id :: id in nodes.latest ==> Present(nodes.order, id) && nodes.latest[id].id == id
  }

  lemma {:induction false} WithoutDistinct(order: seq<Joined>, id: nat)
    requires DistinctIds(order)
    ensures DistinctIds(Without(order, id)) && !Present(Without(order, id), id)
  {
    if order != [] {
      var front, last := order[..|order| - 1], order[|order| - 1];
      WithoutDistinct(front, id);
      WithoutPresent(front, id, last.id);
      PresentSnoc(Without(front, id), last, id);
    }
  }

  lemma ApplyWellFormed(nodes: Nodes, event: Event)
    requires WellFormed(nodes)
    ensures WellFormed(Apply(nodes, event))
  {
    if !event.Touch? {
      var id := if event.Join? then event.node.id else event.id;
      WithoutDistinct(nodes.order, id);
      forall other | other in nodes.latest && other != id
        ensures Present(Apply(nodes, event).order, other)
      {
        WithoutPresent(nodes.order, id, other);
        if event.Join? { PresentSnoc(Without(nodes.order, id), event.node, other); }
      }
    }
  }

  lemma {:induction false} ReplayWellFormed(nodes: Nodes, events: seq<Event>)
    requires WellFormed(nodes)
    ensures WellFormed(Replay(nodes, events))
    decreases events
  {
    if events != [] {
      ApplyWellFormed(nodes, events[0]);
      ReplayWellFormed(Apply(nodes, events[0]), events[1..]);
    }
  }
}
