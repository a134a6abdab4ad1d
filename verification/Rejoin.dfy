/** Exactly when squashing agrees with a replay that leaves a present node as it is when it joins again. */
module Rejoin {
  import opened ChangeReplay
  import opened ChangeSquasher

  // The two readings after the first k events: a re-join starts the node afresh, or leaves it as it is.
  function Fresh(events: seq<Event>, k: nat): Nodes
    requires k <= |events|
  {
    Replay(NoNodes, events[..k])
  }

  function Keeping(events: seq<Event>, k: nat): Nodes
    requires k <= |events|
  {
    ReplayKeeping(NoNodes, events[..k])
  }

  lemma {:induction false} KeepingSnoc(nodes: Nodes, events: seq<Event>, event: Event)
    ensures ReplayKeeping(nodes, events + [event]) == ApplyKeeping(ReplayKeeping(nodes, events), event)
    decreases events
  {
    if events != [] {
      KeepingSnoc(ApplyKeeping(nodes, events[0]), events[1..], event);
      assert (events + [event])[1..] == events[1..] + [event];
    }
  }

  lemma NextStates(events: seq<Event>, k: nat)
    requires k < |events|
    ensures Fresh(events, k + 1) == Apply(Fresh(events, k), events[k])
    ensures Keeping(events, k + 1) == ApplyKeeping(Keeping(events, k), events[k])
  {
    assert events[..k + 1] == events[..k] + [events[k]];
    ReplaySnoc(NoNodes, events[..k], events[k]);
    KeepingSnoc(NoNodes, events[..k], events[k]);
  }

  // ----- the joins of a node's current stay -----

  // The first and the last join of each present node since it was last absent.
  function FirstJoins(events: seq<Event>, k: nat): (at: map<nat, nat>)
    requires k <= |events|
    ensures forall id :: id in at ==> at[id] < k
  {
    if k == 0 then map[] else
      var before := FirstJoins(events, k - 1);
      match events[k - 1]
      case Join(node) => if node.id in before then before else before[node.id := k - 1]
      case Touch(_) => before
      case Leave(id) => before - {id}
  }

  function LastJoins(events: seq<Event>, k: nat): (at: map<nat, nat>)
    requires k <= |events|
    ensures forall id :: id in at ==> at[id] < k
  {
    if k == 0 then map[] else
      var before := LastJoins(events, k - 1);
      match events[k - 1]
      case Join(node) => before[node.id := k - 1]
      case Touch(_) => before
      case Leave(id) => before - {id}
  }

  // The order lists the node of each of these joins, in the order of the joins.
  ghost predicate OrderedBy(events: seq<Event>, k: nat, order: seq<Joined>, at: map<nat, nat>)
    requires k <= |events|
  {
    && (forall p :: 0 <= p < |order| ==>
          order[p].id in at && at[order[p].id] < k && events[at[order[p].id]] == Join(order[p]))
    && (forall p, q :: 0 <= p < q < |order| ==> at[order[p].id] < at[order[q].id])
    && (forall id :: id in at ==> Present(order, id))
  }

  lemma {:induction false} WithoutElements(order: seq<Joined>, id: nat)
    ensures forall x :: x in Without(order, id) <==> x in order && x.id != id
  {
    if order != [] {
      WithoutElements(order[..|order| - 1], id);
      assert order == order[..|order| - 1] + [order[|order| - 1]];
    }
  }

  lemma {:induction false} WithoutAscends(order: seq<Joined>, id: nat, at: map<nat, nat>)
    requires forall p :: 0 <= p < |order| ==> order[p].id in at
    requires forall p, q :: 0 <= p < q < |order| ==> at[order[p].id] < at[order[q].id]
    ensures forall p :: 0 <= p < |Without(order, id)| ==> Without(order, id)[p].id in at
    ensures forall p, q :: 0 <= p < q < |Without(order, id)| ==>
      at[Without(order, id)[p].id] < at[Without(order, id)[q].id]
  {
    if order != [] {
      var front, last := order[..|order| - 1], order[|order| - 1];
      WithoutAscends(front, id, at);
      WithoutElements(front, id);
      forall x | x in Without(front, id) ensures at[x.id] < at[last.id] {
        var p :| 0 <= p < |front| && front[p] == x;
        assert order[p] == x;
      }
    }
  }

  lemma WithoutOrdered(events: seq<Event>, k: nat, order: seq<Joined>, at: map<nat, nat>, id: nat)
    requires k <= |events| && OrderedBy(events, k, order, at)
    ensures OrderedBy(events, k, Without(order, id), at - {id})
  {
    var rest := Without(order, id);
    WithoutElements(order, id);
    WithoutAscends(order, id, at);
    forall p | 0 <= p < |rest|
      ensures rest[p].id in at - {id} && at[rest[p].id] < k && events[at[rest[p].id]] == Join(rest[p])
    {
      assert rest[p] in rest;
      var q :| 0 <= q < |order| && order[q] == rest[p];
    }
    forall other | other in at - {id} ensures Present(rest, other) {
      WithoutPresent(order, id, other);
    }
  }

  lemma SnocOrdered(events: seq<Event>, k: nat, order: seq<Joined>, at: map<nat, nat>, node: Joined)
    requires k < |events| && OrderedBy(events, k, order, at) && events[k] == Join(node) && node.id !in at
    ensures OrderedBy(events, k + 1, order + [node], at[node.id := k])
  {
    forall id | id in at[node.id := k] ensures Present(order + [node], id) {
      PresentSnoc(order, node, id);
    }
  }

  lemma LaterOrdered(events: seq<Event>, k: nat, order: seq<Joined>, at: map<nat, nat>)
    requires k < |events| && OrderedBy(events, k, order, at)
    ensures OrderedBy(events, k + 1, order, at)
  {
  }

  lemma OrderedPresent(events: seq<Event>, k: nat, order: seq<Joined>, at: map<nat, nat>, id: nat)
    requires k <= |events| && OrderedBy(events, k, order, at)
    ensures Present(order, id) <==> id in at
  {
  }

  lemma FreshNext(events: seq<Event>, k: nat)
    requires k < |events| && OrderedBy(events, k, Fresh(events, k).order, LastJoins(events, k))
    ensures OrderedBy(events, k + 1, Fresh(events, k + 1).order, LastJoins(events, k + 1))
  {
    var order, at := Fresh(events, k).order, LastJoins(events, k);
    NextStates(events, k);
    match events[k]
    case Join(node) =>
      WithoutOrdered(events, k, order, at, node.id);
      SnocOrdered(events, k, Without(order, node.id), at - {node.id}, node);
      assert (at - {node.id})[node.id := k] == at[node.id := k];
    case Touch(_) => LaterOrdered(events, k, order, at);
    case Leave(id) =>
      WithoutOrdered(events, k, order, at, id);
      LaterOrdered(events, k, Without(order, id), at - {id});
  }

  lemma KeepingNext(events: seq<Event>, k: nat)
    requires k < |events| && OrderedBy(events, k, Keeping(events, k).order, FirstJoins(events, k))
    ensures OrderedBy(events, k + 1, Keeping(events, k + 1).order, FirstJoins(events, k + 1))
  {
    var order, at := Keeping(events, k).order, FirstJoins(events, k);
    NextStates(events, k);
    match events[k]
    case Join(node) =>
      OrderedPresent(events, k, order, at, node.id);
      if node.id in at {
        LaterOrdered(events, k, order, at);
      } else {
        WithoutAbsent(order, node.id);
        SnocOrdered(events, k, order, at, node);
      }
    case Touch(_) => LaterOrdered(events, k, order, at);
    case Leave(id) =>
      WithoutOrdered(events, k, order, at, id);
      LaterOrdered(events, k, Without(order, id), at - {id});
  }

  lemma {:induction false} WithoutAbsent(order: seq<Joined>, id: nat)
    requires !Present(order, id)
    ensures Without(order, id) == order
  {
    if order != [] {
      var front, last := order[..|order| - 1], order[|order| - 1];
      assert order == front + [last];
      PresentSnoc(front, last, id);
      WithoutAbsent(front, id);
    }
  }

  lemma {:induction false} OrdersFollowJoins(events: seq<Event>, k: nat)
    requires k <= |events|
    ensures OrderedBy(events, k, Fresh(events, k).order, LastJoins(events, k))
    ensures OrderedBy(events, k, Keeping(events, k).order, FirstJoins(events, k))
  {
    if k > 0 {
      OrdersFollowJoins(events, k - 1);
      FreshNext(events, k - 1);
      KeepingNext(events, k - 1);
    }
  }

  lemma {:induction false} SameStays(events: seq<Event>, k: nat)
    requires k <= |events|
    ensures FirstJoins(events, k).Keys == LastJoins(events, k).Keys
  {
    if k > 0 {
      SameStays(events, k - 1);
    }
  }

  // ----- when the orders agree -----

  // Every node's last join repeats its first, and no two nodes' last joins come the other way round.
  ghost predicate JoinsAgree(events: seq<Event>) {
    var first, last := FirstJoins(events, |events|), LastJoins(events, |events|);
    && (forall id :: id in first && id in last ==> events[first[id]] == events[last[id]])
    && (forall a, b :: a in first && b in first && a in last && b in last && first[a] < first[b] ==> last[a] < last[b])
  }

  lemma {:induction false} OrderIsDetermined(
      events: seq<Event>, k: nat, order: seq<Joined>, other: seq<Joined>, at: map<nat, nat>)
    requires k <= |events| && OrderedBy(events, k, order, at) && OrderedBy(events, k, other, at)
    ensures order == other
    decreases |order|
  {
    if order == [] || other == [] {
      EmptyOrder(events, k, order, other, at);
      EmptyOrder(events, k, other, order, at);
    } else {
      var x := order[|order| - 1];
      FrontsOrdered(events, k, order, other, at);
      OrderIsDetermined(events, k, order[..|order| - 1], other[..|other| - 1], at - {x.id});
      SameSnoc(order, other);
    }
  }

  lemma SameSnoc(order: seq<Joined>, other: seq<Joined>)
    requires order != [] && other != [] && order[|order| - 1] == other[|other| - 1]
    requires order[..|order| - 1] == other[..|other| - 1]
    ensures order == other
  {
    assert order == order[..|order| - 1] + [order[|order| - 1]];
    assert other == other[..|other| - 1] + [other[|other| - 1]];
  }

  lemma FrontsOrdered(events: seq<Event>, k: nat, order: seq<Joined>, other: seq<Joined>, at: map<nat, nat>)
    requires k <= |events| && OrderedBy(events, k, order, at) && OrderedBy(events, k, other, at)
    requires order != [] && other != []
    ensures order[|order| - 1] == other[|other| - 1]
    ensures OrderedBy(events, k, order[..|order| - 1], at - {order[|order| - 1].id})
    ensures OrderedBy(events, k, other[..|other| - 1], at - {order[|order| - 1].id})
  {
    SameLast(events, k, order, other, at);
    FrontOrdered(events, k, order, at);
    FrontOrdered(events, k, other, at);
  }

  lemma SameLast(events: seq<Event>, k: nat, order: seq<Joined>, other: seq<Joined>, at: map<nat, nat>)
    requires k <= |events| && OrderedBy(events, k, order, at) && OrderedBy(events, k, other, at)
    requires order != [] && other != []
    ensures order[|order| - 1] == other[|other| - 1]
  {
    var x, y := order[|order| - 1], other[|other| - 1];
    LastIsLatest(events, k, order, at, y.id);
    LastIsLatest(events, k, other, at, x.id);
    assert events[at[x.id]] == Join(x) && events[at[y.id]] == Join(y);
  }

  lemma EmptyOrder(events: seq<Event>, k: nat, order: seq<Joined>, other: seq<Joined>, at: map<nat, nat>)
    requires k <= |events| && OrderedBy(events, k, order, at) && OrderedBy(events, k, other, at)
    ensures order == [] ==> other == []
  {
    assert other != [] ==> Present(order, other[0].id);
  }

  lemma LastIsLatest(events: seq<Event>, k: nat, order: seq<Joined>, at: map<nat, nat>, id: nat)
    requires k <= |events| && OrderedBy(events, k, order, at) && order != [] && id in at
    ensures at[id] <= at[order[|order| - 1].id]
  {
    assert Present(order, id);
    var p :| 0 <= p < |order| && order[p].id == id;
  }

  lemma FrontOrdered(events: seq<Event>, k: nat, order: seq<Joined>, at: map<nat, nat>)
    requires k <= |events| && OrderedBy(events, k, order, at) && order != []
    ensures OrderedBy(events, k, order[..|order| - 1], at - {order[|order| - 1].id})
  {
    var front, last := order[..|order| - 1], order[|order| - 1];
    assert order == front + [last];
    forall id | id in at - {last.id} ensures Present(front, id) {
      PresentSnoc(front, last, id);
    }
  }

  // The nodes come out in the same order, with the same records, exactly when the joins agree.
  lemma OrdersAgreeExactly(events: seq<Event>)
    ensures Replay(NoNodes, events).order == ReplayKeeping(NoNodes, events).order <==> JoinsAgree(events)
  {
    var k := |events|;
    var renewed, keeping, first, last :=
      Fresh(events, k).order, Keeping(events, k).order, FirstJoins(events, k), LastJoins(events, k);
    assert events[..k] == events;
    OrdersFollowJoins(events, k);
    SameStays(events, k);
    if JoinsAgree(events) {
      OrderedByLastJoins(events, keeping, first, last);
      OrderIsDetermined(events, k, renewed, keeping, last);
    }
    if renewed == keeping {
      SameOrderMeansAgree(events, renewed, first, last);
    }
  }

  lemma OrderedByLastJoins(events: seq<Event>, order: seq<Joined>, first: map<nat, nat>, last: map<nat, nat>)
    requires OrderedBy(events, |events|, order, first) && first.Keys == last.Keys
    requires first == FirstJoins(events, |events|) && last == LastJoins(events, |events|) && JoinsAgree(events)
    ensures OrderedBy(events, |events|, order, last)
  {
  }

  lemma SameOrderMeansAgree(events: seq<Event>, order: seq<Joined>, first: map<nat, nat>, last: map<nat, nat>)
    requires OrderedBy(events, |events|, order, first) && OrderedBy(events, |events|, order, last)
    requires first == FirstJoins(events, |events|) && last == LastJoins(events, |events|) && first.Keys == last.Keys
    ensures JoinsAgree(events)
  {
    forall id | id in first ensures events[first[id]] == events[last[id]] {
      var p := PlaceOf(events, order, first, id);
      assert events[last[order[p].id]] == Join(order[p]);
    }
    forall a, b | a in first && b in first && first[a] < first[b] ensures last[a] < last[b] {
      SameTurn(events, order, first, last, a, b);
    }
  }

  lemma PlaceOf(events: seq<Event>, order: seq<Joined>, at: map<nat, nat>, id: nat) returns (p: nat)
    requires OrderedBy(events, |events|, order, at) && id in at
    ensures p < |order| && order[p].id == id && events[at[id]] == Join(order[p])
  {
    assert Present(order, id);
    p :| 0 <= p < |order| && order[p].id == id;
  }

  lemma SameTurn(
      events: seq<Event>, order: seq<Joined>, first: map<nat, nat>, last: map<nat, nat>, a: nat, b: nat)
    requires OrderedBy(events, |events|, order, first) && OrderedBy(events, |events|, order, last)
    requires a in first && b in first && first[a] < first[b]
    ensures a in last && b in last && last[a] < last[b]
  {
    var p := PlaceOf(events, order, first, a);
    var q := PlaceOf(events, order, first, b);
    assert order[p].id in last && order[q].id in last;
    assert p < q;
  }

  // ----- when the updates agree -----

  predicate Renews(event: Event, id: nat) {
    (event.Touch? && event.update.id == id) || (event.Leave? && event.id == id)
  }

  // The node joined again while it had an update, and has neither been updated nor left since.
  ghost predicate LostUpdate(events: seq<Event>, k: nat, id: nat)
    requires k <= |events|
  {
    exists i :: 0 <= i < k && IsLastLoss(events, k, id, i)
  }

  ghost predicate IsLastLoss(events: seq<Event>, k: nat, id: nat, i: nat)
    requires i < k <= |events|
  {
    && events[i].Join? && events[i].node.id == id && id in Keeping(events, i).latest
    && forall j :: i < j < k ==> !Renews(events[j], id)
  }

  lemma LostNext(events: seq<Event>, k: nat, id: nat)
    requires k < |events|
    ensures LostUpdate(events, k + 1, id) <==>
      || (LostUpdate(events, k, id) && !Renews(events[k], id))
      || (events[k].Join? && events[k].node.id == id && id in Keeping(events, k).latest)
  {
    if LostUpdate(events, k, id) && !Renews(events[k], id) {
      var i :| 0 <= i < k && IsLastLoss(events, k, id, i);
      assert IsLastLoss(events, k + 1, id, i);
    }
    if events[k].Join? && events[k].node.id == id && id in Keeping(events, k).latest {
      assert IsLastLoss(events, k + 1, id, k);
    }
    if LostUpdate(events, k + 1, id) {
      var i :| 0 <= i < k + 1 && IsLastLoss(events, k + 1, id, i);
      assert i < k ==> IsLastLoss(events, k, id, i);
    }
  }

  // What the renewed reading knows of a node is what the keeping one knows, unless the update is lost.
  ghost predicate SameUpTo(events: seq<Event>, k: nat, id: nat)
    requires k <= |events|
  {
    var renewed, keeping := Fresh(events, k).latest, Keeping(events, k).latest;
    && (LostUpdate(events, k, id) ==> id in keeping && id !in renewed)
    && (!LostUpdate(events, k, id) ==>
          (id in renewed <==> id in keeping) && (id in renewed ==> renewed[id] == keeping[id]))
  }

  lemma {:induction false} UpdatesUpTo(events: seq<Event>, k: nat, id: nat)
    requires k <= |events|
    ensures SameUpTo(events, k, id)
  {
    if k > 0 {
      UpdatesUpTo(events, k - 1, id);
      UpdatesNext(events, k - 1, id);
    }
  }

  lemma UpdatesNext(events: seq<Event>, k: nat, id: nat)
    requires k < |events| && SameUpTo(events, k, id)
    ensures SameUpTo(events, k + 1, id)
  {
    var renewed, keeping := Fresh(events, k), Keeping(events, k);
    NextStates(events, k);
    LostNext(events, k, id);
    OrdersFollowJoins(events, k);
    SameStays(events, k);
    KeepingWellFormed(events, k);
    if events[k].Touch? {
      OrderedPresent(events, k, renewed.order, LastJoins(events, k), id);
      OrderedPresent(events, k, keeping.order, FirstJoins(events, k), id);
    }
  }

  lemma {:induction false} KeepingWellFormed(events: seq<Event>, k: nat)
    requires k <= |events|
    ensures WellFormed(Keeping(events, k))
  {
    if k > 0 {
      KeepingWellFormed(events, k - 1);
      NextStates(events, k - 1);
      ApplyWellFormed(Keeping(events, k - 1), events[k - 1]);
    }
  }

  // The fresh reading never knows more; the newest updates agree exactly when none is lost for good.
  lemma LatestAgreesExactly(events: seq<Event>)
    ensures
      var renewed, keeping := Replay(NoNodes, events).latest, ReplayKeeping(NoNodes, events).latest;
      && (forall id :: id in renewed ==> id in keeping && renewed[id] == keeping[id])
      && (renewed == keeping <==> !exists id :: LostUpdate(events, |events|, id))
  {
    var k := |events|;
    var renewed, keeping := Fresh(events, k).latest, Keeping(events, k).latest;
    assert events[..k] == events;
    forall id
      ensures id in renewed ==> id in keeping && renewed[id] == keeping[id]
      ensures LostUpdate(events, k, id) <==> id in keeping && id !in renewed
    {
      UpdatesUpTo(events, k, id);
    }
    if forall id :: !LostUpdate(events, k, id) {
      assert forall id :: id in keeping ==> id in renewed by {
        forall id | id in keeping ensures id in renewed { assert !LostUpdate(events, k, id); }
      }
      assert renewed == keeping;
    }
  }

  // ----- the squash -----

  lemma {:induction false} FewerUpdates(order: seq<Joined>, fewer: map<nat, Update>, latest: map<nat, Update>)
    requires forall id :: id in fewer ==> id in latest && fewer[id] == latest[id]
    ensures |UpdatesOf(order, fewer)| <= |UpdatesOf(order, latest)|
    ensures |UpdatesOf(order, fewer)| == |UpdatesOf(order, latest)| ==>
      forall p :: 0 <= p < |order| && order[p].id in latest ==> order[p].id in fewer
  {
    if order != [] {
      FewerUpdates(order[..|order| - 1], fewer, latest);
    }
  }

  // Among present nodes, the listed updates determine the newest ones.
  lemma UpdatesDetermine(order: seq<Joined>, fewer: map<nat, Update>, latest: map<nat, Update>)
    requires forall id :: id in fewer ==> id in latest && fewer[id] == latest[id]
    requires forall id :: id in latest ==> Present(order, id)
    ensures UpdatesOf(order, fewer) == UpdatesOf(order, latest) <==> fewer == latest
  {
    FewerUpdates(order, fewer, latest);
    if UpdatesOf(order, fewer) == UpdatesOf(order, latest) {
      forall id | id in latest ensures id in fewer {
        assert Present(order, id);
        var p :| 0 <= p < |order| && order[p].id == id;
      }
      assert fewer == latest;
    }
  }

  ghost predicate KeepsAll(events: seq<Event>) {
    JoinsAgree(events) && forall id :: !LostUpdate(events, |events|, id)
  }

  // The squash is the replay that keeps present nodes exactly when the joins agree and no update is lost.
  lemma SquashKeepsExactly(events: seq<Event>)
    ensures
      var s, nodes := AbsorbAll(NothingSquashed, events), ReplayKeeping(NoNodes, events);
      IsAnswer(s.added, s.updated, nodes) <==> KeepsAll(events)
  {
    var renewed, keeping := Replay(NoNodes, events), ReplayKeeping(NoNodes, events);
    SquashIsReplay(events);
    OrdersAgreeExactly(events);
    LatestAgreesExactly(events);
    assert events[..|events|] == events;
    KeepingWellFormed(events, |events|);
    UpdatesDetermine(keeping.order, renewed.latest, keeping.latest);
  }
}
