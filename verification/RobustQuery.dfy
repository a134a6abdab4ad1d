/** Querying nodes until enough of them agree (src/Utils.ts:116-179, 187-287). */
module RobustQuery {
  import opened Wrappers

  // What a node answers when it is asked: a value, null, or a rejected promise.
  datatype Reply<+R> = Answer(value: R) | Null | Failed

  // Nodes are named by their position in the list that is queried.
  datatype TallyItem<+R> = TallyItem(value: R, count: nat, nodes: seq<nat>)

  // The returned item, and which exit of the query loop it left by.
  datatype Outcome<+R> =
    | NoNodes
    | Won(item: TallyItem<R>)
    | OutOfNodes(best: Option<TallyItem<R>>)
    | OutOfTries(best: Option<TallyItem<R>>)

  const MAX_TRIES := 20

  function EffectiveRedundancy(redundancy: int, nodeCount: nat): int {
    var atLeastOne := if redundancy < 1 then 3 else redundancy;
    if atLeastOne > nodeCount then nodeCount else atLeastOne
  }

  // ----- the tally of a run of replies -----

  function FirstMatch<R>(eq: (R, R) -> bool, items: seq<TallyItem<R>>, value: R): (i: nat)
    ensures i <= |items| && (i < |items| ==> eq(value, items[i].value))
    ensures forall j :: 0 <= j < i ==> !eq(value, items[j].value)
  {
    if items == [] then 0
    else if eq(value, items[0].value) then 0
    else 1 + FirstMatch(eq, items[1..], value)
  }

  function Counted<R>(eq: (R, R) -> bool, items: seq<TallyItem<R>>, reply: Reply<R>, node: nat): seq<TallyItem<R>> {
    if !reply.Answer? then items else
      var i := FirstMatch(eq, items, reply.value);
      if i == |items| then items + [TallyItem(reply.value, 1, [node])]
      else items[i := TallyItem(items[i].value, items[i].count + 1, items[i].nodes + [node])]
  }

  // The tally after the first k replies.
  function Tallied<R>(eq: (R, R) -> bool, replies: seq<Reply<R>>, k: nat): seq<TallyItem<R>>
    requires k <= |replies|
  {
    if k == 0 then [] else Counted(eq, Tallied(eq, replies, k - 1), replies[k - 1], k - 1)
  }

  // The highest count among the first n items, and the first item that has it.
  function HighestOf<R>(items: seq<TallyItem<R>>, n: nat): nat
    requires n <= |items|
  {
    if n == 0 then 0 else
      var h, last := HighestOf(items, n - 1), items[n - 1].count;
      if last > h then last else h
  }

  function Highest<R>(items: seq<TallyItem<R>>): nat {
    HighestOf(items, |items|)
  }

  function BestOf<R>(items: seq<TallyItem<R>>, n: nat): (best: TallyItem<R>)
    requires 0 < n <= |items|
    ensures best in items && best.count == HighestOf(items, n)
  {
    if n == 1 || items[n - 1].count > HighestOf(items, n - 1) then items[n - 1] else BestOf(items, n - 1)
  }

  function Best<R>(items: seq<TallyItem<R>>): (best: Option<TallyItem<R>>)
    ensures best.None? <==> items == []
    ensures best.Some? ==> best.value in items && best.value.count == Highest(items)
  {
    if items == [] then None else Some(BestOf(items, |items|))
  }

  lemma {:induction false} HighestIsUpper<R>(items: seq<TallyItem<R>>, n: nat)
    requires n <= |items|
    ensures forall i :: 0 <= i < n ==> items[i].count <= HighestOf(items, n)
  {
    if n > 0 {
      HighestIsUpper(items, n - 1);
    }
  }

  // No item before the best has as many, and none behind it has more.
  lemma {:induction false} BestIsFirst<R>(items: seq<TallyItem<R>>, n: nat) returns (i: nat)
    requires 0 < n <= |items|
    ensures i < n && BestOf(items, n) == items[i]
    ensures forall j :: 0 <= j < i ==> items[j].count < items[i].count
    ensures forall j :: i <= j < n ==> items[j].count <= items[i].count
  {
    if n == 1 || items[n - 1].count > HighestOf(items, n - 1) {
      i := n - 1;
      HighestIsUpper(items, n - 1);
    } else {
      i := BestIsFirst(items, n - 1);
    }
  }

  lemma {:induction false} HighestAtMost<R>(items: seq<TallyItem<R>>, n: nat, bound: nat)
    requires n <= |items| && forall i :: 0 <= i < n ==> items[i].count <= bound
    ensures HighestOf(items, n) <= bound
  {
    if n > 0 {
      HighestAtMost(items, n - 1, bound);
    }
  }

  // ----- who answered what -----

  // The nodes among the first k whose answer equals a value.
  function Votes<R>(eq: (R, R) -> bool, replies: seq<Reply<R>>, k: nat, value: R): seq<nat>
    requires k <= |replies|
  {
    if k == 0 then [] else
      var front := Votes(eq, replies, k - 1, value);
      if replies[k - 1].Answer? && eq(replies[k - 1].value, value) then front + [k - 1] else front
  }

  ghost predicate Equivalence<R(!new)>(eq: (R, R) -> bool) {
    && (forall x: R :: eq(x, x))
    && (forall x: R, y: R :: eq(x, y) ==> eq(y, x))
    && (forall x: R, y: R, z: R :: eq(x, y) && eq(y, z) ==> eq(x, z))
  }

  // Some value is the answer of at least this many of the nodes.
  ghost predicate EnoughAgree<R(!new)>(eq: (R, R) -> bool, replies: seq<Reply<R>>, needed: int) {
    exists value: R :: |Votes(eq, replies, |replies|, value)| >= needed
  }

  // Distinct nodes among the first k: one that answered the value itself, the others something equal to it.
  ghost predicate Backed<R>(eq: (R, R) -> bool, replies: seq<Reply<R>>, k: nat, item: TallyItem<R>)
    requires k <= |replies|
  {
    && item.count == |item.nodes| > 0
    && (forall i, j :: 0 <= i < j < |item.nodes| ==> item.nodes[i] < item.nodes[j])
    && (forall i :: 0 <= i < |item.nodes| ==> item.nodes[i] < k && replies[item.nodes[i]].Answer?)
    && replies[item.nodes[0]].value == item.value
    && (forall i :: 0 < i < |item.nodes| ==> eq(replies[item.nodes[i]].value, item.value))
  }

  ghost predicate AllBacked<R>(eq: (R, R) -> bool, replies: seq<Reply<R>>, k: nat, items: seq<TallyItem<R>>)
    requires k <= |replies|
  {
    forall i :: 0 <= i < |items| ==> Backed(eq, replies, k, items[i])
  }

  // Whatever the equality, every tallied item is backed by as many distinct nodes as it counts.
  lemma {:induction false} TallyIsBacked<R>(eq: (R, R) -> bool, replies: seq<Reply<R>>, k: nat)
    requires k <= |replies|
    ensures AllBacked(eq, replies, k, Tallied(eq, replies, k))
  {
    if k > 0 {
      TallyIsBacked(eq, replies, k - 1);
      CountedIsBacked(eq, replies, k - 1, Tallied(eq, replies, k - 1));
    }
  }

  lemma CountedIsBacked<R>(eq: (R, R) -> bool, replies: seq<Reply<R>>, k: nat, items: seq<TallyItem<R>>)
    requires k < |replies| && AllBacked(eq, replies, k, items)
    ensures AllBacked(eq, replies, k + 1, Counted(eq, items, replies[k], k))
  {
    var after := Counted(eq, items, replies[k], k);
    forall i | 0 <= i < |after| ensures Backed(eq, replies, k + 1, after[i]) {
      if i < |items| {
        BackedStays(eq, replies, k, k + 1, items[i]);
        if after[i] != items[i] {
          BackedByOneMore(eq, replies, k, items[i]);
        }
      }
    }
  }

  lemma BackedStays<R>(eq: (R, R) -> bool, replies: seq<Reply<R>>, k: nat, later: nat, item: TallyItem<R>)
    requires k <= later <= |replies| && Backed(eq, replies, k, item)
    ensures Backed(eq, replies, later, item)
  {
  }

  lemma BackedByOneMore<R>(eq: (R, R) -> bool, replies: seq<Reply<R>>, k: nat, item: TallyItem<R>)
    requires k < |replies| && Backed(eq, replies, k, item)
    requires replies[k].Answer? && eq(replies[k].value, item.value)
    ensures Backed(eq, replies, k + 1, TallyItem(item.value, item.count + 1, item.nodes + [k]))
  {
  }

  // The tally is exact: one item for each answered value, listing precisely the nodes that answered it.
  ghost predicate Exact<R>(eq: (R, R) -> bool, replies: seq<Reply<R>>, k: nat, items: seq<TallyItem<R>>)
    requires k <= |replies|
  {
    && (forall i :: 0 <= i < |items| ==> items[i].nodes == Votes(eq, replies, k, items[i].value))
    && (forall i, j :: 0 <= i < j < |items| ==> !eq(items[i].value, items[j].value))
    && (forall p :: 0 <= p < k && replies[p].Answer? ==> FirstMatch(eq, items, replies[p].value) < |items|)
  }

  lemma {:induction false} TallyIsExact<R(!new)>(eq: (R, R) -> bool, replies: seq<Reply<R>>, k: nat)
    requires Equivalence(eq) && k <= |replies|
    ensures Exact(eq, replies, k, Tallied(eq, replies, k))
  {
    if k > 0 {
      TallyIsExact(eq, replies, k - 1);
      CountedIsExact(eq, replies, k - 1, Tallied(eq, replies, k - 1));
    }
  }

  lemma CountedIsExact<R(!new)>(eq: (R, R) -> bool, replies: seq<Reply<R>>, k: nat, items: seq<TallyItem<R>>)
    requires Equivalence(eq) && k < |replies| && Exact(eq, replies, k, items)
    ensures Exact(eq, replies, k + 1, Counted(eq, items, replies[k], k))
  {
    var after := Counted(eq, items, replies[k], k);
    if replies[k].Answer? {
      if FirstMatch(eq, items, replies[k].value) == |items| {
        NobodyAnswered(eq, replies, k, items, replies[k].value);
      }
      forall p | 0 <= p < k + 1 && replies[p].Answer? ensures FirstMatch(eq, after, replies[p].value) < |after| {
        StillListed(eq, items, replies[k], k, replies[p].value);
      }
    }
  }

  // A listed value stays listed, and a counted one is listed.
  lemma StillListed<R(!new)>(eq: (R, R) -> bool, items: seq<TallyItem<R>>, reply: Reply<R>, node: nat, value: R)
    requires Equivalence(eq) && reply.Answer?
    requires FirstMatch(eq, items, value) < |items| || value == reply.value
    ensures FirstMatch(eq, Counted(eq, items, reply, node), value) < |Counted(eq, items, reply, node)|
  {
    var after := Counted(eq, items, reply, node);
    var i := if FirstMatch(eq, items, value) < |items| then FirstMatch(eq, items, value) else |items|;
    assert eq(value, after[i].value);
  }

  lemma {:induction false} NobodyAnswered<R(!new)>(
      eq: (R, R) -> bool, replies: seq<Reply<R>>, k: nat, items: seq<TallyItem<R>>, value: R)
    requires Equivalence(eq) && k <= |replies| && FirstMatch(eq, items, value) == |items|
    requires forall p :: 0 <= p < k && replies[p].Answer? ==> FirstMatch(eq, items, replies[p].value) < |items|
    ensures Votes(eq, replies, k, value) == []
  {
    if k > 0 {
      NobodyAnswered(eq, replies, k - 1, items, value);
      NotListed(eq, items, replies[k - 1], value);
    }
  }

  lemma NotListed<R(!new)>(eq: (R, R) -> bool, items: seq<TallyItem<R>>, reply: Reply<R>, value: R)
    requires Equivalence(eq) && FirstMatch(eq, items, value) == |items|
    requires reply.Answer? ==> FirstMatch(eq, items, reply.value) < |items|
    ensures reply.Answer? ==> !eq(reply.value, value)
  {
    if reply.Answer? {
      var item := items[FirstMatch(eq, items, reply.value)];
      assert eq(reply.value, item.value) && !eq(value, item.value);
    }
  }

  lemma {:induction false} EqualValuesShareVotes<R(!new)>(
    eq: (R, R) -> bool, replies: seq<Reply<R>>, k: nat, x: R, y: R)
    requires Equivalence(eq) && eq(x, y) && k <= |replies|
    ensures Votes(eq, replies, k, x) == Votes(eq, replies, k, y)
  {
    if k > 0 {
      EqualValuesShareVotes(eq, replies, k - 1, x, y);
    }
  }

  // No value has more votes than the highest count of the tally.
  lemma VotesAtMostHighest<R(!new)>(eq: (R, R) -> bool, replies: seq<Reply<R>>, k: nat, value: R)
    requires Equivalence(eq) && k <= |replies|
    ensures |Votes(eq, replies, k, value)| <= Highest(Tallied(eq, replies, k))
  {
    var items := Tallied(eq, replies, k);
    TallyIsExact(eq, replies, k);
    TallyIsBacked(eq, replies, k);
    var i := FirstMatch(eq, items, value);
    HighestIsUpper(items, |items|);
    if i < |items| {
      EqualValuesShareVotes(eq, replies, k, value, items[i].value);
      assert Backed(eq, replies, k, items[i]);
    } else {
      NobodyAnswered(eq, replies, k, items, value);
    }
  }

  // Votes gained from further replies are at most as many as those replies, and none are lost.
  lemma {:induction false} VotesGrow<R>(eq: (R, R) -> bool, replies: seq<Reply<R>>, k: nat, later: nat, value: R)
    requires k <= later <= |replies|
    ensures |Votes(eq, replies, k, value)| <= |Votes(eq, replies, later, value)|
    ensures |Votes(eq, replies, later, value)| <= |Votes(eq, replies, k, value)| + later - k
  {
    if k < later {
      VotesGrow(eq, replies, k, later - 1, value);
    }
  }

  // ----- the query loop as a function -----

  datatype RoundEnd<+R> = Stop(outcome: Outcome<R>) | Again(next: nat)

  // How a round ends once the first `next` nodes have replied and `later` is their tally.
  function AfterReplies<R>(later: seq<TallyItem<R>>, redundancy: int, next: nat, tries: nat): RoundEnd<R>
    requires redundancy > 0
  {
    if Highest(later) >= redundancy then Stop(Won(Best(later).value))
    else if tries + 1 >= MAX_TRIES then Stop(OutOfTries(Best(later)))
    else Again(next)
  }

  // One round, from a point where the first `asked` nodes have replied and nobody has won.
  function Round<R>(eq: (R, R) -> bool, replies: seq<Reply<R>>, redundancy: int, asked: nat, tries: nat):
    (end: RoundEnd<R>)
    requires asked <= |replies| && Highest(Tallied(eq, replies, asked)) < redundancy
    ensures end.Again? ==>
      && asked < end.next <= |replies| && tries + 1 < MAX_TRIES
      && Highest(Tallied(eq, replies, end.next)) < redundancy
  {
    var items := Tallied(eq, replies, asked);
    var next := asked + redundancy - Highest(items);
    if |replies| < next then Stop(OutOfNodes(Best(items)))
    else AfterReplies(Tallied(eq, replies, next), redundancy, next, tries)
  }

  function Rounds<R>(eq: (R, R) -> bool, replies: seq<Reply<R>>, redundancy: int, asked: nat, tries: nat): Outcome<R>
    requires asked <= |replies| && Highest(Tallied(eq, replies, asked)) < redundancy
    decreases |replies| - asked
  {
    match Round(eq, replies, redundancy, asked, tries)
    case Stop(outcome) => outcome
    case Again(next) => Rounds(eq, replies, redundancy, next, tries + 1)
  }

  function Query<R>(eq: (R, R) -> bool, replies: seq<Reply<R>>, redundancy: int): Outcome<R> {
    if replies == [] then NoNodes else Rounds(eq, replies, EffectiveRedundancy(redundancy, |replies|), 0, 0)
  }

  // Each reply raises the highest count by at most one.
  lemma {:induction false} HighestGrows<R>(eq: (R, R) -> bool, replies: seq<Reply<R>>, k: nat, later: nat)
    requires k <= later <= |replies|
    ensures Highest(Tallied(eq, replies, later)) <= Highest(Tallied(eq, replies, k)) + later - k
  {
    if k < later {
      HighestGrows(eq, replies, k, later - 1);
      CountedHighest(eq, Tallied(eq, replies, later - 1), replies[later - 1], later - 1);
    }
  }

  lemma CountedHighest<R>(eq: (R, R) -> bool, items: seq<TallyItem<R>>, reply: Reply<R>, node: nat)
    ensures Highest(Counted(eq, items, reply, node)) <= Highest(items) + 1
  {
    var after := Counted(eq, items, reply, node);
    HighestIsUpper(items, |items|);
    HighestAtMost(after, |after|, Highest(items) + 1);
  }

  // ----- the theorems -----

  lemma BestIsBacked<R>(eq: (R, R) -> bool, replies: seq<Reply<R>>, k: nat)
    requires k <= |replies| && Tallied(eq, replies, k) != []
    ensures Backed(eq, replies, |replies|, Best(Tallied(eq, replies, k)).value)
  {
    var best := Best(Tallied(eq, replies, k)).value;
    TallyIsBacked(eq, replies, k);
    assert Backed(eq, replies, k, best);
    BackedStays(eq, replies, k, |replies|, best);
  }

  // A winner has exactly the effective redundancy, backed by that many distinct nodes; for any equality.
  lemma WinnerIsBacked<R>(eq: (R, R) -> bool, replies: seq<Reply<R>>, redundancy: int, asked: nat, tries: nat)
    requires asked <= |replies| && Highest(Tallied(eq, replies, asked)) < redundancy
    ensures
      var end := Round(eq, replies, redundancy, asked, tries);
      end.Stop? && end.outcome.Won? ==>
        end.outcome.item.count == redundancy && Backed(eq, replies, |replies|, end.outcome.item)
  {
    var next := asked + redundancy - Highest(Tallied(eq, replies, asked));
    if next <= |replies| {
      HighestGrows(eq, replies, asked, next);
      if Highest(Tallied(eq, replies, next)) >= redundancy {
        BestIsBacked(eq, replies, next);
      }
    }
  }

  // With an equivalence, a round ends in a win only if at least `redundancy` nodes answered
  // one value, and ends for want of nodes only if no value has that many.
  lemma RoundIsExact<R(!new)>(eq: (R, R) -> bool, replies: seq<Reply<R>>, redundancy: int, asked: nat, tries: nat)
    requires asked <= |replies| && Highest(Tallied(eq, replies, asked)) < redundancy && Equivalence(eq)
    ensures
      var end := Round(eq, replies, redundancy, asked, tries);
      && (end.Stop? && end.outcome.Won? ==> EnoughAgree(eq, replies, redundancy))
      && (end.Stop? && end.outcome.OutOfNodes? ==> !EnoughAgree(eq, replies, redundancy))
  {
    var next := asked + redundancy - Highest(Tallied(eq, replies, asked));
    if |replies| < next {
      forall value ensures |Votes(eq, replies, |replies|, value)| < redundancy {
        VotesAtMostHighest(eq, replies, asked, value);
        VotesGrow(eq, replies, asked, |replies|, value);
      }
    } else if Highest(Tallied(eq, replies, next)) >= redundancy {
      BestHasVotes(eq, replies, next, redundancy);
    }
  }

  lemma BestHasVotes<R(!new)>(eq: (R, R) -> bool, replies: seq<Reply<R>>, next: nat, redundancy: int)
    requires next <= |replies| && Equivalence(eq)
    requires 0 < redundancy <= Highest(Tallied(eq, replies, next))
    ensures |Votes(eq, replies, |replies|, Best(Tallied(eq, replies, next)).value.value)| >= redundancy
  {
    var items := Tallied(eq, replies, next);
    var item := Best(items).value;
    TallyIsExact(eq, replies, next);
    TallyIsBacked(eq, replies, next);
    assert Backed(eq, replies, next, item) && item.nodes == Votes(eq, replies, next, item.value);
    VotesGrow(eq, replies, next, |replies|, item.value);
  }

  // What the best item is when the first `asked` nodes have replied: none if nobody answered, else one that no other
  // has a higher count than, short of the redundancy.
  ghost predicate FallbackAt<R>(
    eq: (R, R) -> bool, replies: seq<Reply<R>>, redundancy: int, asked: nat, best: Option<TallyItem<R>>)
  {
    && asked <= |replies|
    && (best.None? <==> forall i :: 0 <= i < asked ==> !replies[i].Answer?)
    && (best.Some? ==>
          && best.value.count < redundancy && Backed(eq, replies, asked, best.value)
          && best.value in Tallied(eq, replies, asked)
          && forall item :: item in Tallied(eq, replies, asked) ==> item.count <= best.value.count)
  }

  // That is what a query without a winner falls back to; it only runs out of nodes when the others could not make up
  // what is missing.
  ghost predicate FairFallback<R>(eq: (R, R) -> bool, replies: seq<Reply<R>>, redundancy: int, outcome: Outcome<R>)
    requires outcome.OutOfNodes? || outcome.OutOfTries?
  {
    exists asked :: FallbackAt(eq, replies, redundancy, asked, outcome.best)
      && (outcome.OutOfNodes? ==>
            |replies| - asked < redundancy - if outcome.best.Some? then outcome.best.value.count else 0)
  }

  lemma {:induction false} TallyOfNone<R>(eq: (R, R) -> bool, replies: seq<Reply<R>>, k: nat)
    requires k <= |replies|
    ensures Tallied(eq, replies, k) == [] <==> forall i :: 0 <= i < k ==> !replies[i].Answer?
  {
    if k > 0 {
      TallyOfNone(eq, replies, k - 1);
    }
  }

  lemma BestIsFair<R>(eq: (R, R) -> bool, replies: seq<Reply<R>>, redundancy: int, asked: nat)
    requires asked <= |replies| && Highest(Tallied(eq, replies, asked)) < redundancy
    ensures FallbackAt(eq, replies, redundancy, asked, Best(Tallied(eq, replies, asked)))
  {
    var items := Tallied(eq, replies, asked);
    TallyOfNone(eq, replies, asked);
    TallyIsBacked(eq, replies, asked);
    HighestIsUpper(items, |items|);
    if items != [] {
      assert Backed(eq, replies, asked, Best(items).value);
    }
  }

  // A round that ends without a winner returns the best of the nodes asked so far.
  lemma FallbackIsBest<R>(eq: (R, R) -> bool, replies: seq<Reply<R>>, redundancy: int, asked: nat, tries: nat)
    returns (k: nat)
    requires asked <= |replies| && Highest(Tallied(eq, replies, asked)) < redundancy
    requires Round(eq, replies, redundancy, asked, tries).Stop?
    requires !Round(eq, replies, redundancy, asked, tries).outcome.Won?
    ensures k <= |replies| && Highest(Tallied(eq, replies, k)) < redundancy
    ensures Round(eq, replies, redundancy, asked, tries).outcome.OutOfNodes? ==>
      |replies| - k < redundancy - Highest(Tallied(eq, replies, k))
    ensures
      var outcome, best := Round(eq, replies, redundancy, asked, tries).outcome, Best(Tallied(eq, replies, k));
      outcome == OutOfNodes(best) || outcome == OutOfTries(best)
  {
    var next := asked + redundancy - Highest(Tallied(eq, replies, asked));
    k := if |replies| < next then asked else next;
  }

  lemma FallbackIsFair<R>(eq: (R, R) -> bool, replies: seq<Reply<R>>, redundancy: int, asked: nat, tries: nat)
    requires asked <= |replies| && Highest(Tallied(eq, replies, asked)) < redundancy
    ensures
      var end := Round(eq, replies, redundancy, asked, tries);
      end.Stop? && !end.outcome.Won? ==>
        !end.outcome.NoNodes? && FairFallback(eq, replies, redundancy, end.outcome)
  {
    var end := Round(eq, replies, redundancy, asked, tries);
    if end.Stop? && !end.outcome.Won? {
      var k := FallbackIsBest(eq, replies, redundancy, asked, tries);
      BestIsFair(eq, replies, redundancy, k);
    }
  }

  // What a finished query promises.
  ghost predicate Sound<R(!new)>(eq: (R, R) -> bool, replies: seq<Reply<R>>, redundancy: int, outcome: Outcome<R>) {
    && !outcome.NoNodes?
    && (outcome.Won? ==> outcome.item.count == redundancy && Backed(eq, replies, |replies|, outcome.item))
    && (outcome.OutOfNodes? || outcome.OutOfTries? ==> FairFallback(eq, replies, redundancy, outcome))
    && (outcome.OutOfTries? ==> |replies| >= 20)
    && (Equivalence(eq) && outcome.Won? ==> EnoughAgree(eq, replies, redundancy))
    && (Equivalence(eq) && outcome.OutOfNodes? ==> !EnoughAgree(eq, replies, redundancy))
  }

  lemma RoundIsSound<R(!new)>(eq: (R, R) -> bool, replies: seq<Reply<R>>, redundancy: int, asked: nat, tries: nat)
    requires asked <= |replies| && Highest(Tallied(eq, replies, asked)) < redundancy && tries <= asked
    ensures
      var end := Round(eq, replies, redundancy, asked, tries);
      end.Stop? ==> Sound(eq, replies, redundancy, end.outcome)
  {
    WinnerIsBacked(eq, replies, redundancy, asked, tries);
    FallbackIsFair(eq, replies, redundancy, asked, tries);
    if Equivalence(eq) {
      RoundIsExact(eq, replies, redundancy, asked, tries);
    }
  }

  lemma {:induction false} RoundsAreSound<R(!new)>(
      eq: (R, R) -> bool, replies: seq<Reply<R>>, redundancy: int, asked: nat, tries: nat)
    requires asked <= |replies| && Highest(Tallied(eq, replies, asked)) < redundancy && tries <= asked
    ensures Sound(eq, replies, redundancy, Rounds(eq, replies, redundancy, asked, tries))
    decreases |replies| - asked
  {
    var end := Round(eq, replies, redundancy, asked, tries);
    if end.Stop? {
      RoundIsSound(eq, replies, redundancy, asked, tries);
    } else {
      RoundsAreSound(eq, replies, redundancy, end.next, tries + 1);
    }
  }

  // The query: a winner has exactly the effective redundancy, and unless the rounds are used up
  // there is a winner exactly when enough of the given nodes agree on a value.
  lemma QueryTheorem<R(!new)>(eq: (R, R) -> bool, replies: seq<Reply<R>>, redundancy: int)
    ensures
      var outcome, needed := Query(eq, replies, redundancy), EffectiveRedundancy(redundancy, |replies|);
      && (outcome.NoNodes? <==> replies == [])
      && (outcome.Won? ==> outcome.item.count == needed && Backed(eq, replies, |replies|, outcome.item))
      && (outcome.OutOfNodes? || outcome.OutOfTries? ==> FairFallback(eq, replies, needed, outcome))
      && (outcome.OutOfTries? ==> |replies| >= 20)
      && (Equivalence(eq) && replies != [] && !outcome.OutOfTries? ==>
            (outcome.Won? <==> EnoughAgree(eq, replies, needed)))
  {
    if replies != [] {
      RoundsAreSound(eq, replies, EffectiveRedundancy(redundancy, |replies|), 0, 0);
    }
  }

  // The same by the redundancy asked for: more than there are nodes means all of them, less than 1 means 3.
  lemma QueryByRedundancy<R(!new)>(eq: (R, R) -> bool, replies: seq<Reply<R>>, redundancy: int)
    ensures
      var outcome, needed := Query(eq, replies, redundancy), if redundancy > |replies| then |replies| else redundancy;
      1 <= redundancy && replies != [] ==>
        && (outcome.Won? ==> outcome.item.count == needed && Backed(eq, replies, |replies|, outcome.item))
        && (Equivalence(eq) && !outcome.OutOfTries? ==> (outcome.Won? <==> EnoughAgree(eq, replies, needed)))
    ensures redundancy < 1 ==> Query(eq, replies, redundancy) == Query(eq, replies, 3)
  {
    QueryTheorem(eq, replies, redundancy);
  }

  // ----- when 20 rounds are enough -----

  // After the first round as many nodes as the redundancy are asked, and one more in every later round.
  predicate Paced(redundancy: int, asked: nat, tries: nat) {
    if tries == 0 then asked == 0 else asked >= redundancy + tries - 1
  }

  lemma TooFewAgree<R(!new)>(eq: (R, R) -> bool, replies: seq<Reply<R>>, redundancy: int)
    requires Equivalence(eq) && Highest(Tallied(eq, replies, |replies|)) < redundancy
    ensures !EnoughAgree(eq, replies, redundancy)
  {
    forall value ensures |Votes(eq, replies, |replies|, value)| < redundancy {
      VotesAtMostHighest(eq, replies, |replies|, value);
    }
  }

  lemma PaceKeeps<R>(eq: (R, R) -> bool, replies: seq<Reply<R>>, redundancy: int, asked: nat, tries: nat)
    requires asked <= |replies| && Highest(Tallied(eq, replies, asked)) < redundancy && Paced(redundancy, asked, tries)
    ensures asked + redundancy - Highest(Tallied(eq, replies, asked)) >= redundancy + tries
  {
    assert asked == 0 ==> Tallied(eq, replies, asked) == [];
  }

  lemma LastRoundAsksAll<R>(eq: (R, R) -> bool, replies: seq<Reply<R>>, redundancy: int, asked: nat, tries: nat)
    requires asked <= |replies| && Highest(Tallied(eq, replies, asked)) < redundancy
    requires Paced(redundancy, asked, tries) && |replies| < redundancy + MAX_TRIES
    ensures
      var end := Round(eq, replies, redundancy, asked, tries);
      && (end.Stop? && end.outcome.OutOfTries? ==> Highest(Tallied(eq, replies, |replies|)) < redundancy)
      && (end.Again? ==> Paced(redundancy, end.next, tries + 1))
  {
    var next := asked + redundancy - Highest(Tallied(eq, replies, asked));
    PaceKeeps(eq, replies, redundancy, asked, tries);
    if next <= |replies| && tries + 1 >= MAX_TRIES {
      assert next == |replies|;
    }
  }

  lemma {:induction false} RoundsSuffice<R(!new)>(
      eq: (R, R) -> bool, replies: seq<Reply<R>>, redundancy: int, asked: nat, tries: nat)
    requires asked <= |replies| && Highest(Tallied(eq, replies, asked)) < redundancy && Equivalence(eq)
    requires Paced(redundancy, asked, tries) && |replies| < redundancy + MAX_TRIES && tries <= asked
    ensures Rounds(eq, replies, redundancy, asked, tries).Won? <==> EnoughAgree(eq, replies, redundancy)
    decreases |replies| - asked
  {
    var end := Round(eq, replies, redundancy, asked, tries);
    LastRoundAsksAll(eq, replies, redundancy, asked, tries);
    if end.Stop? {
      RoundIsSound(eq, replies, redundancy, asked, tries);
      if end.outcome.OutOfTries? {
        TooFewAgree(eq, replies, redundancy);
      }
    } else {
      RoundsSuffice(eq, replies, redundancy, end.next, tries + 1);
    }
  }

  // All but one of the redundancy answer a value, then 20 nodes fail, and only then do others answer it.
  function LateReplies<R>(value: R, redundancy: nat, n: nat): seq<Reply<R>> {
    seq(n, k => if redundancy <= k + 1 < redundancy + MAX_TRIES then Failed else Answer(value))
  }

  lemma {:induction false} LateTally<R(!new)>(eq: (R, R) -> bool, value: R, redundancy: nat, n: nat, k: nat)
    requires Equivalence(eq) && 1 <= redundancy && k <= n && k + 1 < redundancy + MAX_TRIES
    ensures
      var items := Tallied(eq, LateReplies(value, redundancy, n), k);
      var count := if k < redundancy then k else redundancy - 1;
      if count == 0 then items == [] else |items| == 1 && items[0].value == value && items[0].count == count
  {
    if k > 0 {
      LateTally(eq, value, redundancy, n, k - 1);
    }
  }

  lemma LateHighest<R(!new)>(eq: (R, R) -> bool, value: R, redundancy: nat, n: nat, k: nat)
    requires Equivalence(eq) && 1 <= redundancy && k <= n && k + 1 < redundancy + MAX_TRIES
    ensures Highest(Tallied(eq, LateReplies(value, redundancy, n), k)) == if k < redundancy then k else redundancy - 1
  {
    LateTally(eq, value, redundancy, n, k);
    var items := Tallied(eq, LateReplies(value, redundancy, n), k);
    assert |items| == 1 ==> HighestOf(items, 0) == 0 && HighestOf(items, 1) == items[0].count;
  }

  // One vote short, each round asks one more node; if those of the remaining rounds fail, the query ends.
  lemma {:induction false} FailuresHideTheRest<R>(
    eq: (R, R) -> bool, replies: seq<Reply<R>>, redundancy: int, asked: nat, tries: nat)
    requires tries < MAX_TRIES && asked + MAX_TRIES - tries <= |replies|
    requires Highest(Tallied(eq, replies, asked)) == redundancy - 1
    requires forall k :: asked <= k < asked + MAX_TRIES - tries ==> replies[k].Failed?
    ensures Rounds(eq, replies, redundancy, asked, tries) == OutOfTries(Best(Tallied(eq, replies, asked)))
    decreases MAX_TRIES - tries
  {
    assert Tallied(eq, replies, asked + 1) == Tallied(eq, replies, asked);
    if tries + 1 < MAX_TRIES {
      FailuresHideTheRest(eq, replies, redundancy, asked + 1, tries + 1);
    }
  }

  lemma {:induction false} LateVotes<R(!new)>(eq: (R, R) -> bool, value: R, redundancy: nat, n: nat, k: nat)
    requires Equivalence(eq) && 1 <= redundancy && k <= n
    ensures
      var votes := |Votes(eq, LateReplies(value, redundancy, n), k, value)|;
      votes >= (if k < redundancy then k else redundancy - 1) && (k >= redundancy + MAX_TRIES ==> votes >= redundancy)
  {
    if k > 0 {
      LateVotes(eq, value, redundancy, n, k - 1);
    }
  }

  lemma LateAnswersAreMissed<R(!new)>(eq: (R, R) -> bool, value: R, redundancy: nat, n: nat)
    requires Equivalence(eq) && 1 <= redundancy && redundancy + 20 <= n
    ensures
      var replies := LateReplies(value, redundancy, n);
      EnoughAgree(eq, replies, redundancy) && Rounds(eq, replies, redundancy, 0, 0).OutOfTries?
  {
    var replies := LateReplies(value, redundancy, n);
    assert EnoughAgree(eq, replies, redundancy) by {
      LateVotes(eq, value, redundancy, n, n);
      assert |Votes(eq, replies, |replies|, value)| >= redundancy;
    }
    LateHighest(eq, value, redundancy, n, 0);
    LateHighest(eq, value, redundancy, n, redundancy);
    FailuresHideTheRest(eq, replies, redundancy, redundancy, 1);
    assert Round(eq, replies, redundancy, 0, 0) == Again(redundancy);
  }

  // Over all replies of n nodes there is a winner exactly when enough of them agree.
  ghost predicate ExactFor<R(!new)>(eq: (R, R) -> bool, n: nat, redundancy: int) {
    forall replies: seq<Reply<R>> :: |replies| == n ==>
      (Query(eq, replies, redundancy).Won? <==> EnoughAgree(eq, replies, EffectiveRedundancy(redundancy, n)))
  }

  // That holds exactly for fewer nodes than the effective redundancy and 20 more.
  lemma TriesSufficeExactly<R(!new)>(eq: (R, R) -> bool, value: R, n: nat, redundancy: int)
    requires Equivalence(eq) && n > 0
    ensures ExactFor(eq, n, redundancy) <==> n < EffectiveRedundancy(redundancy, n) + 20
  {
    var needed := EffectiveRedundancy(redundancy, n);
    if n < needed + MAX_TRIES {
      forall replies: seq<Reply<R>> | |replies| == n
        ensures Query(eq, replies, redundancy).Won? <==> EnoughAgree(eq, replies, needed)
      {
        RoundsSuffice(eq, replies, needed, 0, 0);
      }
    } else {
      LateAnswersAreMissed(eq, value, needed, n);
      assert !Query(eq, LateReplies(value, needed, n), redundancy).Won?;
    }
  }

  // With redundancy 1, twenty failing nodes end the query, whatever the nodes behind them would answer.
  lemma TwentyFailuresHideTheRest<R>(eq: (R, R) -> bool, replies: seq<Reply<R>>)
    requires |replies| >= 20 && forall k :: 0 <= k < 20 ==> replies[k].Failed?
    ensures Rounds(eq, replies, 1, 0, 0) == OutOfTries(None)
  {
    FailuresHideTheRest(eq, replies, 1, 0, 0);
  }

  // ----- the code -----

  class Tally<R> {
    const winCount: int
    const equalFn: (R, R) -> bool
    var items: seq<TallyItem<R>>

    constructor (winCount: int, equalFn: (R, R) -> bool)
      ensures this.winCount == winCount && this.equalFn == equalFn && items == []
    {
      this.winCount, this.equalFn := winCount, equalFn;
      items := [];
    }

    // Counts a reply; the item it brings to winCount, if it does, is the result.
    method Add(newItem: Reply<R>, node: nat) returns (winner: Option<TallyItem<R>>)
      requires Highest(items) < winCount
      modifies this`items
      ensures items == Counted(equalFn, old(items), newItem, node)
      ensures Highest(items) <= Highest(old(items)) + 1
      ensures winner.None? <==> Highest(items) < winCount
      ensures winner.Some? ==> winner == Best(items)
    {
      winner := None;
      CountedHighest(equalFn, items, newItem, node);
      if !newItem.Answer? {
        return;
      }
      var i := 0;
      while i < |items| && !equalFn(newItem.value, items[i].value)
        invariant 0 <= i <= FirstMatch(equalFn, items, newItem.value)
      {
        i := i + 1;
      }
      CountedLeader(equalFn, items, newItem.value, node, winCount);
      items :=
        if i < |items| then items[i := TallyItem(items[i].value, items[i].count + 1, items[i].nodes + [node])]
        else items + [TallyItem(newItem.value, 1, [node])];
      if items[i].count >= winCount {
        winner := Some(items[i]);
      }
    }

    method GetHighestCount() returns (highestCount: nat)
      ensures highestCount == Highest(items)
    {
      highestCount := 0;
      for i := 0 to |items|
        invariant highestCount == HighestOf(items, i)
      {
        if items[i].count > highestCount {
          highestCount := items[i].count;
        }
      }
    }

    method GetHighestCountItem() returns (best: Option<TallyItem<R>>)
      ensures best == Best(items)
    {
      if |items| == 0 {
        return None;
      }
      var highestCount, highestIndex := 0, 0;
      for i := 0 to |items|
        invariant highestCount == HighestOf(items, i) && 0 <= highestIndex < |items|
        invariant i == 0 ==> highestIndex == 0
        invariant i > 0 ==> BestOf(items, i) == items[highestIndex]
      {
        if items[i].count > highestCount {
          highestCount, highestIndex := items[i].count, i;
        }
      }
      best := Some(items[highestIndex]);
    }
  }

  // The one item that reaches the bound is the best.
  lemma {:induction false} OnlyLeader<R>(items: seq<TallyItem<R>>, n: nat, bound: int, leader: nat)
    requires leader < n <= |items| && bound > 0 && items[leader].count >= bound
    requires forall i :: 0 <= i < n && i != leader ==> items[i].count < bound
    ensures BestOf(items, n) == items[leader] && HighestOf(items, n) >= bound
  {
    if leader == n - 1 {
      HighestAtMost(items, n - 1, bound - 1);
    } else {
      OnlyLeader(items, n - 1, bound, leader);
    }
  }

  // Below the bound, only the item just counted can reach it.
  lemma CountedLeader<R>(eq: (R, R) -> bool, items: seq<TallyItem<R>>, value: R, node: nat, bound: int)
    requires Highest(items) < bound
    ensures
      var i, after := FirstMatch(eq, items, value), Counted(eq, items, Answer(value), node);
      if after[i].count >= bound then Best(after) == Some(after[i]) && Highest(after) >= bound
      else Highest(after) < bound
  {
    var i, after := FirstMatch(eq, items, value), Counted(eq, items, Answer(value), node);
    HighestIsUpper(items, |items|);
    if after[i].count >= bound {
      OnlyLeader(after, |after|, bound, i);
    } else {
      HighestAtMost(after, |after|, bound - 1);
    }
  }

  // queryNodes: counts the replies of the nodes asked in this round, up to a winner.
  method QueryNodes<R>(responses: Tally<R>, replies: seq<Reply<R>>, asked: nat, next: nat)
    returns (finalResult: Option<TallyItem<R>>)
    requires asked <= next <= |replies|
    requires responses.items == Tallied(responses.equalFn, replies, asked)
    requires Highest(responses.items) < responses.winCount
    requires next == asked + responses.winCount - Highest(responses.items)
    modifies responses`items
    ensures responses.items == Tallied(responses.equalFn, replies, next)
    ensures finalResult.None? <==> Highest(responses.items) < responses.winCount
    ensures finalResult.Some? ==> finalResult == Best(responses.items)
  {
    finalResult := None;
    ghost var h := Highest(responses.items);
    var i := asked;
    while i < next && finalResult.None?
      invariant asked <= i <= next
      invariant responses.items == Tallied(responses.equalFn, replies, i)
      invariant finalResult.None? <==> Highest(responses.items) < responses.winCount
      invariant finalResult.Some? ==> finalResult == Best(responses.items)
      invariant Highest(responses.items) <= h + i - asked
    {
      finalResult := responses.Add(replies[i], i);
      i := i + 1;
    }
    assert i == next;
  }

  // One pass of the query loop.
  method QueryRound<R>(responses: Tally<R>, replies: seq<Reply<R>>, asked: nat, triesBefore: nat)
    returns (end: RoundEnd<R>)
    requires asked <= |replies| && responses.items == Tallied(responses.equalFn, replies, asked)
    requires Highest(responses.items) < responses.winCount
    modifies responses`items
    ensures end == Round(responses.equalFn, replies, responses.winCount, asked, triesBefore)
    ensures end.Again? ==> responses.items == Tallied(responses.equalFn, replies, end.next)
  {
    var tries := triesBefore + 1;
    var highest := responses.GetHighestCount();
    var toQuery := responses.winCount - highest;
    if |replies| - asked < toQuery {
      var best := responses.GetHighestCountItem();
      return Stop(OutOfNodes(best));
    }
    var finalResult := QueryNodes(responses, replies, asked, asked + toQuery);
    end := EndRound(responses, finalResult, asked + toQuery, tries);
  }

  method EndRound<R>(responses: Tally<R>, finalResult: Option<TallyItem<R>>, next: nat, tries: nat)
    returns (end: RoundEnd<R>)
    requires tries > 0 && responses.winCount > 0
    requires finalResult.None? <==> Highest(responses.items) < responses.winCount
    requires finalResult.Some? ==> finalResult == Best(responses.items)
    ensures end == AfterReplies(responses.items, responses.winCount, next, tries - 1)
  {
    if finalResult.Some? {
      return Stop(Won(finalResult.value));
    }
    if tries >= MAX_TRIES {
      var best := responses.GetHighestCountItem();
      return Stop(OutOfTries(best));
    }
    end := Again(next);
  }

  // robustQuery, where replies[k] is what the k-th node answers if it is asked.
  method RobustQuery<R>(replies: seq<Reply<R>>, equalityFn: (R, R) -> bool, redundancy: int)
    returns (outcome: Outcome<R>)
    ensures outcome == Query(equalityFn, replies, redundancy)
  {
    if |replies| == 0 {
      return NoNodes;
    }
    var needed := EffectiveRedundancy(redundancy, |replies|);
    var responses := new Tally<R>(needed, equalityFn);
    var asked, tries := 0, 0;
    while true
      invariant 0 <= tries && 0 <= asked <= |replies|
      invariant fresh(responses) && responses.winCount == needed && responses.equalFn == equalityFn
      invariant responses.items == Tallied(equalityFn, replies, asked) && Highest(responses.items) < needed
      invariant Query(equalityFn, replies, redundancy) == Rounds(equalityFn, replies, needed, asked, tries)
      decreases |replies| - asked
    {
      var end := QueryRound(responses, replies, asked, tries);
      if end.Stop? {
        return end.outcome;
      }
      asked, tries := end.next, tries + 1;
    }
  }
}
