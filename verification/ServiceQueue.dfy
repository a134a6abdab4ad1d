/** The sorted list of network transactions (src/ServiceQueue.ts:17-56, 70-85). */
module ServiceQueue {
  import opened Basics

  datatype NetworkTx = NetworkTx(hash: nat, cycle: int, priority: int, txData: nat)

  // ----- the order -----

  // Where an insertion stops.
  predicate Follows(item: NetworkTx, entry: NetworkTx) {
    || item.cycle > entry.cycle
    || (item.cycle == entry.cycle && item.priority < entry.priority)
    || (item.cycle == entry.cycle && item.priority == entry.priority && item.hash > entry.hash)
  }

  // Cycles ascend; within a cycle priorities descend; within a priority hashes ascend.
  ghost predicate Sorted(list: seq<NetworkTx>) {
    forall i, j :: 0 <= i < j < |list| ==> InOrder(list[i], list[j])
  }

  predicate InOrder(a: NetworkTx, b: NetworkTx) {
    && a.cycle <= b.cycle
    && (a.cycle == b.cycle ==> a.priority >= b.priority)
    && (a.cycle == b.cycle && a.priority == b.priority ==> a.hash <= b.hash)
  }

  // ----- the operations on values -----

  // The index of the first element from i that follows an entry, or the length.
  function PlaceFrom(list: seq<NetworkTx>, entry: NetworkTx, i: nat): (p: nat)
    requires i <= |list|
    ensures i <= p <= |list| && (p < |list| ==> Follows(list[p], entry))
    ensures forall k :: i <= k < p ==> !Follows(list[k], entry)
    decreases |list| - i
  {
    if i == |list| || Follows(list[i], entry) then i else PlaceFrom(list, entry, i + 1)
  }

  function Insert(list: seq<NetworkTx>, entry: NetworkTx): seq<NetworkTx> {
    var p := PlaceFrom(list, entry, 0);
    list[..p] + [entry] + list[p..]
  }

  function FindFrom(list: seq<NetworkTx>, hash: nat, i: nat): (q: nat)
    requires i <= |list|
    ensures i <= q <= |list| && (q < |list| ==> list[q].hash == hash)
    ensures forall k :: i <= k < q ==> list[k].hash != hash
    decreases |list| - i
  {
    if i == |list| || list[i].hash == hash then i else FindFrom(list, hash, i + 1)
  }

  function Remove(list: seq<NetworkTx>, hash: nat): seq<NetworkTx> {
    var q := FindFrom(list, hash, 0);
    if q == |list| then list else list[..q] + list[q + 1..]
  }

  datatype Operation = Add(tx: NetworkTx) | Delete(hash: nat)

  function Perform(list: seq<NetworkTx>, op: Operation): seq<NetworkTx> {
    match op
    case Add(tx) => Insert(list, tx)
    case Delete(hash) => Remove(list, hash)
  }

  function PerformAll(list: seq<NetworkTx>, ops: seq<Operation>): seq<NetworkTx> {
    if ops == [] then list else Perform(PerformAll(list, ops[..|ops| - 1]), ops[|ops| - 1])
  }

  // ----- the list stays sorted -----

  lemma InsertIsSorted(list: seq<NetworkTx>, entry: NetworkTx)
    requires Sorted(list)
    ensures Sorted(Insert(list, entry)) && multiset(Insert(list, entry)) == multiset(list) + multiset{entry}
  {
    var p := PlaceFrom(list, entry, 0);
    forall k | 0 <= k < |list[p..]| ensures Follows(list[p..][k], entry) {
      AllFollow(list, entry, p, list[p..][k]);
    }
    SplitAt(list, p, |list|);
    assert list[..|list|] == list && list[p..|list|] == list[p..];
    SortedAround(list[..p], entry, list[p..]);
    OneMore(list[..p], entry, list[p..]);
  }

  lemma OneMore(before: seq<NetworkTx>, entry: NetworkTx, after: seq<NetworkTx>)
    ensures multiset(before + [entry] + after) == multiset(before + after) + multiset{entry}
  {
  }

  lemma AllFollow(list: seq<NetworkTx>, entry: NetworkTx, p: nat, x: NetworkTx)
    requires Sorted(list) && p < |list| && Follows(list[p], entry) && x in list[p..]
    ensures Follows(x, entry)
  {
    var k :| 0 <= k < |list[p..]| && list[p..][k] == x;
    assert x == list[p + k];
    assert k > 0 ==> InOrder(list[p], x);
  }

  lemma SortedAround(before: seq<NetworkTx>, entry: NetworkTx, after: seq<NetworkTx>)
    requires Sorted(before + after)
    requires forall k :: 0 <= k < |before| ==> !Follows(before[k], entry)
    requires forall k :: 0 <= k < |after| ==> Follows(after[k], entry)
    ensures Sorted(before + [entry] + after)
  {
    var list, longer := before + after, before + [entry] + after;
    forall i, j | 0 <= i < j < |longer| ensures InOrder(longer[i], longer[j]) {
      if i != |before| && j != |before| {
        var i', j' := if i < |before| then i else i - 1, if j < |before| then j else j - 1;
        assert longer[i] == list[i'] && longer[j] == list[j'] && InOrder(list[i'], list[j']);
      }
    }
  }

  // A removal takes the first entry with the hash, and nothing if there is none.
  lemma RemovesFirst(list: seq<NetworkTx>, hash: nat, q: nat)
    requires q <= |list| && forall k :: 0 <= k < q ==> list[k].hash != hash
    requires q < |list| ==> list[q].hash == hash
    ensures Remove(list, hash) == if q < |list| then list[..q] + list[q + 1..] else list
  {
    var at := FindFrom(list, hash, 0);
    assert at < |list| ==> list[at].hash == hash;
    assert at == q;
  }

  lemma RemoveIsSorted(list: seq<NetworkTx>, hash: nat)
    requires Sorted(list)
    ensures Sorted(Remove(list, hash))
  {
  }

  lemma {:induction false} StaysSorted(list: seq<NetworkTx>, ops: seq<Operation>)
    requires Sorted(list)
    ensures Sorted(PerformAll(list, ops))
  {
    if ops != [] {
      var before := PerformAll(list, ops[..|ops| - 1]);
      StaysSorted(list, ops[..|ops| - 1]);
      match ops[|ops| - 1]
      case Add(tx) => InsertIsSorted(before, tx);
      case Delete(hash) => RemoveIsSorted(before, hash);
    }
  }

  // ----- the list is determined by what happens to each hash -----

  function WithHash(list: seq<NetworkTx>, hash: nat): seq<NetworkTx> {
    if list == [] then []
    else (if list[0].hash == hash then [list[0]] else []) + WithHash(list[1..], hash)
  }

  function HashOf(op: Operation): nat { if op.Add? then op.tx.hash else op.hash }

  function OperationsOn(ops: seq<Operation>, hash: nat): seq<Operation> {
    if ops == [] then [] else
      OperationsOn(ops[..|ops| - 1], hash) + if HashOf(ops[|ops| - 1]) == hash then [ops[|ops| - 1]] else []
  }

  lemma {:induction false} WithHashConcat(a: seq<NetworkTx>, b: seq<NetworkTx>, hash: nat)
    ensures WithHash(a + b, hash) == WithHash(a, hash) + WithHash(b, hash)
  {
    if a == [] {
      assert a + b == b;
    } else {
      WithHashConcat(a[1..], b, hash);
      assert (a + b)[1..] == a[1..] + b;
      Regroup(if a[0].hash == hash then [a[0]] else [], WithHash(a[1..], hash), WithHash(b, hash));
    }
  }

  lemma {:induction false} WithHashMembers(list: seq<NetworkTx>, hash: nat)
    ensures forall x :: x in WithHash(list, hash) <==> x in list && x.hash == hash
  {
    if list != [] {
      WithHashMembers(list[1..], hash);
      assert list == [list[0]] + list[1..];
    }
  }

  lemma {:induction false} AllWithHash(list: seq<NetworkTx>, hash: nat)
    ensures (forall x :: x in list ==> x.hash == hash) ==> WithHash(list, hash) == list
    ensures (forall x :: x in list ==> x.hash != hash) ==> WithHash(list, hash) == []
  {
    if list != [] {
      AllWithHash(list[1..], hash);
      assert list == [list[0]] + list[1..];
    }
  }

  lemma InsertOnHash(list: seq<NetworkTx>, entry: NetworkTx, hash: nat)
    requires Sorted(list)
    ensures WithHash(Insert(list, entry), hash) ==
      if entry.hash == hash then Insert(WithHash(list, hash), entry) else WithHash(list, hash)
  {
    var p := PlaceFrom(list, entry, 0);
    assert list == list[..p] + list[p..];
    WithHashConcat(list[..p], list[p..], hash);
    WithHashAround(list[..p], entry, list[p..], hash);
    if entry.hash == hash {
      PlaceOnHash(list, entry, p, hash);
    }
  }

  lemma WithHashAround(before: seq<NetworkTx>, entry: NetworkTx, after: seq<NetworkTx>, hash: nat)
    ensures WithHash(before + [entry] + after, hash) ==
      WithHash(before, hash) + (if entry.hash == hash then [entry] else []) + WithHash(after, hash)
  {
    WithHashConcat(before + [entry], after, hash);
    WithHashConcat(before, [entry], hash);
  }

  lemma PlaceOnHash(list: seq<NetworkTx>, entry: NetworkTx, p: nat, hash: nat)
    requires Sorted(list) && p == PlaceFrom(list, entry, 0)
    ensures Insert(WithHash(list[..p], hash) + WithHash(list[p..], hash), entry) ==
      WithHash(list[..p], hash) + [entry] + WithHash(list[p..], hash)
  {
    WithHashMembers(list[..p], hash);
    WithHashMembers(list[p..], hash);
    forall x | x in list[p..] ensures Follows(x, entry) {
      AllFollow(list, entry, p, x);
    }
    PlaceBetween(WithHash(list[..p], hash), WithHash(list[p..], hash), entry);
  }

  lemma PlaceBetween(before: seq<NetworkTx>, after: seq<NetworkTx>, entry: NetworkTx)
    requires forall x :: x in before ==> !Follows(x, entry)
    requires forall x :: x in after ==> Follows(x, entry)
    ensures Insert(before + after, entry) == before + [entry] + after
  {
    var list := before + after;
    var p := PlaceFrom(list, entry, 0);
    forall k | 0 <= k < |before| ensures !Follows(list[k], entry) {
      assert list[k] == before[k];
    }
    assert after != [] ==> list[|before|] == after[0] && after[0] in after;
    assert p == |before|;
    assert list[..p] == before && list[p..] == after;
  }

  lemma RemoveOnHash(list: seq<NetworkTx>, removed: nat, hash: nat)
    ensures WithHash(Remove(list, removed), hash) ==
      if removed == hash then Remove(WithHash(list, hash), hash) else WithHash(list, hash)
  {
    var q := FindFrom(list, removed, 0);
    if q < |list| {
      assert list == list[..q] + ([list[q]] + list[q + 1..]);
      WithHashConcat(list[..q], [list[q]] + list[q + 1..], hash);
      WithHashConcat([list[q]], list[q + 1..], hash);
      WithHashConcat(list[..q], list[q + 1..], hash);
      if removed == hash {
        AllWithHash(list[..q], hash);
        assert WithHash(list, hash) == [list[q]] + WithHash(list[q + 1..], hash);
      }
    } else {
      AllWithHash(list, hash);
    }
  }

  // What the list holds for a hash is what the operations on that hash alone would leave.
  lemma {:induction false} HashesAreIndependent(ops: seq<Operation>, hash: nat)
    ensures WithHash(PerformAll([], ops), hash) == PerformAll([], OperationsOn(ops, hash))
  {
    if ops != [] {
      var front, op := ops[..|ops| - 1], ops[|ops| - 1];
      HashesAreIndependent(front, hash);
      StaysSorted([], front);
      PerformOnHash(PerformAll([], front), op, hash);
      PerformSnoc([], OperationsOn(front, hash), op);
      assert OperationsOn(front, hash) + [] == OperationsOn(front, hash);
    }
  }

  lemma PerformOnHash(list: seq<NetworkTx>, op: Operation, hash: nat)
    requires Sorted(list)
    ensures WithHash(Perform(list, op), hash) ==
      if HashOf(op) == hash then Perform(WithHash(list, hash), op) else WithHash(list, hash)
  {
    match op
    case Add(tx) => InsertOnHash(list, tx, hash);
    case Delete(removed) => RemoveOnHash(list, removed, hash);
  }

  lemma PerformSnoc(list: seq<NetworkTx>, ops: seq<Operation>, op: Operation)
    ensures PerformAll(list, ops + [op]) == Perform(PerformAll(list, ops), op)
  {
    assert (ops + [op])[..|ops|] == ops;
  }

  // A sorted list is determined by what it holds for each hash.
  lemma {:induction false} SortedIsDetermined(a: seq<NetworkTx>, b: seq<NetworkTx>)
    requires Sorted(a) && Sorted(b) && forall hash :: WithHash(a, hash) == WithHash(b, hash)
    ensures a == b
  {
    if a == [] || b == [] {
      EmptyWithHash(a, b);
      EmptyWithHash(b, a);
    } else {
      SameHead(a, b);
      assert a == [a[0]] + a[1..] && b == [b[0]] + b[1..];
      forall hash ensures WithHash(a[1..], hash) == WithHash(b[1..], hash) {
        assert WithHash(a, hash) == WithHash(b, hash);
        TailWithHash(a, hash);
        TailWithHash(b, hash);
      }
      SortedIsDetermined(a[1..], b[1..]);
    }
  }

  lemma TailWithHash(a: seq<NetworkTx>, hash: nat)
    requires a != []
    ensures WithHash(a[1..], hash) ==
      if a[0].hash == hash && WithHash(a, hash) != [] then WithHash(a, hash)[1..] else WithHash(a, hash)
  {
  }

  lemma EmptyWithHash(a: seq<NetworkTx>, b: seq<NetworkTx>)
    requires forall hash :: WithHash(a, hash) == WithHash(b, hash)
    ensures a == [] ==> b == []
  {
    assert b != [] ==> WithHash(b, b[0].hash) != [];
    assert a == [] ==> b != [] ==> WithHash(a, b[0].hash) == [];
  }

  lemma SameHead(a: seq<NetworkTx>, b: seq<NetworkTx>)
    requires Sorted(a) && Sorted(b) && forall hash :: WithHash(a, hash) == WithHash(b, hash)
    requires a != [] && b != []
    ensures a[0] == b[0]
  {
    HeadNotBefore(a, b);
    HeadNotBefore(b, a);
    assert WithHash(a, a[0].hash)[0] == a[0] && WithHash(b, b[0].hash)[0] == b[0];
  }

  lemma HeadNotBefore(a: seq<NetworkTx>, b: seq<NetworkTx>)
    requires Sorted(b) && forall hash :: WithHash(a, hash) == WithHash(b, hash)
    requires a != [] && b != []
    ensures a[0] in b && !Follows(b[0], a[0])
  {
    var hash := a[0].hash;
    assert WithHash(a, hash) == WithHash(b, hash) && WithHash(a, hash)[0] == a[0];
    WithHashMembers(b, hash);
    assert a[0] in WithHash(b, hash);
    var j :| 0 <= j < |b| && b[j] == a[0];
    assert j > 0 ==> InOrder(b[0], b[j]);
  }

  // Operations on different hashes can come in any order: as long as those on each hash
  // keep theirs, the list is the same.
  lemma OrderAcrossHashesDoesNotMatter(ops: seq<Operation>, others: seq<Operation>)
    requires forall hash :: OperationsOn(ops, hash) == OperationsOn(others, hash)
    ensures PerformAll([], ops) == PerformAll([], others)
  {
    StaysSorted([], ops);
    StaysSorted([], others);
    forall hash ensures WithHash(PerformAll([], ops), hash) == WithHash(PerformAll([], others), hash) {
      HashesAreIndependent(ops, hash);
      HashesAreIndependent(others, hash);
      assert OperationsOn(ops, hash) == OperationsOn(others, hash);
    }
    SortedIsDetermined(PerformAll([], ops), PerformAll([], others));
  }

  ghost predicate Tied(a: NetworkTx, b: NetworkTx) {
    a.cycle == b.cycle && a.priority == b.priority && a.hash == b.hash
  }

  // Two additions can be swapped exactly when they are equal or the order tells them apart.
  lemma AdditionsCommuteExactly(list: seq<NetworkTx>, a: NetworkTx, b: NetworkTx)
    requires Sorted(list)
    ensures Insert(Insert(list, a), b) == Insert(Insert(list, b), a) <==> a == b || !Tied(a, b)
  {
    InsertIsSorted(list, a);
    InsertIsSorted(list, b);
    if Tied(a, b) {
      TiedAreInOrderOfArrival(list, a, b);
      TiedAreInOrderOfArrival(list, b, a);
      var p := PlaceFrom(list, a, 0);
      assert p == PlaceFrom(list, b, 0);
      assert (list[..p] + [a, b] + list[p..])[p] == a && (list[..p] + [b, a] + list[p..])[p] == b;
    } else if Follows(b, a) {
      InOrderEitherWay(list, a, b);
    } else {
      InOrderEitherWay(list, b, a);
    }
  }

  lemma TiedAreInOrderOfArrival(list: seq<NetworkTx>, a: NetworkTx, b: NetworkTx)
    requires Sorted(list) && Tied(a, b)
    ensures
      var p := PlaceFrom(list, a, 0);
      Insert(Insert(list, a), b) == list[..p] + [a, b] + list[p..]
  {
    var p := PlaceFrom(list, a, 0);
    assert list == list[..p] + list[p..];
    forall x | x in list[p..] ensures Follows(x, b) {
      AllFollow(list, a, p, x);
    }
    PlaceBetween(list[..p] + [a], list[p..], b);
    assert list[..p] + [a] + [b] == list[..p] + [a, b];
  }

  lemma InOrderEitherWay(list: seq<NetworkTx>, a: NetworkTx, b: NetworkTx)
    requires Sorted(list) && Follows(b, a)
    ensures Insert(Insert(list, a), b) == Insert(Insert(list, b), a)
  {
    var p, q := PlaceFrom(list, a, 0), PlaceFrom(list, b, 0);
    assert p <= q;
    var first, middle, last := list[..p], list[p..q], list[q..];
    SplitAt(list, p, q);
    forall x | x in last ensures Follows(x, b) {
      AllFollow(list, b, q, x);
    }
    forall x | x in middle + last ensures Follows(x, a) {
      AllFollow(list, a, p, x);
    }
    BothWays(first, middle, last, a, b);
    Regroup(first + [a], middle, last);
    Regroup(first, middle, [b] + last);
    Regroup(middle, [b], last);
    Regroup(first + middle, [b], last);
  }

  lemma SplitAt(list: seq<NetworkTx>, p: nat, q: nat)
    requires p <= q <= |list|
    ensures list[..q] == list[..p] + list[p..q] && list[p..] == list[p..q] + list[q..]
  {
  }

  lemma BothWays(first: seq<NetworkTx>, middle: seq<NetworkTx>, last: seq<NetworkTx>, a: NetworkTx, b: NetworkTx)
    requires Follows(b, a)
    requires (forall x :: x in first + middle ==> !Follows(x, b)) && (forall x :: x in last ==> Follows(x, b))
    requires (forall x :: x in first ==> !Follows(x, a)) && (forall x :: x in middle + last ==> Follows(x, a))
    ensures Insert(first + [a] + middle + last, b) == Insert(first + (middle + [b] + last), a)
  {
    forall x | x in first + [a] + middle ensures !Follows(x, b) {
      assert x == a || x in first + middle;
    }
    forall x | x in middle + [b] + last ensures Follows(x, a) {
      assert x == b || x in middle + last;
    }
    PlaceBetween(first + [a] + middle, last, b);
    PlaceBetween(first, middle + [b] + last, a);
  }

  // ----- the code -----

  class TxQueue {
    var txList: seq<NetworkTx>

    constructor (restored: seq<NetworkTx>)
      ensures txList == restored
    {
      txList := restored;
    }

    method SortedInsert(entry: NetworkTx)
      modifies this
      ensures txList == Insert(old(txList), entry)
    {
      var index := 0;
      while index < |txList| && !Follows(txList[index], entry)
        invariant 0 <= index <= |txList| && PlaceFrom(txList, entry, index) == PlaceFrom(txList, entry, 0)
        invariant txList == old(txList)
      {
        index := index + 1;
      }
      txList := txList[..index] + [entry] + txList[index..];
    }

    method AddTxs(addTxs: seq<NetworkTx>)
      modifies this
      ensures txList == PerformAll(old(txList), seq(|addTxs|, k requires 0 <= k < |addTxs| => Add(addTxs[k])))
    {
      ghost var ops := seq(|addTxs|, k requires 0 <= k < |addTxs| => Add(addTxs[k]));
      for k := 0 to |addTxs|
        invariant txList == PerformAll(old(txList), ops[..k])
      {
        assert ops[..k + 1][..k] == ops[..k];
        SortedInsert(addTxs[k]);
      }
      assert ops[..|addTxs|] == ops;
    }

    method RemoveTxs(removeTxs: seq<nat>)
      modifies this
      ensures txList ==
        PerformAll(old(txList), seq(|removeTxs|, k requires 0 <= k < |removeTxs| => Delete(removeTxs[k])))
    {
      ghost var ops := seq(|removeTxs|, k requires 0 <= k < |removeTxs| => Delete(removeTxs[k]));
      for k := 0 to |removeTxs|
        invariant txList == PerformAll(old(txList), ops[..k])
      {
        assert ops[..k + 1][..k] == ops[..k];
        var index := 0;
        while index < |txList| && txList[index].hash != removeTxs[k]
          invariant 0 <= index <= |txList| && FindFrom(txList, removeTxs[k], index) == FindFrom(txList, removeTxs[k], 0)
        {
          index := index + 1;
        }
        if index < |txList| {
          txList := txList[..index] + txList[index + 1..];
        }
      }
      assert ops[..|removeTxs|] == ops;
    }
  }
}
