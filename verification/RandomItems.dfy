/** Drawing random elements with a sparse, lazy Fisher-Yates shuffle (src/Utils.ts:391-421). */
module RandomItems {
  import opened Basics
  import opened Wrappers

  // ----- the eager shuffle -----

  // Draws w[x] for each x in turn, each time moving the last of the first `len` elements into the gap.
  function Draws<T>(w: seq<T>, xs: seq<nat>, len: nat): (out: seq<T>)
    decreases len
    requires |xs| <= len <= |w| && forall k :: 0 <= k < |xs| ==> xs[k] < |w|
    ensures |out| == |xs|
  {
    if xs == [] then [] else [w[xs[0]]] + Draws(w[xs[0] := w[len - 1]], xs[1..], len - 1)
  }

  lemma ProductSign(x: real, y: real)
    requires 0.0 <= x
    ensures 0.0 <= y ==> 0.0 <= x * y
    ensures y <= 0.0 ==> x * y <= 0.0
    ensures 0.0 < x && 0.0 < y ==> 0.0 < x * y
  {
  }

  lemma Distribute(random: real, d: real)
    ensures (1.0 - random) * d == d - random * d
  {
  }

  // A point between a and a + d.
  function PointAt(random: real, a: real, d: real): (at: real)
    requires 0.0 <= random < 1.0
    ensures if 0.0 < d then a <= at < a + d else a + d <= at <= a
  {
    var along := random * d;
    assert if 0.0 < d then 0.0 <= along < d else d <= along <= 0.0 by {
      ProductSign(random, d);
      ProductSign(1.0 - random, d);
      Distribute(random, d);
    }
    a + along
  }

  // Math.floor(avoid + random * (len - avoid))
  function Pick(random: real, avoid: nat, len: nat): (x: nat)
    requires 0.0 <= random < 1.0
    ensures if avoid < len then avoid <= x < len else len <= x <= avoid
    ensures (x - avoid) as real <= random * (len - avoid) as real < (x - avoid + 1) as real
  {
    assert (len - avoid) as real == len as real - avoid as real;
    PointAt(random, avoid as real, len as real - avoid as real).Floor
  }

  ghost predicate IsRandom(random: nat -> real) {
    forall k: nat :: 0.0 <= random(k) < 1.0
  }

  function PickedAt(random: nat -> real, avoid: nat, len: nat, k: nat): nat
    requires IsRandom(random) && k <= len
  {
    Pick(random(k), avoid, len - k)
  }

  // The indices the loop picks in `count` rounds.
  function Picks(random: nat -> real, avoid: nat, len: nat, count: nat): (xs: seq<nat>)
    requires IsRandom(random) && count <= len
    ensures |xs| == count
  {
    seq(count, k requires 0 <= k < count => PickedAt(random, avoid, len, k))
  }

  // Each index has its own equal share of the random numbers: one part in len - avoid.
  lemma EqualShares(random: real, avoid: nat, len: nat, x: nat)
    requires 0.0 <= random < 1.0
    ensures Pick(random, avoid, len) == x <==>
      (x - avoid) as real <= random * (len - avoid) as real < (x - avoid + 1) as real
  {
    var along := random * (len - avoid) as real;
    assert (len - avoid) as real == len as real - avoid as real;
    assert PointAt(random, avoid as real, len as real - avoid as real) == avoid as real + along;
  }

  // So does each index of every round, of the elements that are left by then.
  lemma EqualSharesInTurn(random: nat -> real, avoid: nat, len: nat, count: nat, k: nat, x: nat)
    requires IsRandom(random) && k < count <= len
    ensures Picks(random, avoid, len, count)[k] == x <==>
      (x - avoid) as real <= random(k) * (len - k - avoid) as real < (x - avoid + 1) as real
  {
    EqualShares(random(k), avoid, len - k, x);
  }

  lemma PicksAreIndices(random: nat -> real, avoid: nat, len: nat, count: nat)
    requires IsRandom(random) && count <= len
    ensures forall k :: 0 <= k < count ==> Picks(random, avoid, len, count)[k] < Max(len, avoid + 1)
  {
    forall k | 0 <= k < count ensures Picks(random, avoid, len, count)[k] < Max(len, avoid + 1) {
      assert Picks(random, avoid, len, count)[k] == Pick(random(k), avoid, len - k);
    }
  }

  function Iota(n: nat): (s: seq<nat>)
    ensures |s| == n && forall k :: 0 <= k < n ==> s[k] == k
  {
    seq(n, k => k)
  }

  // The positions drawn, in order. Positions from `len` on hold nothing.
  ghost function Positions(random: nat -> real, avoid: nat, len: nat, count: nat): (positions: seq<nat>)
    requires IsRandom(random) && count <= len
    ensures |positions| == count
  {
    PicksAreIndices(random, avoid, len, count);
    Draws(Iota(Max(len, avoid + 1)), Picks(random, avoid, len, count), len)
  }

  // The element at a position, or undefined.
  function At<T>(arr: seq<T>, position: nat): Option<T> {
    if position < |arr| then Some(arr[position]) else None
  }

  // ----- what is drawn -----

  ghost predicate Holds<T>(w: seq<T>, from: nat, to: nat, x: T)
    requires to <= |w|
  {
    exists j :: from <= j < to && w[j] == x
  }

  // While every index lies in avoid..len, the draws are distinct and come from that part of the array.
  lemma {:induction false} DrawsAreDistinct(w: seq<nat>, xs: seq<nat>, len: nat, avoid: nat)
    requires |xs| <= len <= |w| && Distinct(w[..len])
    requires forall k :: 0 <= k < |xs| ==> avoid <= xs[k] < len - k
    ensures Distinct(Draws(w, xs, len))
    ensures forall k :: 0 <= k < |xs| ==> Holds(w, avoid, len, Draws(w, xs, len)[k])
    decreases len
  {
    if xs != [] {
      var x, rest := xs[0], xs[1..];
      var w' := w[x := w[len - 1]];
      assert forall k :: 0 <= k < |rest| ==> rest[k] == xs[k + 1];
      RestIsDistinct(w, x, len);
      DrawsAreDistinct(w', rest, len - 1, avoid);
      var later := Draws(w', rest, len - 1);
      forall k | 0 <= k < |later| ensures Holds(w, avoid, len, later[k]) && later[k] != w[x] {
        RestComesFrom(w, x, len, avoid, later[k]);
      }
      assert w[x] == Draws(w, xs, len)[0] && Holds(w, avoid, len, w[x]);
    }
  }

  // Different indices bring different draws.
  lemma {:induction false} DrawsDetermineIndices(w: seq<nat>, xs: seq<nat>, ys: seq<nat>, len: nat)
    requires |xs| == |ys| <= len <= |w| && Distinct(w[..len])
    requires forall k :: 0 <= k < |xs| ==> xs[k] < len - k && ys[k] < len - k
    requires Draws(w, xs, len) == Draws(w, ys, len)
    ensures xs == ys
    decreases len
  {
    if xs != [] {
      assert w[..len][xs[0]] == Draws(w, xs, len)[0] == Draws(w, ys, len)[0] == w[..len][ys[0]];
      RestIsDistinct(w, xs[0], len);
      assert forall k :: 0 <= k < |xs| - 1 ==> xs[1..][k] == xs[k + 1] && ys[1..][k] == ys[k + 1];
      assert Draws(w, xs, len)[1..] == Draws(w, ys, len)[1..];
      DrawsDetermineIndices(w[xs[0] := w[len - 1]], xs[1..], ys[1..], len - 1);
      assert xs == [xs[0]] + xs[1..] && ys == [ys[0]] + ys[1..];
    }
  }

  // Every selection of distinct elements of the part that is not avoided, in any order, is drawn for some indices.
  lemma {:induction false} EverySelectionIsDrawn(w: seq<nat>, out: seq<nat>, len: nat, avoid: nat)
    returns (xs: seq<nat>)
    requires |out| <= len <= |w| && Distinct(w[..len]) && Distinct(out)
    requires forall k :: 0 <= k < |out| ==> Holds(w, avoid, len, out[k])
    ensures |xs| == |out| && forall k :: 0 <= k < |xs| ==> avoid <= xs[k] < len - k
    ensures Draws(w, xs, len) == out
    decreases len
  {
    if out == [] {
      xs := [];
    } else {
      var x :| avoid <= x < len && w[x] == out[0];
      var w', later := w[x := w[len - 1]], out[1..];
      RestIsDistinct(w, x, len);
      forall k | 0 <= k < |later| ensures Holds(w', avoid, len - 1, later[k]) {
        assert later[k] == out[k + 1] != out[0];
        var j :| avoid <= j < len && w[j] == later[k];
        assert w'[if j == len - 1 then x else j] == later[k];
      }
      assert Distinct(later);
      var rest := EverySelectionIsDrawn(w', later, len - 1, avoid);
      xs := [x] + rest;
      assert xs[1..] == rest;
    }
  }

  lemma RestIsDistinct(w: seq<nat>, x: nat, len: nat)
    requires x < len <= |w| && Distinct(w[..len])
    ensures Distinct(w[x := w[len - 1]][..len - 1])
  {
    assert forall j :: 0 <= j < len ==> w[..len][j] == w[j];
  }

  lemma RestComesFrom(w: seq<nat>, x: nat, len: nat, avoid: nat, y: nat)
    requires avoid <= x < len <= |w| && Distinct(w[..len])
    requires Holds(w[x := w[len - 1]], avoid, len - 1, y)
    ensures Holds(w, avoid, len, y) && y != w[x]
  {
    var j :| avoid <= j < len - 1 && w[x := w[len - 1]][j] == y;
    assert forall i :: 0 <= i < len ==> w[..len][i] == w[i];
    if j == x {
      assert w[len - 1] == y;
    } else {
      assert w[j] == y;
    }
  }

  // Once only the avoided part is left, the index is stuck at `avoid` and the last element is drawn again.
  lemma {:induction false} DrawsRepeat(w: seq<nat>, xs: seq<nat>, len: nat, avoid: nat)
    requires avoid < len <= |w| && len - avoid < |xs| <= len
    requires forall k :: 0 <= k < len - avoid ==> avoid <= xs[k] < len - k
    requires xs[len - avoid] == avoid && forall k :: 0 <= k < |xs| ==> xs[k] < |w|
    ensures Draws(w, xs, len)[len - avoid - 1] == Draws(w, xs, len)[len - avoid]
    decreases len
  {
    var w' := w[xs[0] := w[len - 1]];
    if avoid + 1 == len {
      assert xs[1..][0] == xs[1];
    } else {
      assert forall k :: 0 <= k < |xs| - 1 ==> xs[1..][k] == xs[k + 1];
      DrawsRepeat(w', xs[1..], len - 1, avoid);
    }
  }

  // Whatever the random numbers, the positions drawn are distinct and inside the array exactly when
  // nothing is avoided or no more than the unavoided part is asked for; then none is avoided.
  lemma DistinctExactly(random: nat -> real, avoid: nat, len: nat, n: nat)
    requires IsRandom(random) && n >= 2 && len >= 1
    ensures
      var positions := Positions(random, avoid, len, Min(n, len));
      && (Distinct(positions) && (forall k :: 0 <= k < |positions| ==> positions[k] < len) <==>
            avoid == 0 || n <= len - avoid)
      && (avoid == 0 || n <= len - avoid ==> forall k :: 0 <= k < |positions| ==> avoid <= positions[k])
  {
    var count := Min(n, len);
    var w, xs := Iota(Max(len, avoid + 1)), Picks(random, avoid, len, count);
    PicksAreIndices(random, avoid, len, count);
    forall k | 0 <= k < count
      ensures if avoid < len - k then avoid <= xs[k] < len - k else len - k <= xs[k] <= avoid
    {
      assert xs[k] == Pick(random(k), avoid, len - k);
    }
    var positions := Positions(random, avoid, len, count);
    assert positions == Draws(w, xs, len);
    if avoid == 0 || n <= len - avoid {
      DrawsAreDistinct(w, xs, len, avoid);
      FromIota(w, positions, len, avoid);
    } else if avoid < len {
      DrawsRepeat(w, xs, len, avoid);
      assert positions[len - avoid - 1] == positions[len - avoid];
    } else {
      assert positions[0] == w[xs[0]] == xs[0] >= len;
    }
  }

  lemma FromIota(w: seq<nat>, out: seq<nat>, len: nat, avoid: nat)
    requires len <= |w| && w == Iota(|w|)
    requires forall k :: 0 <= k < |out| ==> Holds(w, avoid, len, out[k])
    ensures forall k :: 0 <= k < |out| ==> avoid <= out[k] < len
  {
  }

  // Drawing every element once permutes them.
  lemma {:induction false} DrawsArePermutation<T>(w: seq<T>, xs: seq<nat>, len: nat)
    requires |xs| == len <= |w| && forall k :: 0 <= k < |xs| ==> xs[k] < len - k
    ensures multiset(Draws(w, xs, len)) == multiset(w[..len])
    decreases len
  {
    if len == 0 {
      assert w[..0] == [];
    } else {
      var x := xs[0];
      var w' := w[x := w[len - 1]];
      assert forall k :: 0 <= k < |xs| - 1 ==> xs[1..][k] == xs[k + 1];
      FillingTheGap(w, x, len);
      DrawsArePermutation(w', xs[1..], len - 1);
      FirstDraw(w, xs, len);
    }
  }

  lemma FirstDraw<T>(w: seq<T>, xs: seq<nat>, len: nat)
    requires 0 < |xs| <= len <= |w| && forall k :: 0 <= k < |xs| ==> xs[k] < |w|
    ensures multiset(Draws(w, xs, len)) ==
      multiset([w[xs[0]]]) + multiset(Draws(w[xs[0] := w[len - 1]], xs[1..], len - 1))
  {
    assert Draws(w, xs, len) == [w[xs[0]]] + Draws(w[xs[0] := w[len - 1]], xs[1..], len - 1);
  }

  lemma FillingTheGap<T>(w: seq<T>, x: nat, len: nat)
    requires x < len <= |w|
    ensures multiset([w[x]]) + multiset(w[x := w[len - 1]][..len - 1]) == multiset(w[..len])
  {
    var filled := w[x := w[len - 1]][..len - 1];
    if x == len - 1 {
      assert w[..len] == filled + [w[x]];
    } else {
      assert w[..len] == w[..x] + [w[x]] + w[x + 1..len - 1] + [w[len - 1]];
      assert filled == w[..x] + [w[len - 1]] + w[x + 1..len - 1];
    }
  }

  // Drawing elements is drawing positions.
  lemma {:induction false} DrawsOfElements<T>(
    arr: seq<T>, w: seq<nat>, elements: seq<Option<T>>, xs: seq<nat>, len: nat)
    requires |xs| <= len <= |w| && forall k :: 0 <= k < |xs| ==> xs[k] < |w|
    requires |elements| == |w| && forall j :: 0 <= j < |w| ==> elements[j] == At(arr, w[j])
    ensures forall k :: 0 <= k < |xs| ==> Draws(elements, xs, len)[k] == At(arr, Draws(w, xs, len)[k])
    decreases len
  {
    if xs != [] {
      var x := xs[0];
      DrawsOfElements(arr, w[x := w[len - 1]], elements[x := elements[len - 1]], xs[1..], len - 1);
    }
  }

  // result.filter(item => item !== undefined)
  function Defined<T>(items: seq<Option<T>>): seq<Option<T>> {
    if items == [] then []
    else if items[0].None? then Defined(items[1..])
    else [items[0]] + Defined(items[1..])
  }

  // What is not undefined, in its order.
  lemma {:induction false} DefinedIs<T>(items: seq<Option<T>>, item: Option<T>)
    ensures Defined<T>([]) == []
    ensures Defined(items + [item]) == if item.Some? then Defined(items) + [item] else Defined(items)
  {
    if items == [] {
      assert [] + [item] == [item] && [item][1..] == [];
    } else {
      DefinedIs(items[1..], item);
      assert (items + [item])[1..] == items[1..] + [item];
    }
  }

  // The last draw comes first.
  ghost function Drawn<T>(arr: seq<T>, positions: seq<nat>): (items: seq<Option<T>>)
    ensures |items| == |positions|
  {
    seq(|positions|, k requires 0 <= k < |positions| => At(arr, positions[|positions| - 1 - k]))
  }

  ghost function Elements<T>(arr: seq<T>, positions: seq<nat>): (items: seq<Option<T>>)
    ensures |items| == |positions| && forall k :: 0 <= k < |items| ==> items[k] == At(arr, positions[k])
  {
    seq(|positions|, k requires 0 <= k < |positions| => At(arr, positions[k]))
  }

  lemma {:induction false} DrawnBackwards<T>(arr: seq<T>, positions: seq<nat>)
    ensures multiset(Drawn(arr, positions)) == multiset(Elements(arr, positions))
  {
    if positions != [] {
      DrawnBackwards(arr, positions[1..]);
      assert Drawn(arr, positions) == Drawn(arr, positions[1..]) + [At(arr, positions[0])];
      assert Elements(arr, positions) == [At(arr, positions[0])] + Elements(arr, positions[1..]);
    }
  }

  lemma {:induction false} NothingToFilter<T>(items: seq<Option<T>>)
    requires forall k :: 0 <= k < |items| ==> items[k].Some?
    ensures Defined(items) == items
  {
    if items != [] {
      NothingToFilter(items[1..]);
    }
  }

  // With nothing avoided and at least as many asked for as there are, the result is a permutation of the array.
  lemma AllArePermuted<T>(arr: seq<T>, random: nat -> real)
    requires IsRandom(random) && |arr| > 0
    ensures
      var drawn := Drawn(arr, Positions(random, 0, |arr|, |arr|));
      Defined(drawn) == drawn && multiset(drawn) == multiset(Elements(arr, Iota(|arr|)))
  {
    var len := |arr|;
    var xs, positions := Picks(random, 0, len, len), Positions(random, 0, len, len);
    PicksAreIndices(random, 0, len, len);
    forall k | 0 <= k < len ensures xs[k] < len - k {
      assert xs[k] == Pick(random(k), 0, len - k);
    }
    PositionsArePermuted(arr, xs, positions);
    DrawnBackwards(arr, positions);
    DrawsAreDistinct(Iota(len), xs, len, 0);
    FromIota(Iota(len), positions, len, 0);
    NothingToFilter(Drawn(arr, positions));
  }

  lemma PositionsArePermuted<T>(arr: seq<T>, xs: seq<nat>, positions: seq<nat>)
    requires |xs| == |arr| && (forall k :: 0 <= k < |xs| ==> xs[k] < |arr| - k)
    requires positions == Draws(Iota(|arr|), xs, |arr|)
    ensures multiset(Elements(arr, positions)) == multiset(Elements(arr, Iota(|arr|)))
  {
    var elements := Elements(arr, Iota(|arr|));
    DrawsOfElements(arr, Iota(|arr|), elements, xs, |arr|);
    DrawsArePermutation(elements, xs, |arr|);
    assert elements[..|arr|] == elements;
    assert Draws(elements, xs, |arr|) == Elements(arr, positions);
  }

  // ----- the code -----

  lemma {:induction false} LeadingHoles<T>(holes: nat, slots: seq<Option<T>>)
    requires holes <= |slots| && forall k :: 0 <= k < holes ==> slots[k].None?
    ensures Defined(slots) == Defined(slots[holes..])
  {
    if holes == 0 {
      assert slots[0..] == slots;
    } else {
      LeadingHoles(holes - 1, slots[1..]);
      assert slots[1..][holes - 1..] == slots[holes..];
    }
  }

  // taken[k] if it is present, k otherwise
  function Lookup(taken: map<nat, nat>, k: nat): nat {
    if k in taken then taken[k] else k
  }

  // A percentage of the elements, rounded down.
  function OldNodesToAvoid(len: nat, nodeRejectPercentage: nat): (avoid: nat)
    ensures 100 * avoid <= nodeRejectPercentage * len < 100 * avoid + 100
  {
    nodeRejectPercentage * len / 100
  }

  // new Array(n) throws a RangeError for any other n.
  predicate IsLength(n: int) {
    0 <= n < 0x1_0000_0000
  }

  method GetRandomItemFromArr<T>(arr: seq<T>, nodeRejectPercentage: nat, n: int, random: nat -> real)
    returns (thrown: bool, result: Option<seq<Option<T>>>)
    requires IsRandom(random)
    ensures thrown <==> |arr| > 0 && !IsLength(n)
    ensures result == None <==> |arr| == 0 || thrown
    ensures |arr| > 0 && 0 <= n <= 1 ==>
      var at := random(0) * |arr| as real;
      exists k :: 0 <= k < |arr| && result == Some([Some(arr[k])]) && k as real <= at < (k + 1) as real
    ensures |arr| > 0 && !thrown && n > 1 ==>
      var avoid := OldNodesToAvoid(|arr|, nodeRejectPercentage);
      var drawn := Drawn(arr, Positions(random, avoid, |arr|, Min(n, |arr|)));
      result == Some(if n < |arr| then drawn else Defined(drawn))
  {
    if |arr| == 0 {
      return false, None;
    }
    if !IsLength(n) {
      return true, None;
    }
    thrown := false;
    var avoid := OldNodesToAvoid(|arr|, nodeRejectPercentage);
    if n <= 1 {
      var randomIndex := Pick(random(0), 0, |arr|);
      EqualShares(random(0), 0, |arr|, randomIndex);
      return false, Some([Some(arr[randomIndex])]);
    }
    var xs := Picks(random, avoid, |arr|, Min(n, |arr|));
    ghost var size := Max(|arr|, avoid + 1);
    ghost var positions := Positions(random, avoid, |arr|, |xs|);
    PositionsInTurn(random, avoid, |arr|, |xs|);
    var slots := DrawSlots(arr, n, xs, size, positions);
    if |arr| <= n {
      LeadingHoles(n - |arr|, slots);
      slots := FilterDefined(slots);
    }
    result := Some(slots);
  }

  // The loop, with the index each round picks drawn beforehand: the sparse array `taken` stands for the eagerly
  // shuffled array.
  method DrawSlots<T>(arr: seq<T>, n: nat, xs: seq<nat>, ghost size: nat, ghost positions: seq<nat>)
    returns (slots: seq<Option<T>>)
    requires |xs| == |positions| == Min(n, |arr|) && |arr| <= size
    requires forall k :: 0 <= k < |xs| ==> xs[k] < size
    requires forall k :: 0 <= k < |xs| ==> IsNext(Iota(size), xs, |arr|, k, positions[k])
    ensures |slots| == n && (forall k :: 0 <= k < n - |xs| ==> slots[k].None?)
    ensures slots[n - |xs|..] == Drawn(arr, positions)
    ensures forall k :: 0 <= k < |xs| ==>
      slots[n - 1 - k] == if positions[k] < |arr| then Some(arr[positions[k]]) else None
  {
    ghost var w := Shuffled(Iota(size), xs, |arr|, 0);
    var result := new Option<T>[n](_ => None);
    var taken: map<nat, nat> := map[];
    var i, len, round := n, |arr|, 0;
    while i > 0 && len > 0
      invariant 0 <= round <= |xs| && i == n - round && len == |arr| - round
      invariant Stands(taken, w, size)
      invariant w == Shuffled(Iota(size), xs, |arr|, round)
      invariant forall k :: 0 <= k < i ==> result[k] == None
      invariant forall k :: 0 <= k < round ==> result[n - 1 - k] == At(arr, positions[k])
    {
      i := i - 1;
      var x := xs[round];
      assert IsNext(Iota(size), xs, |arr|, round, positions[round]);
      result[i] := At(arr, Lookup(taken, x));
      len := len - 1;
      taken := taken[x := Lookup(taken, len)];
      w := w[x := w[len]];
      round := round + 1;
    }
    slots := result[..];
    FilledFromTheEnd(arr, positions, slots);
  }

  lemma FilledFromTheEnd<T>(arr: seq<T>, positions: seq<nat>, slots: seq<Option<T>>)
    requires |positions| <= |slots|
    requires forall k :: 0 <= k < |positions| ==> slots[|slots| - 1 - k] == At(arr, positions[k])
    ensures slots[|slots| - |positions|..] == Drawn(arr, positions)
  {
    var drawn, tail := Drawn(arr, positions), slots[|slots| - |positions|..];
    forall j | 0 <= j < |drawn| ensures tail[j] == drawn[j] {
      var k := |positions| - 1 - j;
      assert slots[|slots| - 1 - k] == At(arr, positions[k]);
    }
  }

  // The sparse array stands for the whole of the eager one.
  ghost predicate Stands(taken: map<nat, nat>, w: seq<nat>, size: nat) {
    |w| == size && forall k :: 0 <= k < size ==> w[k] == Lookup(taken, k)
  }

  lemma PositionsInTurn(random: nat -> real, avoid: nat, len: nat, count: nat)
    requires IsRandom(random) && count <= len
    ensures
      var size, xs := Max(len, avoid + 1), Picks(random, avoid, len, count);
      && (forall k :: 0 <= k < count ==> xs[k] < size)
      && forall k :: 0 <= k < count ==> IsNext(Iota(size), xs, len, k, Positions(random, avoid, len, count)[k])
  {
    var size, xs := Max(len, avoid + 1), Picks(random, avoid, len, count);
    PicksAreIndices(random, avoid, len, count);
    forall k | 0 <= k < count ensures IsNext(Iota(size), xs, len, k, Positions(random, avoid, len, count)[k]) {
      DrawsInTurn(Iota(size), xs, len, k);
    }
  }

  // The eager array after k draws.
  ghost function Shuffled(w: seq<nat>, xs: seq<nat>, len: nat, k: nat): (after: seq<nat>)
    requires k <= |xs| <= len <= |w| && forall i :: 0 <= i < |xs| ==> xs[i] < |w|
    ensures |after| == |w|
  {
    if k == 0 then w else
      var before := Shuffled(w, xs, len, k - 1);
      before[xs[k - 1] := before[len - k]]
  }

  ghost predicate IsNext(w: seq<nat>, xs: seq<nat>, len: nat, k: nat, x: nat)
    requires k < |xs| <= len <= |w| && forall i :: 0 <= i < |xs| ==> xs[i] < |w|
  {
    x == Shuffled(w, xs, len, k)[xs[k]]
  }

  lemma {:induction false} ShuffledFromFirst(w: seq<nat>, xs: seq<nat>, len: nat, k: nat)
    requires 0 < k <= |xs| <= len <= |w| && forall i :: 0 <= i < |xs| ==> xs[i] < |w|
    ensures Shuffled(w, xs, len, k) == Shuffled(w[xs[0] := w[len - 1]], xs[1..], len - 1, k - 1)
  {
    if k > 1 {
      ShuffledFromFirst(w, xs, len, k - 1);
      assert xs[1..][k - 2] == xs[k - 1];
    }
  }

  lemma {:induction false} DrawsInTurn(w: seq<nat>, xs: seq<nat>, len: nat, k: nat)
    requires k < |xs| <= len <= |w| && forall i :: 0 <= i < |xs| ==> xs[i] < |w|
    ensures Draws(w, xs, len)[k] == Shuffled(w, xs, len, k)[xs[k]]
    decreases k
  {
    if k > 0 {
      ShuffledFromFirst(w, xs, len, k);
      DrawsInTurn(w[xs[0] := w[len - 1]], xs[1..], len - 1, k - 1);
    }
  }

  method FilterDefined<T>(items: seq<Option<T>>) returns (kept: seq<Option<T>>)
    ensures kept == Defined(items)
  {
    kept := [];
    for i := 0 to |items|
      invariant Defined(items) == kept + Defined(items[i..])
    {
      if items[i].Some? {
        kept := kept + [items[i]];
      }
    }
  }
}
