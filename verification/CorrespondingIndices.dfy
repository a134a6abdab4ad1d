/** Splitting message targets between two lists (src/ShardFunctions.ts:1956-1981). Indices run from 1. */
module CorrespondingIndices {
  import opened Basics

  // Math.round(a / b) on exact rationals, for a >= 0.
  function RoundDiv(a: int, b: int): int
    requires 0 < b
  {
    (2 * a + b) / (2 * b)
  }

  lemma RoundDivIs(a: int, b: int, q: int)
    requires 0 < b
    ensures RoundDiv(a, b) == q <==> 2 * b * q <= 2 * a + b < 2 * b * q + 2 * b
  {
    var d, x := 2 * b, 2 * a + b;
    assert x == (x / d) * d + x % d;
    var k := q - x / d;
    assert d * q == (x / d) * d + k * d;
    assert k >= 1 ==> k * d >= d;
    assert k <= -1 ==> k * d <= -d;
  }

  // The single target of fromIndex when the from-list is not shorter; 0 becomes 1.
  function Target(fromSize: int, toSize: int, fromIndex: int): int
    requires 0 < fromSize
  {
    var value := RoundDiv(fromIndex * toSize, fromSize);
    if value == 0 then 1 else value
  }

  lemma TargetEnds(fromSize: int, toSize: int)
    requires 1 <= toSize <= fromSize
    ensures Target(fromSize, toSize, 1) == 1 && Target(fromSize, toSize, fromSize) == toSize
  {
    RoundBounds(1, toSize, fromSize);
    RoundDivIs(fromSize * toSize, fromSize, toSize);
    assert 2 * fromSize * toSize == 2 * (fromSize * toSize);
  }

  // Targets stay inside the to-list, and consecutive from-indices have equal or consecutive targets.
  lemma TargetSteps(fromSize: int, toSize: int, i: int)
    requires 1 <= toSize <= fromSize && 1 <= i <= fromSize
    ensures 1 <= Target(fromSize, toSize, i) <= toSize
    ensures Target(fromSize, toSize, 1) == 1 && Target(fromSize, toSize, fromSize) == toSize
    ensures i < fromSize ==>
      Target(fromSize, toSize, i) <= Target(fromSize, toSize, i + 1) <= Target(fromSize, toSize, i) + 1
  {
    var f, t := fromSize, toSize;
    RoundStep(i * t, t, f);
    assert (i + 1) * t == i * t + t;
    RoundBounds(i, t, f);
    TargetEnds(f, t);
  }

  lemma MulGap(c: int, x: int, y: int, k: int)
    requires 0 < c
    ensures y >= x + k ==> c * y >= c * x + c * k
  {
    assert c * (x + k) == c * x + c * k;
    assert y >= x + k ==> c * (y - (x + k)) >= 0;
  }

  lemma RoundStep(a: int, t: int, f: int)
    requires 0 <= a && 0 <= t <= f && 0 < f
    ensures RoundDiv(a, f) <= RoundDiv(a + t, f) <= RoundDiv(a, f) + 1
  {
    var q, q' := RoundDiv(a, f), RoundDiv(a + t, f);
    RoundDivIs(a, f, q);
    RoundDivIs(a + t, f, q');
    MulGap(2 * f, q', q, 1);
    MulGap(2 * f, q, q', 2);
  }

  lemma RoundBounds(i: int, t: int, f: int)
    requires 1 <= i <= f && 1 <= t <= f
    ensures 0 <= RoundDiv(i * t, f) <= t && (i == 1 ==> RoundDiv(i * t, f) <= 1)
  {
    var q := RoundDiv(i * t, f);
    RoundDivIs(i * t, f, q);
    MulGap(t, i, f, 0);
    MulGap(t, 0, i, 1);
    assert i * t == t * i && 2 * f * t == 2 * (t * f);
    MulGap(2 * f, q, 0, 1);
    MulGap(2 * f, t, q, 1);
    MulGap(2 * f, 0, q, 2);
  }

  // The from-list is not shorter: each from-index has one target in 1..toSize and every target is hit.
  lemma {:induction false} EveryTargetHit(fromSize: int, toSize: int, target: int, upTo: int)
    returns (i: int)
    requires 1 <= toSize <= fromSize && 1 <= upTo <= fromSize
    requires 1 <= target <= Target(fromSize, toSize, upTo)
    ensures 1 <= i <= upTo && Target(fromSize, toSize, i) == target
    decreases upTo
  {
    TargetSteps(fromSize, toSize, upTo);
    if target == Target(fromSize, toSize, upTo) {
      i := upTo;
    } else {
      TargetSteps(fromSize, toSize, upTo - 1);
      i := EveryTargetHit(fromSize, toSize, target, upTo - 1);
    }
  }

  ghost predicate IsHit(fromSize: int, toSize: int, target: int)
    requires 0 < fromSize
  {
    exists i :: 1 <= i <= fromSize && Target(fromSize, toSize, i) == target
  }

  lemma EveryToIndexIsATarget(fromSize: int, toSize: int)
    requires 1 <= toSize <= fromSize
    ensures forall i :: 1 <= i <= fromSize ==> 1 <= Target(fromSize, toSize, i) <= toSize
    ensures forall target :: 1 <= target <= toSize ==> IsHit(fromSize, toSize, target)
  {
    forall i | 1 <= i <= fromSize
      ensures 1 <= Target(fromSize, toSize, i) <= toSize
    {
      TargetSteps(fromSize, toSize, i);
    }
    forall target | 1 <= target <= toSize
      ensures IsHit(fromSize, toSize, target)
    {
      TargetSteps(fromSize, toSize, fromSize);
      var i := EveryTargetHit(fromSize, toSize, target, fromSize);
    }
  }

  // The from-list is shorter: the search window of fromIndex.
  function WindowStart(fromSize: int, toSize: int, fromIndex: int): int
    requires 0 < fromSize
  {
    Max(1, RoundDiv(fromIndex * toSize, fromSize) - RoundDiv(toSize, fromSize))
  }

  function WindowStop(fromSize: int, toSize: int, fromIndex: int): int
    requires 0 < fromSize
  {
    Min(toSize, RoundDiv(fromIndex * toSize, fromSize) + RoundDiv(toSize, fromSize))
  }

  // The window never misses a to-index that answers to fromIndex.
  lemma WindowNeverMisses(fromSize: int, toSize: int, fromIndex: int, j: int)
    requires 1 <= fromSize < toSize && 1 <= fromIndex <= fromSize && 1 <= j <= toSize
    requires Target(toSize, fromSize, j) == fromIndex
    ensures WindowStart(fromSize, toSize, fromIndex) <= j <= WindowStop(fromSize, toSize, fromIndex)
  {
    var f, t, i := fromSize, toSize, fromIndex;
    var center, range, v := RoundDiv(i * t, f), RoundDiv(t, f), RoundDiv(j * f, t);
    RoundDivIs(i * t, f, center);
    RoundDivIs(t, f, range);
    RoundDivIs(j * f, t, v);
    WindowArithmetic(f, t, i, j, center, range, v);
  }

  // |j - i*t/f| <= t/(2f) (or j < t/(2f) when v was 0), |center - i*t/f| <= 1/2, range > t/f - 1/2 and
  // t/f > 1 leave no room for |j - center| > range.
  lemma WindowArithmetic(f: int, t: int, i: int, j: int, center: int, range: int, v: int)
    requires 1 <= f < t && 1 <= i <= f && 1 <= j <= t
    requires 2 * f * center <= 2 * (i * t) + f < 2 * f * center + 2 * f
    requires 2 * f * range <= 2 * t + f < 2 * f * range + 2 * f
    requires 2 * t * v <= 2 * (j * f) + t < 2 * t * v + 2 * t
    requires v == i || (v == 0 && i == 1)
    ensures center - range <= j <= center + range
  {
    OutsideWindow(2 * f, center, range, j);
    Commute(t, v);
    Commute(f, j);
    if v == 0 {
      OutsideWindow(2 * f, center, 0, range);
    }
  }

  lemma Commute(x: int, y: int)
    ensures 2 * x * y == 2 * (y * x) == 2 * (x * y)
  {
  }

  lemma OutsideWindow(c: int, center: int, range: int, j: int)
    requires 0 < c
    ensures j > center + range ==> c * j >= c * center + c * range + c
    ensures j < center - range ==> c * j <= c * center - c * range - c
  {
    MulGap(c, center + range, j, 1);
    MulGap(c, j, center - range, 1);
    assert c * (center + range) == c * center + c * range;
    assert c * (center - range) == c * center - c * range;
  }

  // ----- the recursive function of the source -----

  // The call inside the loop goes from the longer list to the shorter one, so it takes the first branch.
  method FastStableCorrespondingIndicies(fromListSize: int, toListSize: int, fromListIndex: int)
    returns (results: seq<int>)
    requires 1 <= fromListSize && 1 <= toListSize && 1 <= fromListIndex <= fromListSize
    ensures fromListSize >= toListSize ==> results == [Target(fromListSize, toListSize, fromListIndex)]
    ensures fromListSize >= toListSize ==>
      || -fromListSize <= 2 * (fromListIndex * toListSize) - 2 * fromListSize * results[0] < fromListSize
      || (2 * (fromListIndex * toListSize) < fromListSize && results[0] == 1)
    ensures fromListSize < toListSize ==>
      forall j :: j in results <==> 1 <= j <= toListSize && Target(toListSize, fromListSize, j) == fromListIndex
    ensures forall k, l :: 0 <= k < l < |results| ==> results[k] < results[l]
    decreases fromListSize < toListSize
  {
    results := [];
    if fromListSize >= toListSize {
      var value := RoundDiv(fromListIndex * toListSize, fromListSize);
      RoundDivIs(fromListIndex * toListSize, fromListSize, value);
      if value == 0 {
        value := 1;
      }
      results := results + [value];
    } else {
      var targetIndex := RoundDiv(fromListIndex * toListSize, fromListSize);
      var range := RoundDiv(toListSize, fromListSize);
      var start := Max(1, targetIndex - range);
      var stop := Min(toListSize, targetIndex + range);
      var i := start;
      while i <= stop
        invariant start <= i && (i <= stop + 1 || i == start)
        invariant forall j :: j in results <==> start <= j < i && Target(toListSize, fromListSize, j) == fromListIndex
        invariant forall k, l :: 0 <= k < l < |results| ==> results[k] < results[l]
      {
        var res := FastStableCorrespondingIndicies(toListSize, fromListSize, i);
        if res[0] == fromListIndex {
          assert forall k :: 0 <= k < |results| ==> results[k] in results;
          results := results + [i];
        }
        i := i + 1;
      }
      forall j | 1 <= j <= toListSize && Target(toListSize, fromListSize, j) == fromListIndex
        ensures start <= j <= stop
      {
        WindowNeverMisses(fromListSize, toListSize, fromListIndex, j);
      }
    }
  }

  // When the from-list is shorter, each to-index belongs to exactly one from-index, its target.
  lemma ToIndicesArePartitioned(fromSize: int, toSize: int, j: int)
    requires 1 <= fromSize < toSize && 1 <= j <= toSize
    ensures
      var i := Target(toSize, fromSize, j);
      1 <= i <= fromSize && WindowStart(fromSize, toSize, i) <= j <= WindowStop(fromSize, toSize, i)
  {
    TargetSteps(toSize, fromSize, j);
    WindowNeverMisses(fromSize, toSize, Target(toSize, fromSize, j), j);
  }
}
