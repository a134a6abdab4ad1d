/** Binary search and sorted insertion (src/Utils.ts:332-386). */
module SortedInsert {

  // Going through the array, the comparator's sign against `el` never rises: +, then 0, then -.
  ghost predicate Ordered<T>(arr: seq<T>, el: T, comparator: (T, T) ~> int)
    requires forall k :: 0 <= k < |arr| ==> comparator.requires(el, arr[k])
    reads set k, o | 0 <= k < |arr| && o in comparator.reads(el, arr[k]) :: o
  {
    forall i, j :: 0 <= i < j < |arr| ==>
      && (comparator(el, arr[j]) > 0 ==> comparator(el, arr[i]) > 0)
      && (comparator(el, arr[i]) < 0 ==> comparator(el, arr[j]) < 0)
  }

  // A hit, or -1 - i where i is the one place that keeps the order.
  method BinarySearch<T>(arr: seq<T>, el: T, comparator: (T, T) ~> int) returns (r: int)
    requires forall k :: 0 <= k < |arr| ==> comparator.requires(el, arr[k])
    requires Ordered(arr, el, comparator)
    ensures r >= 0 ==> r < |arr| && comparator(el, arr[r]) == 0
    ensures r < 0 ==> -1 - r <= |arr|
    ensures r < 0 ==> forall k :: 0 <= k < -1 - r ==> comparator(el, arr[k]) > 0
    ensures r < 0 ==> forall k :: -1 - r <= k < |arr| ==> comparator(el, arr[k]) < 0
  {
    var m, n := 0, |arr| - 1;
    while m <= n
      invariant 0 <= m <= n + 1 <= |arr|
      invariant forall k :: 0 <= k < m ==> comparator(el, arr[k]) > 0
      invariant forall k :: n < k < |arr| ==> comparator(el, arr[k]) < 0
    {
      var k := (n + m) / 2;
      var cmp := comparator(el, arr[k]);
      if cmp > 0 {
        m := k + 1;
      } else if cmp < 0 {
        n := k - 1;
      } else {
        return k;
      }
    }
    r := -m - 1;
  }

  // The array with the item spliced in where the search says, and that place.
  method InsertSorted<T>(arr: seq<T>, item: T, comparator: (T, T) ~> int) returns (r: seq<T>, i: int)
    requires forall k :: 0 <= k < |arr| ==> comparator.requires(item, arr[k])
    requires Ordered(arr, item, comparator)
    ensures 0 <= i <= |arr| && r == arr[..i] + [item] + arr[i..]
    ensures forall k :: 0 <= k < i ==> comparator(item, arr[k]) >= 0
    ensures forall k :: i <= k < |arr| ==> comparator(item, arr[k]) <= 0
  {
    i := BinarySearch(arr, item, comparator);
    if i < 0 {
      i := -1 - i;
    }
    r := arr[..i] + [item] + arr[i..];
  }
}
