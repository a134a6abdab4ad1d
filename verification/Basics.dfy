/** Small facts about numbers and sequences that several modules share. */
module Basics {
  function Min(x: int, y: int): int { if x < y then x else y }

  function Max(x: int, y: int): int { if x < y then y else x }

  lemma QuotientBounds(x: int, m: int)
    requires 0 < m
    ensures (x / m) * m <= x < (x / m) * m + m
    ensures 0 <= x ==> 0 <= x / m
  {
  }

  lemma MulMonotone(x: int, y: int, s: int)
    requires x <= y && 0 <= s
    ensures x * s <= y * s
  {
  }

  ghost predicate Distinct<T>(s: seq<T>) {
    forall i, j :: 0 <= i < j < |s| ==> s[i] != s[j]
  }

  // What is left of a map while those of `keys` are still to be looked at, and dropped if they are in `gone`.
  ghost function LeftOver<K, V>(m: map<K, V>, keys: set<K>, gone: set<K>): map<K, V> {
    map k | k in m && (k in keys || k !in gone) :: m[k]
  }

  lemma OneLess<K, V>(m: map<K, V>, keys: set<K>, gone: set<K>, k: K)
    requires k in keys
    ensures LeftOver(m, keys - {k}, gone) ==
      if k in gone then LeftOver(m, keys, gone) - {k} else LeftOver(m, keys, gone)
  {
  }

  lemma Regroup<T>(a: seq<T>, b: seq<T>, c: seq<T>)
    ensures (a + b) + c == a + (b + c)
  {
  }
}
