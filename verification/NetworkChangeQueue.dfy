/** Pruning the queue of network config changes (src/GlobalAccount.ts:110-166). */
module NetworkChangeQueue {
  import opened Basics
  import opened Wrappers

  // A change is an object; what is not an object (a number, a string, null, an array) is a leaf.
  datatype Json = Leaf(value: nat) | Object(fields: Fields)

  datatype Fields = NoFields | Field(key: string, value: Json, rest: Fields)

  datatype Change = Change(cycle: int, change: Fields, appData: Option<Fields>)

  // config.configChangeMaxChangesToKeep and config.configChangeMaxCyclesToKeep
  datatype Limits = Limits(maxChanges: int, maxCycles: int)

  // ----- the paths of a change -----

  function GeneratePathKeys(obj: Fields, prefix: string): seq<string> {
    match obj
    case NoFields => []
    case Field(key, Object(fields), rest) =>
      GeneratePathKeys(fields, prefix + key + ".") + GeneratePathKeys(rest, prefix)
    case Field(key, Leaf(_), rest) => [prefix + key] + GeneratePathKeys(rest, prefix)
  }

  function Paths(c: Change): seq<string> {
    (if c.appData.Some? then GeneratePathKeys(c.appData.value, "appdata.") else []) + GeneratePathKeys(c.change, "")
  }

  // The value an object sets at a path, the last one if there are several.
  function ValueAt(obj: Fields, prefix: string, path: string): Option<nat> {
    match obj
    case NoFields => None
    case Field(key, value, rest) =>
      var later := ValueAt(rest, prefix, path);
      if later.Some? then later else
        match value
        case Object(fields) => ValueAt(fields, prefix + key + ".", path)
        case Leaf(v) => if prefix + key == path then Some(v) else None
  }

  function Sets(c: Change, path: string): Option<nat> {
    var own := ValueAt(c.change, "", path);
    if own.Some? || c.appData.None? then own else ValueAt(c.appData.value, "appdata.", path)
  }

  // Following the keys from object to object leads to a leaf.
  predicate LeadsToLeaf(obj: Fields, keys: seq<string>) {
    match obj
    case NoFields => false
    case Field(key, Object(fields), rest) =>
      (keys != [] && keys[0] == key && LeadsToLeaf(fields, keys[1..])) || LeadsToLeaf(rest, keys)
    case Field(key, Leaf(_), rest) => keys == [key] || LeadsToLeaf(rest, keys)
  }

  function Dotted(keys: seq<string>): string {
    if |keys| == 0 then "" else if |keys| == 1 then keys[0] else keys[0] + "." + Dotted(keys[1..])
  }

  lemma LeadsSomewhere(obj: Fields, keys: seq<string>)
    requires LeadsToLeaf(obj, keys)
    ensures keys != []
  {
  }

  // The paths are the keys that lead to leaves, with dots between them.
  lemma {:induction false} PathLeadsToLeaf(obj: Fields, prefix: string, path: string) returns (keys: seq<string>)
    requires path in GeneratePathKeys(obj, prefix)
    ensures LeadsToLeaf(obj, keys) && path == prefix + Dotted(keys)
  {
    match obj
    case Field(key, Object(fields), rest) =>
      if path in GeneratePathKeys(fields, prefix + key + ".") {
        var inner := PathLeadsToLeaf(fields, prefix + key + ".", path);
        LeadsSomewhere(fields, inner);
        keys := [key] + inner;
        assert keys[1..] == inner && prefix + key + "." + Dotted(inner) == prefix + (key + "." + Dotted(inner));
      } else {
        keys := PathLeadsToLeaf(rest, prefix, path);
      }
    case Field(key, Leaf(_), rest) =>
      if path == prefix + key {
        keys := [key];
      } else {
        keys := PathLeadsToLeaf(rest, prefix, path);
      }
  }

  lemma {:induction false} LeafHasPath(obj: Fields, prefix: string, keys: seq<string>)
    requires LeadsToLeaf(obj, keys)
    ensures prefix + Dotted(keys) in GeneratePathKeys(obj, prefix)
  {
    match obj
    case Field(key, Object(fields), rest) =>
      if keys != [] && keys[0] == key && LeadsToLeaf(fields, keys[1..]) {
        LeafHasPath(fields, prefix + key + ".", keys[1..]);
        LeadsSomewhere(fields, keys[1..]);
        assert prefix + key + "." + Dotted(keys[1..]) == prefix + Dotted(keys);
      } else {
        LeafHasPath(rest, prefix, keys);
      }
    case Field(key, Leaf(_), rest) =>
      if keys != [key] {
        LeafHasPath(rest, prefix, keys);
      }
  }

  // The paths of a change are those of its leaves, dotted, and with `appdata.` before those of the app data.
  lemma PathsAreDotted(c: Change, path: string)
    ensures path in Paths(c) <==>
      exists keys :: (LeadsToLeaf(c.change, keys) && path == Dotted(keys))
        || (c.appData.Some? && LeadsToLeaf(c.appData.value, keys) && path == "appdata." + Dotted(keys))
  {
    if path in Paths(c) {
      if path in GeneratePathKeys(c.change, "") {
        var keys := PathLeadsToLeaf(c.change, "", path);
        assert "" + Dotted(keys) == Dotted(keys);
      } else {
        var keys := PathLeadsToLeaf(c.appData.value, "appdata.", path);
      }
    }
    if keys :| LeadsToLeaf(c.change, keys) && path == Dotted(keys) {
      LeafHasPath(c.change, "", keys);
      assert "" + Dotted(keys) == Dotted(keys);
    }
    if c.appData.Some? {
      if keys :| LeadsToLeaf(c.appData.value, keys) && path == "appdata." + Dotted(keys) {
        LeafHasPath(c.appData.value, "appdata.", keys);
      }
    }
  }

  lemma {:induction false} PathsAreWhatIsSet(obj: Fields, prefix: string, path: string)
    ensures path in GeneratePathKeys(obj, prefix) <==> ValueAt(obj, prefix, path).Some?
  {
    match obj
    case NoFields =>
    case Field(key, Object(fields), rest) =>
      PathsAreWhatIsSet(fields, prefix + key + ".", path);
      PathsAreWhatIsSet(rest, prefix, path);
    case Field(key, Leaf(_), rest) => PathsAreWhatIsSet(rest, prefix, path);
  }

  lemma PathsAreSet(c: Change, path: string)
    ensures path in Paths(c) <==> Sets(c, path).Some?
  {
    PathsAreWhatIsSet(c.change, "", path);
    if c.appData.Some? {
      PathsAreWhatIsSet(c.appData.value, "appdata.", path);
    }
  }

  // ----- pruning -----

  function Cap(limits: Limits): int { if limits.maxChanges < 1 then 1 else limits.maxChanges }

  // How often a path occurs among the first k of some paths, and among the changes from the i-th.
  function CountIn(paths: seq<string>, k: nat, path: string): nat
    requires k <= |paths|
  {
    if k == 0 then 0 else CountIn(paths, k - 1, path) + if paths[k - 1] == path then 1 else 0
  }

  function Occurrences(changes: seq<Change>, i: nat, path: string): nat
    requires i <= |changes|
    decreases |changes| - i
  {
    if i == |changes| then 0
    else Occurrences(changes, i + 1, path) + CountIn(Paths(changes[i]), |Paths(changes[i])|, path)
  }

  predicate Recent(c: Change, currentCycle: int, limits: Limits) {
    currentCycle - c.cycle <= limits.maxCycles
  }

  // Some path of the i-th change occurs fewer than the cap times in the later changes.
  ghost predicate Needed(changes: seq<Change>, i: nat, limits: Limits)
    requires i < |changes|
  {
    exists path :: path in Paths(changes[i]) && Occurrences(changes, i + 1, path) < Cap(limits)
  }

  ghost predicate Kept(changes: seq<Change>, i: nat, currentCycle: int, limits: Limits)
    requires i < |changes|
  {
    Recent(changes[i], currentCycle, limits) || Needed(changes, i, limits)
  }

  // The kept ones of the changes from the i-th, in order.
  ghost function PrunedFrom(changes: seq<Change>, i: nat, currentCycle: int, limits: Limits): seq<Change>
    requires i <= |changes|
    decreases |changes| - i
  {
    if i == |changes| then [] else
      var kept := if Kept(changes, i, currentCycle, limits) then [changes[i]] else [];
      kept + PrunedFrom(changes, i + 1, currentCycle, limits)
  }

  ghost function Pruned(changes: seq<Change>, currentCycle: int, limits: Limits): seq<Change> {
    PrunedFrom(changes, 0, currentCycle, limits)
  }

  // A change that is at most maxCycles old, or has a path that occurs fewer than maxChanges times, or where that is
  // less than 1 not at all, in the later ones.
  ghost predicate Stays(changes: seq<Change>, k: nat, currentCycle: int, limits: Limits)
    requires k < |changes|
  {
    || currentCycle - changes[k].cycle <= limits.maxCycles
    || exists path :: path in Paths(changes[k]) && Occurrences(changes, k + 1, path) < Max(1, limits.maxChanges)
  }

  ghost predicate IsSelection(pruned: seq<Change>, changes: seq<Change>, kept: seq<nat>, from: nat) {
    && |kept| == |pruned|
    && (forall j :: 0 <= j < |kept| ==> from <= kept[j] < |changes| && pruned[j] == changes[kept[j]])
    && (forall j, l :: 0 <= j < l < |kept| ==> kept[j] < kept[l])
  }

  // The places of the kept ones.
  ghost function KeptFrom(changes: seq<Change>, i: nat, currentCycle: int, limits: Limits): seq<nat>
    requires i <= |changes|
    decreases |changes| - i
  {
    if i == |changes| then [] else
      (if Kept(changes, i, currentCycle, limits) then [i] else []) + KeptFrom(changes, i + 1, currentCycle, limits)
  }

  // What is left are the changes at those places, in their order.
  lemma {:induction false} PrunedInOrder(changes: seq<Change>, i: nat, currentCycle: int, limits: Limits)
    requires i <= |changes|
    ensures IsSelection(
      PrunedFrom(changes, i, currentCycle, limits), changes, KeptFrom(changes, i, currentCycle, limits), i)
    decreases |changes| - i
  {
    if i < |changes| {
      PrunedInOrder(changes, i + 1, currentCycle, limits);
    }
  }

  lemma {:induction false} KeptIsAmong(changes: seq<Change>, i: nat, currentCycle: int, limits: Limits, k: nat)
    requires i <= k < |changes|
    ensures k in KeptFrom(changes, i, currentCycle, limits) <==> Kept(changes, k, currentCycle, limits)
    decreases k - i
  {
    var later := KeptFrom(changes, i + 1, currentCycle, limits);
    if i == k {
      PrunedInOrder(changes, i + 1, currentCycle, limits);
      assert k !in later;
    } else {
      KeptIsAmong(changes, i + 1, currentCycle, limits, k);
    }
  }

  // Exactly the changes that stay are at those places.
  lemma PrunedExactly(changes: seq<Change>, currentCycle: int, limits: Limits, k: nat)
    requires k < |changes|
    ensures k in KeptFrom(changes, 0, currentCycle, limits) <==> Stays(changes, k, currentCycle, limits)
  {
    KeptIsAmong(changes, 0, currentCycle, limits, k);
    StaysIsKept(changes, k, currentCycle, limits);
  }

  lemma StaysIsKept(changes: seq<Change>, k: nat, currentCycle: int, limits: Limits)
    requires k < |changes|
    ensures Stays(changes, k, currentCycle, limits) <==> Kept(changes, k, currentCycle, limits)
  {
  }

  // ----- last writer wins -----

  // The value of a path once the changes from the i-th are applied, oldest first.
  function Applied(changes: seq<Change>, i: nat, path: string): Option<nat>
    requires i <= |changes|
    decreases |changes| - i
  {
    if i == |changes| then None else
      var later := Applied(changes, i + 1, path);
      if later.Some? then later else Sets(changes[i], path)
  }

  lemma AppliedCons(c: Change, rest: seq<Change>, path: string)
    ensures Applied([c] + rest, 0, path) ==
      if Applied(rest, 0, path).Some? then Applied(rest, 0, path) else Sets(c, path)
  {
    AppliedShift([c], rest, 0, path);
  }

  lemma {:induction false} AppliedShift(front: seq<Change>, rest: seq<Change>, i: nat, path: string)
    requires i <= |rest|
    ensures Applied(front + rest, |front| + i, path) == Applied(rest, i, path)
    decreases |rest| - i
  {
    if i < |rest| {
      AppliedShift(front, rest, i + 1, path);
    }
  }

  lemma {:induction false} SetLaterMeansOccurs(changes: seq<Change>, i: nat, path: string)
    requires i <= |changes|
    ensures Applied(changes, i, path).Some? <==> Occurrences(changes, i, path) > 0
    decreases |changes| - i
  {
    if i < |changes| {
      SetLaterMeansOccurs(changes, i + 1, path);
      PathsAreSet(changes[i], path);
      CountsMembers(Paths(changes[i]), |Paths(changes[i])|, path);
    }
  }

  lemma {:induction false} CountsMembers(paths: seq<string>, k: nat, path: string)
    requires k <= |paths|
    ensures CountIn(paths, k, path) > 0 <==> path in paths[..k]
    ensures k == |paths| ==> (CountIn(paths, k, path) > 0 <==> path in paths)
  {
    if k > 0 {
      CountsMembers(paths, k - 1, path);
      assert paths[..k] == paths[..k - 1] + [paths[k - 1]];
    }
    assert paths[..|paths|] == paths;
  }

  lemma {:induction false} CountsCopies(paths: seq<string>, k: nat, path: string)
    requires k <= |paths|
    ensures CountIn(paths, k, path) == multiset(paths[..k])[path]
  {
    if k > 0 {
      CountsCopies(paths, k - 1, path);
      assert paths[..k] == paths[..k - 1] + [paths[k - 1]];
    }
  }

  // Pruning leaves the newest value of every path in place.
  lemma {:induction false} PruningKeepsValues(
    changes: seq<Change>, i: nat, currentCycle: int, limits: Limits, path: string)
    requires i <= |changes|
    ensures Applied(PrunedFrom(changes, i, currentCycle, limits), 0, path) == Applied(changes, i, path)
    decreases |changes| - i
  {
    if i < |changes| {
      var rest := PrunedFrom(changes, i + 1, currentCycle, limits);
      PruningKeepsValues(changes, i + 1, currentCycle, limits, path);
      if Kept(changes, i, currentCycle, limits) {
        AppliedCons(changes[i], rest, path);
      } else {
        assert [] + rest == rest;
        OverwrittenLater(changes, i, limits, path);
      }
    }
  }

  lemma OverwrittenLater(changes: seq<Change>, i: nat, limits: Limits, path: string)
    requires i < |changes| && !Needed(changes, i, limits)
    ensures Sets(changes[i], path).Some? ==> Applied(changes, i + 1, path).Some?
  {
    SetLaterMeansOccurs(changes, i + 1, path);
    PathsAreSet(changes[i], path);
    assert path in Paths(changes[i]) ==> Occurrences(changes, i + 1, path) >= Cap(limits);
  }

  // ----- counts, idempotence and the bound -----

  lemma {:induction false} OccurrencesShift(front: seq<Change>, rest: seq<Change>, i: nat, path: string)
    requires i <= |rest|
    ensures Occurrences(front + rest, |front| + i, path) == Occurrences(rest, i, path)
    decreases |rest| - i
  {
    if i < |rest| {
      OccurrencesShift(front, rest, i + 1, path);
    }
  }

  lemma OccurrencesCons(c: Change, rest: seq<Change>, path: string)
    ensures Occurrences([c] + rest, 0, path) == Occurrences(rest, 0, path) + CountIn(Paths(c), |Paths(c)|, path)
  {
    OccurrencesShift([c], rest, 0, path);
  }

  // Up to the cap, pruning keeps every path's number of occurrences.
  lemma {:induction false} PruningKeepsCounts(
    changes: seq<Change>, i: nat, currentCycle: int, limits: Limits, path: string)
    requires i <= |changes|
    ensures Min(Occurrences(PrunedFrom(changes, i, currentCycle, limits), 0, path), Cap(limits))
      == Min(Occurrences(changes, i, path), Cap(limits))
    decreases |changes| - i
  {
    if i < |changes| {
      var rest := PrunedFrom(changes, i + 1, currentCycle, limits);
      PruningKeepsCounts(changes, i + 1, currentCycle, limits, path);
      if Kept(changes, i, currentCycle, limits) {
        OccurrencesCons(changes[i], rest, path);
      } else {
        assert [] + rest == rest;
        CountsMembers(Paths(changes[i]), |Paths(changes[i])|, path);
        assert path in Paths(changes[i]) ==> Occurrences(changes, i + 1, path) >= Cap(limits);
      }
    }
  }

  lemma NeededShift(front: seq<Change>, rest: seq<Change>, i: nat, limits: Limits)
    requires i < |rest|
    ensures Needed(front + rest, |front| + i, limits) <==> Needed(rest, i, limits)
  {
    var all, later := front + rest, |front| + i + 1;
    assert all[|front| + i] == rest[i];
    forall path ensures Occurrences(all, later, path) == Occurrences(rest, i + 1, path) {
      OccurrencesShift(front, rest, i + 1, path);
    }
  }

  lemma {:induction false} PrunedShift(front: seq<Change>, rest: seq<Change>, i: nat, currentCycle: int, limits: Limits)
    requires i <= |rest|
    ensures PrunedFrom(front + rest, |front| + i, currentCycle, limits) == PrunedFrom(rest, i, currentCycle, limits)
    decreases |rest| - i
  {
    if i < |rest| {
      PrunedShift(front, rest, i + 1, currentCycle, limits);
      NeededShift(front, rest, i, limits);
      assert (front + rest)[|front| + i] == rest[i];
    }
  }

  // Pruning again in the same cycle changes nothing.
  lemma {:induction false} PruningIsIdempotent(changes: seq<Change>, i: nat, currentCycle: int, limits: Limits)
    requires i <= |changes|
    ensures
      var once := PrunedFrom(changes, i, currentCycle, limits);
      Pruned(once, currentCycle, limits) == once
    decreases |changes| - i
  {
    if i < |changes| {
      var rest := PrunedFrom(changes, i + 1, currentCycle, limits);
      PruningIsIdempotent(changes, i + 1, currentCycle, limits);
      if Kept(changes, i, currentCycle, limits) {
        StillKept(changes, i, currentCycle, limits);
        PrunedShift([changes[i]], rest, 0, currentCycle, limits);
      } else {
        assert [] + rest == rest;
      }
    }
  }

  lemma StillKept(changes: seq<Change>, i: nat, currentCycle: int, limits: Limits)
    requires i < |changes| && Kept(changes, i, currentCycle, limits)
    ensures Kept([changes[i]] + PrunedFrom(changes, i + 1, currentCycle, limits), 0, currentCycle, limits)
  {
    var rest := PrunedFrom(changes, i + 1, currentCycle, limits);
    if Needed(changes, i, limits) {
      var path :| path in Paths(changes[i]) && Occurrences(changes, i + 1, path) < Cap(limits);
      PruningKeepsCounts(changes, i + 1, currentCycle, limits, path);
      OccurrencesShift([changes[i]], rest, 0, path);
      assert ([changes[i]] + rest)[0] == changes[i];
    }
  }

  // The number of changes from the i-th that are kept though they are not recent.
  ghost function KeptOld(changes: seq<Change>, i: nat, currentCycle: int, limits: Limits): nat
    requires i <= |changes|
    decreases |changes| - i
  {
    if i == |changes| then 0 else
      KeptOld(changes, i + 1, currentCycle, limits) +
      if Kept(changes, i, currentCycle, limits) && !Recent(changes[i], currentCycle, limits) then 1 else 0
  }

  // The occurrences of the first n of some paths, each counted up to the cap.
  function Capped(paths: seq<string>, n: nat, changes: seq<Change>, i: nat, cap: int): int
    requires n <= |paths| && i <= |changes|
  {
    if n == 0 then 0 else
      Capped(paths, n - 1, changes, i, cap) + Min(Occurrences(changes, i, paths[n - 1]), cap)
  }

  lemma {:induction false} CappedGrows(paths: seq<string>, n: nat, changes: seq<Change>, i: nat, cap: int)
    requires n <= |paths| && i < |changes|
    ensures Capped(paths, n, changes, i, cap) >= Capped(paths, n, changes, i + 1, cap)
  {
    if n > 0 {
      CappedGrows(paths, n - 1, changes, i, cap);
    }
  }

  lemma {:induction false} CappedGrowsByOne(
    paths: seq<string>, n: nat, changes: seq<Change>, i: nat, cap: int, path: string)
    requires n <= |paths| && i < |changes| && path in paths[..n]
    requires path in Paths(changes[i]) && Occurrences(changes, i + 1, path) < cap
    ensures Capped(paths, n, changes, i, cap) >= Capped(paths, n, changes, i + 1, cap) + 1
  {
    CappedGrows(paths, n - 1, changes, i, cap);
    if paths[n - 1] == path {
      CountsMembers(Paths(changes[i]), |Paths(changes[i])|, path);
    } else {
      assert paths[..n] == paths[..n - 1] + [paths[n - 1]];
      CappedGrowsByOne(paths, n - 1, changes, i, cap, path);
    }
  }

  lemma {:induction false} CappedAtMost(paths: seq<string>, n: nat, changes: seq<Change>, i: nat, cap: int)
    requires n <= |paths| && i <= |changes| && cap >= 0
    ensures Capped(paths, n, changes, i, cap) <= n * cap
  {
    if n > 0 {
      CappedAtMost(paths, n - 1, changes, i, cap);
      assert n * cap == (n - 1) * cap + cap;
    }
  }

  // At most cap * |paths| old changes are kept, for any list of the paths that occur.
  lemma {:induction false} KeptOldIsBounded(
    changes: seq<Change>, i: nat, currentCycle: int, limits: Limits, paths: seq<string>)
    requires i <= |changes|
    requires forall k, path :: 0 <= k < |changes| && path in Paths(changes[k]) ==> path in paths
    ensures KeptOld(changes, i, currentCycle, limits) <= Capped(paths, |paths|, changes, i, Cap(limits))
    ensures KeptOld(changes, i, currentCycle, limits) <= |paths| * Cap(limits)
    decreases |changes| - i
  {
    CappedAtMost(paths, |paths|, changes, i, Cap(limits));
    if i == |changes| {
      NothingCapped(paths, |paths|, changes, Cap(limits));
    } else {
      KeptOldIsBounded(changes, i + 1, currentCycle, limits, paths);
      CappedGrows(paths, |paths|, changes, i, Cap(limits));
      if Needed(changes, i, limits) {
        var path :| path in Paths(changes[i]) && Occurrences(changes, i + 1, path) < Cap(limits);
        assert paths[..|paths|] == paths;
        CappedGrowsByOne(paths, |paths|, changes, i, Cap(limits), path);
      }
    }
  }

  lemma {:induction false} NothingCapped(paths: seq<string>, n: nat, changes: seq<Change>, cap: int)
    requires n <= |paths| && cap >= 1
    ensures Capped(paths, n, changes, |changes|, cap) == 0
  {
    if n > 0 {
      NothingCapped(paths, n - 1, changes, cap);
    }
  }

  // ----- the code -----

  // configsMap holds the capped counts of the paths of the changes from the i-th, and of the first k of `paths`.
  ghost predicate Counts(
    configsMap: map<string, int>, changes: seq<Change>, i: nat, paths: seq<string>, k: nat, cap: int)
    requires i <= |changes| && k <= |paths|
  {
    && (forall path :: path in configsMap ==> configsMap[path] >= 1)
    && forall path :: CountOf(configsMap, path) == Min(Occurrences(changes, i, path) + CountIn(paths, k, path), cap)
  }

  ghost function CountOf(configsMap: map<string, int>, path: string): int {
    if path in configsMap then configsMap[path] else 0
  }

  // What the loop does for one path.
  function Counted(configsMap: map<string, int>, path: string, keepAliveCount: int): map<string, int> {
    if path !in configsMap then configsMap[path := 1]
    else if configsMap[path] < keepAliveCount then configsMap[path := configsMap[path] + 1]
    else configsMap
  }

  lemma CountOne(configsMap: map<string, int>, changes: seq<Change>, i: nat, paths: seq<string>, k: nat, limits: Limits)
    requires i <= |changes| && k < |paths| && Counts(configsMap, changes, i, paths, k, Cap(limits))
    ensures Counts(Counted(configsMap, paths[k], limits.maxChanges), changes, i, paths, k + 1, Cap(limits))
    ensures Counted(configsMap, paths[k], limits.maxChanges) != configsMap <==>
      Occurrences(changes, i, paths[k]) + CountIn(paths, k, paths[k]) < Cap(limits)
  {
    var after := Counted(configsMap, paths[k], limits.maxChanges);
    assert CountOf(configsMap, paths[k]) ==
      Min(Occurrences(changes, i, paths[k]) + CountIn(paths, k, paths[k]), Cap(limits));
    forall path
      ensures CountOf(after, path) == Min(Occurrences(changes, i, path) + CountIn(paths, k + 1, path), Cap(limits))
    {
      assert CountOf(configsMap, path) == Min(Occurrences(changes, i, path) + CountIn(paths, k, path), Cap(limits));
    }
    assert after != configsMap <==> CountOf(after, paths[k]) != CountOf(configsMap, paths[k]);
  }

  ghost predicate NeededAmong(changes: seq<Change>, i: nat, paths: seq<string>, limits: Limits)
    requires i <= |changes|
  {
    exists path :: path in paths && Occurrences(changes, i, path) < Cap(limits)
  }

  lemma NeededByOneMore(changes: seq<Change>, i: nat, paths: seq<string>, k: nat, limits: Limits)
    requires i <= |changes| && k < |paths|
    ensures NeededAmong(changes, i, paths[..k + 1], limits) <==>
      || NeededAmong(changes, i, paths[..k], limits)
      || Occurrences(changes, i, paths[k]) + CountIn(paths, k, paths[k]) < Cap(limits)
  {
    CountsMembers(paths, k, paths[k]);
    assert paths[..k + 1] == paths[..k] + [paths[k]];
  }

  // The loop over the paths of a change.
  method CountPaths(
      before: map<string, int>, allConfigs: seq<string>, limits: Limits, ghost changes: seq<Change>, ghost i: nat)
    returns (configsMap: map<string, int>, keepAlive: bool)
    requires i <= |changes| && Counts(before, changes, i, allConfigs, 0, Cap(limits))
    ensures Counts(configsMap, changes, i, allConfigs, |allConfigs|, Cap(limits))
    ensures keepAlive <==> NeededAmong(changes, i, allConfigs, limits)
  {
    configsMap, keepAlive := before, false;
    for k := 0 to |allConfigs|
      invariant Counts(configsMap, changes, i, allConfigs, k, Cap(limits))
      invariant keepAlive <==> NeededAmong(changes, i, allConfigs[..k], limits)
    {
      CountOne(configsMap, changes, i, allConfigs, k, limits);
      NeededByOneMore(changes, i, allConfigs, k, limits);
      if allConfigs[k] !in configsMap {
        configsMap, keepAlive := configsMap[allConfigs[k] := 1], true;
      } else if configsMap[allConfigs[k]] < limits.maxChanges {
        configsMap, keepAlive := configsMap[allConfigs[k] := configsMap[allConfigs[k]] + 1], true;
      }
    }
    assert allConfigs[..|allConfigs|] == allConfigs;
  }

  lemma CountsNext(configsMap: map<string, int>, changes: seq<Change>, i: nat, cap: int)
    requires i < |changes| && Counts(configsMap, changes, i + 1, Paths(changes[i]), |Paths(changes[i])|, cap)
    ensures Counts(configsMap, changes, i, [], 0, cap)
  {
    var paths := Paths(changes[i]);
    forall path ensures CountOf(configsMap, path) == Min(Occurrences(changes, i, path) + CountIn([], 0, path), cap) {
      assert CountOf(configsMap, path) == Min(Occurrences(changes, i + 1, path) + CountIn(paths, |paths|, path), cap);
    }
  }

  lemma CountsStart(configsMap: map<string, int>, changes: seq<Change>, i: nat, paths: seq<string>, cap: int)
    requires i <= |changes| && Counts(configsMap, changes, i, [], 0, cap)
    ensures Counts(configsMap, changes, i, paths, 0, cap)
  {
    forall path ensures CountOf(configsMap, path) == Min(Occurrences(changes, i, path) + CountIn(paths, 0, path), cap) {
      assert CountOf(configsMap, path) == Min(Occurrences(changes, i, path) + CountIn([], 0, path), cap);
    }
  }

  class ChangeQueue {
    var changes: seq<Change>

    constructor (changes: seq<Change>)
      ensures this.changes == changes
    {
      this.changes := changes;
    }

    // pruneNetworkChangeQueue, in place, from the newest change to the oldest.
    method Prune(currentCycle: int, limits: Limits)
      modifies this
      ensures changes == Pruned(old(changes), currentCycle, limits)
    {
      ghost var all := changes;
      var configsMap: map<string, int> := map[];
      var i := |changes|;
      while i > 0
        invariant 0 <= i <= |all|
        invariant changes == all[..i] + PrunedFrom(all, i, currentCycle, limits)
        invariant Counts(configsMap, all, i, [], 0, Cap(limits))
      {
        i := i - 1;
        var thisChange := changes[i];
        assert all[..i + 1] == all[..i] + [all[i]];
        assert thisChange == all[i];
        var keepAlive;
        CountsStart(configsMap, all, i + 1, Paths(thisChange), Cap(limits));
        configsMap, keepAlive := CountPaths(configsMap, Paths(thisChange), limits, all, i + 1);
        CountsNext(configsMap, all, i, Cap(limits));
        assert keepAlive <==> Needed(all, i, limits);
        if currentCycle - thisChange.cycle <= limits.maxCycles {
          keepAlive := true;
        }
        if !keepAlive {
          changes := changes[..i] + changes[i + 1..];
        }
      }
    }
  }
}
