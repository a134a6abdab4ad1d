/** Partitions, address ranges and wrap-around partition ranges (src/ShardFunctions.ts). */
module ShardGeometry {
  import opened Basics
  import opened Wrappers

  const ADDRESS_SPACE: int := 0x1_0000_0000
  const MAX_ADDRESS: int := 0xFFFF_FFFF

  // ----- globals -----

  datatype ShardGlobals = ShardGlobals(
    numPartitions: int,
    nodesPerConsenusGroup: int,
    consensusRadius: int,
    nodesPerEdge: int)
  {
    // What every successful CalculateShardGlobals call establishes for a non-empty network.
    predicate Valid() {
      && 1 <= numPartitions <= ADDRESS_SPACE
      && 1 <= consensusRadius
      && nodesPerConsenusGroup == 2 * consensusRadius + 1
      && 0 <= nodesPerEdge
    }

    function StoreRadius(): int { consensusRadius + nodesPerEdge }
  }

  // An even group size is raised to the next odd one; a size below 3 is rejected.
  function CalculateShardGlobals(numNodes: int, nodesPerConsenusGroup: int, nodesPerEdge: Option<nat>)
    : (r: Result<ShardGlobals, string>)
    requires 1 <= numNodes <= ADDRESS_SPACE
    ensures r.Success? <==> 2 <= nodesPerConsenusGroup
    ensures r.Success? ==>
      && r.value.Valid() && r.value.numPartitions == numNodes
      && nodesPerConsenusGroup <= r.value.nodesPerConsenusGroup <= nodesPerConsenusGroup + 1
      && (nodesPerEdge.None? ==> r.value.nodesPerEdge == r.value.consensusRadius)
      && (nodesPerEdge.Some? ==> r.value.nodesPerEdge == nodesPerEdge.value)
  {
    var group := if nodesPerConsenusGroup % 2 == 0 then nodesPerConsenusGroup + 1 else nodesPerConsenusGroup;
    if group % 2 == 0 || group < 3 then
      Failure("nodesPerConsenusGroup must be odd and >= 3")
    else
      var radius := (group - 1) / 2;
      Success(ShardGlobals(numNodes, group, radius, if nodesPerEdge.Some? then nodesPerEdge.value else radius))
  }

  // ----- circular distance -----

  function Abs(x: int): nat { if x < 0 then -x else x }

  function Modulo(number: int, base: int): int
    requires base > 0
  {
    // The source writes ((number % base) + base) % base to make a truncating % Euclidean.
    number % base
  }

  function CircularDistance(a: int, b: int, max: int): int {
    Min(Abs(a - b), Min(Abs(a + (max - b)), Abs(b + (max - a))))
  }

  predicate StepReaches(h: int, d: int, p: int, n: int)
    requires n > 0
  {
    Modulo(h + d, n) == p
  }

  // CircularDistance really measures distance around the ring: p lies within r of h exactly when
  // some step of at most r, in either direction, leads from h to p.
  lemma CircularDistanceIsRingDistance(h: int, p: int, r: int, n: int)
    requires 0 <= h < n && 0 <= p < n && 0 <= r
    ensures CircularDistance(p, h, n) <= r <==> exists d :: -r <= d <= r && StepReaches(h, d, p, n)
  {
    if CircularDistance(p, h, n) <= r {
      var d := if Abs(p - h) <= r then p - h else if p > h then p - h - n else p - h + n;
      ModuloCases(h + d, n);
      assert StepReaches(h, d, p, n);
    }
    if d :| -r <= d <= r && StepReaches(h, d, p, n) && r < n {
      ModuloCases(h + d, n);
    }
  }

  lemma ModuloCases(x: int, n: int)
    requires 0 < n && -n <= x < 2 * n
    ensures Modulo(x, n) == if x < 0 then x + n else if x < n then x else x - n
  {
    var quotient := if x < 0 then -1 else if x < n then 0 else 1;
    ModuloUnique(x, n, quotient, if x < 0 then x + n else if x < n then x else x - n);
  }

  lemma ModuloUnique(x: int, n: int, q: int, m: int)
    requires 0 <= m < n && x == q * n + m
    ensures x % n == m
  {
    var k := q - x / n;
    assert k * n == x % n - m;
    assert k >= 1 ==> k * n >= n;
    assert k <= -1 ==> k * n <= -n;
  }

  // ----- partition size and address ranges -----

  // Math.round(2^32 / n) on exact rationals.
  function PartitionSize(n: int): (size: int)
    requires 1 <= n <= ADDRESS_SPACE
    ensures 1 <= size
    ensures 2 * ADDRESS_SPACE - n < 2 * (n * size) <= 2 * ADDRESS_SPACE + n
  {
    var size := (2 * ADDRESS_SPACE + n) / (2 * n);
    assert 2 * ADDRESS_SPACE + n == size * (2 * n) + (2 * ADDRESS_SPACE + n) % (2 * n);
    assert size * (2 * n) == 2 * (n * size);
    size
  }

  function AddressNumberToPartition(g: ShardGlobals, addressNum: int): int
    requires g.Valid()
  {
    var homePartition := addressNum / PartitionSize(g.numPartitions);
    if homePartition == g.numPartitions then homePartition - 1 else homePartition
  }

  datatype AddressRange = AddressRange(partition: int, partitionEnd: int, startAddr: int, endAddr: int)

  // `if (partitionMax)` is also false for a partitionMax of 0.
  function PartitionToAddressRange2(g: ShardGlobals, partition: int, partitionMax: Option<int>): AddressRange
    requires g.Valid()
  {
    var n := g.numPartitions;
    var size := PartitionSize(n);
    var endPartition := if partitionMax.Some? && partitionMax.value != 0 then partitionMax.value + 1 else partition + 1;
    var endAddr := if endPartition * size >= MAX_ADDRESS - n then MAX_ADDRESS else endPartition * size - 1;
    AddressRange(partition, if endPartition == n then n - 1 else endPartition, partition * size, endAddr)
  }

  predicate InAddressRange(address: int, range: AddressRange) {
    range.startAddr <= address <= range.endAddr
  }

  // The rounding slack at the end of the address space stays inside the last partition.
  predicate SlackFits(n: int)
    requires 1 <= n <= ADDRESS_SPACE
  {
    n == 1 || (n - 1) * PartitionSize(n) + n < MAX_ADDRESS
  }

  // Partition ranges are non-empty and an address lies in a partition's range exactly when it maps to it.
  ghost predicate Tiles(g: ShardGlobals)
    requires g.Valid()
  {
    && (forall p :: 0 <= p < g.numPartitions ==>
          var range := PartitionToAddressRange2(g, p, None); range.startAddr <= range.endAddr)
    && (forall a, p :: 0 <= a < ADDRESS_SPACE && 0 <= p < g.numPartitions ==>
          (InAddressRange(a, PartitionToAddressRange2(g, p, None)) <==> AddressNumberToPartition(g, a) == p))
  }

  lemma DivBounds(a: int, s: int, k: int)
    requires 1 <= s
    ensures a / s >= k <==> a >= k * s
  {
    var q := a / s;
    assert a == q * s + a % s;
    assert q >= k ==> q * s >= k * s;
    assert q + 1 <= k ==> (q + 1) * s <= k * s;
  }

  lemma PartitionInBounds(g: ShardGlobals, a: int)
    requires g.Valid() && SlackFits(g.numPartitions) && 0 <= a < ADDRESS_SPACE
    ensures 0 <= AddressNumberToPartition(g, a) < g.numPartitions
  {
    var n, s := g.numPartitions, PartitionSize(g.numPartitions);
    LastPartition(n, s);
    DivBounds(a, s, 0);
    DivBounds(a, s, n + 1);
  }

  // The address range of consecutive partitions lo..hi holds exactly the addresses that map into lo..hi.
  lemma AddressRangeIsPartitionRange(g: ShardGlobals, lo: int, hi: int, a: int)
    requires g.Valid() && SlackFits(g.numPartitions)
    requires 0 <= lo <= hi < g.numPartitions && (hi == 0 ==> lo == 0)
    requires 0 <= a < ADDRESS_SPACE
    ensures InAddressRange(a, PartitionToAddressRange2(g, lo, Some(hi))) <==> lo <= AddressNumberToPartition(g, a) <= hi
  {
    RangeArithmetic(g.numPartitions, PartitionSize(g.numPartitions), lo, hi, a);
  }

  // It runs from the start of partition lo up to where the next one starts, or to the top address; the end of the
  // range is that next partition, or the last one of all.
  lemma AddressRangeEnds(g: ShardGlobals, lo: int, hi: int)
    requires g.Valid() && SlackFits(g.numPartitions) && 0 <= lo <= hi < g.numPartitions && (hi == 0 ==> lo == 0)
    ensures
      var range := PartitionToAddressRange2(g, lo, Some(hi));
      && range.partition == lo && range.partitionEnd == Min(hi + 1, g.numPartitions - 1)
      && range.startAddr == lo * PartitionSize(g.numPartitions)
      && range.endAddr ==
        if hi < g.numPartitions - 1 then (hi + 1) * PartitionSize(g.numPartitions) - 1 else 0xFFFF_FFFF
  {
    var n, s := g.numPartitions, PartitionSize(g.numPartitions);
    LastPartition(n, s);
    if hi < n - 1 {
      MulMonotone(hi + 1, n - 1, s);
    }
  }

  // The same, for any partition size with the rounding bounds.
  lemma RangeArithmetic(n: int, s: int, lo: int, hi: int, a: int)
    requires 1 <= s && 2 * ADDRESS_SPACE - n < 2 * (n * s)
    requires n == 1 || (n - 1) * s + n < MAX_ADDRESS
    requires 0 <= lo <= hi < n && 0 <= a < ADDRESS_SPACE
    ensures
      var end := if (hi + 1) * s >= MAX_ADDRESS - n then MAX_ADDRESS else (hi + 1) * s - 1;
      var p := if a / s == n then n - 1 else a / s;
      lo * s <= a <= end <==> lo <= p <= hi
  {
    DivBounds(a, s, lo);
    DivBounds(a, s, hi + 1);
    DivBounds(a, s, n + 1);
    MulMonotone(hi + 1, n, s);
    LastPartition(n, s);
    if hi < n - 1 {
      MulMonotone(hi + 1, n - 1, s);
    }
  }

  lemma LastPartition(n: int, s: int)
    requires 1 <= n && 1 <= s && 2 * ADDRESS_SPACE - n < 2 * (n * s)
    requires n == 1 || (n - 1) * s + n < MAX_ADDRESS
    ensures n * s >= MAX_ADDRESS - n && (n + 1) * s >= ADDRESS_SPACE && (n - 1) * s <= MAX_ADDRESS
    ensures (n - 1) * s + s == n * s
  {
    assert (n - 1) * s == n * s - s && (n + 1) * s == n * s + s;
    assert n == 1 ==> n * s == s;
  }

  lemma RangesNonEmpty(g: ShardGlobals, p: int)
    requires g.Valid() && SlackFits(g.numPartitions) && 0 <= p < g.numPartitions
    ensures var range := PartitionToAddressRange2(g, p, None); range.startAddr <= range.endAddr
  {
    var n, s := g.numPartitions, PartitionSize(g.numPartitions);
    LastPartition(n, s);
    MulMonotone(p, n - 1, s);
    assert (p + 1) * s == p * s + s;
  }

  // The ranges tile the address space exactly when the rounding slack fits.
  lemma TilesExactlyWhenSlackFits(g: ShardGlobals)
    requires g.Valid()
    ensures Tiles(g) <==> SlackFits(g.numPartitions)
  {
    var n := g.numPartitions;
    if SlackFits(n) {
      forall p | 0 <= p < n
        ensures var range := PartitionToAddressRange2(g, p, None); range.startAddr <= range.endAddr
      {
        RangesNonEmpty(g, p);
      }
      forall a, p | 0 <= a < ADDRESS_SPACE && 0 <= p < n
        ensures InAddressRange(a, PartitionToAddressRange2(g, p, None)) <==> AddressNumberToPartition(g, a) == p
      {
        AddressRangeIsPartitionRange(g, p, p, a);
      }
    } else {
      SlackSpillsOver(g);
      var top := AddressNumberToPartition(g, MAX_ADDRESS);
      var last, previous := PartitionToAddressRange2(g, n - 1, None), PartitionToAddressRange2(g, n - 2, None);
      assert Tiles(g) ==> InAddressRange(MAX_ADDRESS, last) && InAddressRange(MAX_ADDRESS, previous);
    }
  }

  lemma SlackSpillsOver(g: ShardGlobals)
    requires g.Valid() && !SlackFits(g.numPartitions)
    ensures PartitionToAddressRange2(g, g.numPartitions - 1, None).endAddr == MAX_ADDRESS
    ensures PartitionToAddressRange2(g, g.numPartitions - 2, None).endAddr == MAX_ADDRESS
  {
    var n, s := g.numPartitions, PartitionSize(g.numPartitions);
    assert (n - 1) * s == n * s - s;
    assert (n - 2 + 1) * s == (n - 1) * s;
  }

  lemma SlackFitsUpTo32768(n: int)
    requires 1 <= n <= 0x8000
    ensures SlackFits(n)
  {
    var s := PartitionSize(n);
    SizeExceedsCount(n, s);
    assert (n - 1) * s == n * s - s;
  }

  lemma SizeExceedsCount(n: int, s: int)
    requires 1 <= n <= 0x8000 && 2 * ADDRESS_SPACE - n < 2 * (n * s)
    ensures 2 * n < s
  {
    MulMonotone(n, 0x8000, n);
    assert s <= 2 * n ==> n * s <= n * (2 * n) == 2 * (n * n);
  }

  // At 2^17 nodes the slack spills over: the top address lies in the ranges of the last two partitions.
  lemma OverlapAt131072(g: ShardGlobals)
    requires g.Valid() && g.numPartitions == 0x2_0000
    ensures InAddressRange(MAX_ADDRESS, PartitionToAddressRange2(g, 0x1_FFFE, None))
    ensures InAddressRange(MAX_ADDRESS, PartitionToAddressRange2(g, 0x1_FFFF, None))
    ensures !Tiles(g)
  {
    assert PartitionSize(0x2_0000) == 0x8000;
    TilesExactlyWhenSlackFits(g);
  }

  // floor((i + 0.5) / n * 0xffffffff), the address used for partition i and for the i-th node.
  function CenterAddress(g: ShardGlobals, i: int): (c: int)
    requires g.Valid()
    ensures c * (2 * g.numPartitions) <= (2 * i + 1) * 0xFFFF_FFFF < (c + 1) * (2 * g.numPartitions)
  {
    var c := ((2 * i + 1) * MAX_ADDRESS) / (2 * g.numPartitions);
    assert (c + 1) * (2 * g.numPartitions) == c * (2 * g.numPartitions) + 2 * g.numPartitions;
    QuotientBounds((2 * i + 1) * MAX_ADDRESS, 2 * g.numPartitions);
    c
  }

  lemma CenterMapsBack(g: ShardGlobals, i: int)
    requires g.Valid() && g.numPartitions <= 0x8000 && 0 <= i < g.numPartitions
    ensures 0 <= CenterAddress(g, i) < ADDRESS_SPACE
    ensures AddressNumberToPartition(g, CenterAddress(g, i)) == i
  {
    var n, s, c := g.numPartitions, PartitionSize(g.numPartitions), CenterAddress(g, i);
    PartitionEdge(n, i);
    PartitionEdge(n, i + 1);
    CancelLess(i * s, c + 1, 2 * n);
    CancelLess(c, (i + 1) * s, 2 * n);
    CancelLess(-1, c, 2 * n);
    CancelLess(c, ADDRESS_SPACE, 2 * n);
    DivBounds(c, s, i);
    DivBounds(c, s, i + 1);
  }

  // Where partition i starts, times 2n: the rounding of the size moves it by at most 2^30.
  lemma PartitionEdge(n: int, i: int)
    requires 1 <= n <= 0x8000 && 0 <= i <= n
    ensures -0x4000_0000 <= (i * PartitionSize(n)) * (2 * n) - 2 * ADDRESS_SPACE * i <= 0x4000_0000
  {
    var s := PartitionSize(n);
    var e := 2 * (n * s) - 2 * ADDRESS_SPACE;
    calc {
      (i * s) * (2 * n);
      i * (2 * (n * s));
      i * (2 * ADDRESS_SPACE + e);
      2 * ADDRESS_SPACE * i + e * i;
    }
    MulMonotone(e, n, i);
    MulMonotone(-n, e, i);
    MulMonotone(i, 0x8000, n);
    assert (-n) * i == -(i * n);
  }

  lemma CancelLess(x: int, y: int, m: int)
    requires 0 < m
    ensures x * m < y * m ==> x < y
  {
    assert x >= y ==> (x - y) * m >= 0;
  }
}
