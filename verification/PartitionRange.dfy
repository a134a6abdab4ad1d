/** Wrap-around partition ranges (src/ShardFunctions.ts:124-341). */
module PartitionRange {
  import opened Basics
  import opened Wrappers
  import opened ShardGeometry

  // A filled-out range: one run of partitions, or two runs when it wraps past the last partition.
  datatype Span =
    | Joined(lo: int, hi: int, addresses: AddressRange)
    | Split(hi1: int, lo2: int, last: int, addresses1: AddressRange, addresses2: AddressRange)

  predicate InSpan(partition: int, span: Span) {
    match span
    case Joined(lo, hi, _) => lo <= partition <= hi
    case Split(hi1, lo2, last, _, _) => 0 <= partition <= hi1 || lo2 <= partition <= last
  }

  predicate AddressInSpan(address: int, span: Span) {
    match span
    case Joined(_, _, range) => InAddressRange(address, range)
    case Split(_, _, _, range1, range2) => InAddressRange(address, range1) || InAddressRange(address, range2)
  }

  function SpanSize(span: Span): int {
    match span
    case Joined(lo, hi, _) => 1 + hi - lo
    case Split(hi1, lo2, last, _, _) => 2 + hi1 + (last - lo2)
  }

  // The partition `steps` after (before) `home` around a ring of n partitions, for steps < n.
  function Clockwise(home: int, steps: int, n: int): int {
    if home + steps < n then home + steps else home + steps - n
  }

  function CounterClockwise(home: int, steps: int, n: int): int {
    if steps <= home then home - steps else home - steps + n
  }

  // The span of the partitions within `radius` of `home`, written directly.
  function SpanOf(g: ShardGlobals, home: int, radius: int): Span
    requires g.Valid() && 0 <= home < g.numPartitions && 0 <= radius
  {
    var n := g.numPartitions;
    if n <= 2 * radius + 1 then
      Joined(0, n - 1, PartitionToAddressRange2(g, 0, Some(n - 1)))
    else if 0 <= home - radius && home + radius < n then
      Joined(home - radius, home + radius, PartitionToAddressRange2(g, home - radius, Some(home + radius)))
    else
      var hi1, lo2 := Clockwise(home, radius, n), CounterClockwise(home, radius, n);
      Split(hi1, lo2, n - 1, PartitionToAddressRange2(g, 0, Some(hi1)), PartitionToAddressRange2(g, lo2, Some(n - 1)))
  }

  // A partition is in the range exactly when it is within the radius around the ring; the range is split exactly when
  // that wraps without reaching every partition.
  lemma SpanIsBall(g: ShardGlobals, home: int, radius: int, p: int)
    requires g.Valid() && 0 <= home < g.numPartitions && 0 <= radius && 0 <= p < g.numPartitions
    ensures InSpan(p, SpanOf(g, home, radius)) <==> CircularDistance(p, home, g.numPartitions) <= radius
    ensures SpanOf(g, home, radius).Split? <==>
      2 * radius + 1 < g.numPartitions && !(radius <= home < g.numPartitions - radius)
  {
  }

  lemma SpanSizeIs(g: ShardGlobals, home: int, radius: int)
    requires g.Valid() && 0 <= home < g.numPartitions && 0 <= radius
    ensures SpanSize(SpanOf(g, home, radius)) == Min(g.numPartitions, 2 * radius + 1)
  {
  }

  // The address ranges of a partition range hold exactly the addresses whose partition is within the radius.
  lemma SpanAddresses(g: ShardGlobals, home: int, radius: int, a: int)
    requires g.Valid() && SlackFits(g.numPartitions)
    requires 0 <= home < g.numPartitions && 0 <= radius && 0 <= a < ADDRESS_SPACE
    ensures
      var span, p := SpanOf(g, home, radius), AddressNumberToPartition(g, a);
      && (AddressInSpan(a, span) <==> InSpan(p, span))
      && (InSpan(p, span) <==> CircularDistance(p, home, g.numPartitions) <= radius)
  {
    var n := g.numPartitions;
    PartitionInBounds(g, a);
    SpanIsBall(g, home, radius, AddressNumberToPartition(g, a));
    match SpanOf(g, home, radius) {
      case Joined(lo, hi, _) =>
        AddressRangeIsPartitionRange(g, lo, hi, a);
      case Split(hi1, lo2, last, _, _) =>
        AddressRangeIsPartitionRange(g, 0, hi1, a);
        AddressRangeIsPartitionRange(g, lo2, last, a);
    }
  }

  // ----- the record the source fills in, field by field -----

  class WrappablePartitionRange {
    var homeRange: AddressRange
    var rangeIsSplit: bool
    var partitionStart: int
    var partitionEnd: int
    var partitionStart1: int
    var partitionEnd1: int
    var partitionStart2: int
    var partitionEnd2: int
    var partitionRange: AddressRange
    var partitionRange2: AddressRange
    var partitionsCovered: int

    // All other fields are undefined in the source until the second phase assigns them.
    constructor (homeRange: AddressRange, start: int, end: int)
      ensures this.homeRange == homeRange && partitionStart == start && partitionEnd == end
    {
      this.homeRange, partitionStart, partitionEnd := homeRange, start, end;
    }

    ghost function AsSpan(): Span
      reads this
    {
      if rangeIsSplit then Split(partitionEnd1, partitionStart2, partitionEnd2, partitionRange, partitionRange2)
      else Joined(partitionStart, partitionEnd, partitionRange)
    }

    // What a finished record looks like; callers read the split bounds through either set of names.
    ghost predicate Describes(g: ShardGlobals, home: int, radius: int)
      requires g.Valid() && 0 <= home < g.numPartitions && 0 <= radius
      reads this
    {
      && AsSpan() == SpanOf(g, home, radius)
      && partitionStart1 == (if rangeIsSplit then 0 else partitionStart)
      && (rangeIsSplit ==> partitionStart == partitionStart2)
      && partitionEnd1 == partitionEnd
      && partitionsCovered == Min(g.numPartitions, 2 * radius + 1)
      && homeRange == PartitionToAddressRange2(g, home, None)
    }

    // The second phase, called only on a record that CalculateParitionRange has started.
    // Reaching one of the throws returns thrown == true: no start reaches one.
    method CalculatePartitionRangeInternal(g: ShardGlobals, ghost home: int, partitionRadius: int)
      returns (thrown: bool)
      requires g.Valid() && 0 <= home < g.numPartitions && 0 <= partitionRadius
      requires partitionStart == (if g.numPartitions <= 2 * partitionRadius then 0 else home - partitionRadius)
      requires partitionEnd ==
        if g.numPartitions <= 2 * partitionRadius then g.numPartitions - 1 else home + partitionRadius
      requires homeRange == PartitionToAddressRange2(g, home, None)
      modifies this
      ensures !thrown && Describes(g, home, partitionRadius)
    {
      WrapBounds(g, home, partitionRadius);
      if rangeIsSplit && (partitionStart1 == partitionEnd2 || partitionStart2 == partitionEnd1) {
        return true;
      }
      thrown := FillAddressRanges(g, home, partitionRadius);
    }

    // The three shapes of wrapped bounds: the whole ring, one arc, or two arcs with a gap between them.
    ghost predicate Wrapped(g: ShardGlobals, home: int, radius: int)
      requires g.Valid() && 0 <= home < g.numPartitions && 0 <= radius
      reads this
    {
      && (rangeIsSplit <==> g.numPartitions > 2 * radius + 1 && (home < radius || home + radius >= g.numPartitions))
      && (!rangeIsSplit ==>
            && partitionStart == partitionStart1 == (if g.numPartitions <= 2 * radius + 1 then 0 else home - radius)
            && partitionEnd == partitionEnd1
            && partitionEnd == (if g.numPartitions <= 2 * radius + 1 then g.numPartitions - 1 else home + radius))
      && (rangeIsSplit ==>
            && partitionStart1 == 0 && partitionEnd2 == g.numPartitions - 1
            && partitionEnd == partitionEnd1 == Clockwise(home, radius, g.numPartitions)
            && partitionStart == partitionStart2 == CounterClockwise(home, radius, g.numPartitions)
            && partitionEnd1 + 1 < partitionStart2)
    }

    // The overlapping `if` blocks that wrap, split or collapse the bounds.
    method WrapBounds(g: ShardGlobals, ghost home: int, ghost radius: int)
      requires g.Valid() && 0 <= home < g.numPartitions && 0 <= radius
      requires partitionStart == (if g.numPartitions <= 2 * radius then 0 else home - radius)
      requires partitionEnd == (if g.numPartitions <= 2 * radius then g.numPartitions - 1 else home + radius)
      modifies this
      ensures homeRange == old(homeRange)
      ensures Wrapped(g, home, radius)
    {
      var n := g.numPartitions;
      rangeIsSplit := false;
      partitionsCovered := 0;
      if partitionStart < 0 {
        rangeIsSplit := true;
        partitionStart2 := partitionStart + n;
        partitionEnd2 := n - 1;
        partitionStart1 := 0;
        partitionEnd1 := partitionEnd;
        partitionStart := partitionStart2;
      }
      if partitionEnd >= n {
        rangeIsSplit := true;
        partitionEnd1 := partitionEnd - n;
        partitionStart1 := 0;
        partitionStart2 := partitionStart;
        partitionEnd2 := n - 1;
        partitionEnd := partitionEnd1;
      }
      if partitionEnd < partitionStart {
        rangeIsSplit := true;
        partitionEnd1 := partitionEnd;
        partitionStart1 := 0;
        partitionStart2 := partitionStart;
        partitionEnd2 := n - 1;
        partitionEnd := partitionEnd1;
      }
      // A split range that covers every partition collapses.
      if rangeIsSplit && partitionEnd1 + 1 == partitionStart2 {
        rangeIsSplit := false;
        partitionStart := 0;
        partitionEnd := n - 1;
      }
      if !rangeIsSplit {
        partitionStart1 := partitionStart;
        partitionEnd1 := partitionEnd;
      }
    }

    // The tail of the second phase: it throws exactly on negative bounds, and completes wrapped bounds to a
    // record that describes the ball around home.
    method FillAddressRanges(g: ShardGlobals, ghost home: int, ghost radius: int) returns (thrown: bool)
      requires g.Valid() && 0 <= home < g.numPartitions && 0 <= radius
      modifies this`partitionRange, this`partitionRange2, this`partitionsCovered
      ensures thrown <==>
        if rangeIsSplit then partitionStart2 < 0 || partitionEnd2 < 0 else partitionStart1 < 0 || partitionEnd1 < 0
      ensures Wrapped(g, home, radius) && homeRange == PartitionToAddressRange2(g, home, None) ==>
        !thrown && Describes(g, home, radius)
    {
      if rangeIsSplit {
        if partitionStart2 >= 0 && partitionEnd2 >= 0 {
          partitionRange := PartitionToAddressRange2(g, partitionStart1, Some(partitionEnd1));
          partitionRange2 := PartitionToAddressRange2(g, partitionStart2, Some(partitionEnd2));
          partitionsCovered := 2 + (partitionEnd1 - partitionStart1) + (partitionEnd2 - partitionStart2);
        } else {
          return true;
        }
      } else {
        partitionRange := PartitionToAddressRange2(g, partitionStart, Some(partitionEnd));
        if partitionStart1 >= 0 && partitionEnd1 >= 0 {
          partitionsCovered := 1 + (partitionEnd1 - partitionStart1);
        } else {
          return true;
        }
      }
      return false;
    }
  }

  // numPartitions / 2 <= partitionRadius is a comparison of reals.
  method CalculateParitionRange(g: ShardGlobals, homePartition: int, partitionRadius: int)
    returns (range: WrappablePartitionRange, thrown: bool)
    requires g.Valid() && 0 <= homePartition < g.numPartitions && 0 <= partitionRadius
    ensures fresh(range) && !thrown
    ensures range.Describes(g, homePartition, partitionRadius)
  {
    var homeRange := PartitionToAddressRange2(g, homePartition, None);
    if g.numPartitions <= 2 * partitionRadius {
      range := new WrappablePartitionRange(homeRange, 0, g.numPartitions - 1);
    } else {
      range := new WrappablePartitionRange(homeRange, homePartition - partitionRadius, homePartition + partitionRadius);
    }
    thrown := range.CalculatePartitionRangeInternal(g, homePartition, partitionRadius);
  }

  method CalculateStoredPartitions2(g: ShardGlobals, homePartition: int)
    returns (range: WrappablePartitionRange, thrown: bool)
    requires g.Valid() && 0 <= homePartition < g.numPartitions
    ensures fresh(range) && !thrown
    ensures range.Describes(g, homePartition, g.consensusRadius + g.nodesPerEdge)
  {
    range, thrown := CalculateParitionRange(g, homePartition, g.StoreRadius());
  }

  method CalculateConsensusPartitions(g: ShardGlobals, homePartition: int)
    returns (range: WrappablePartitionRange, thrown: bool)
    requires g.Valid() && 0 <= homePartition < g.numPartitions
    ensures fresh(range) && !thrown
    ensures range.Describes(g, homePartition, g.consensusRadius)
  {
    range, thrown := CalculateParitionRange(g, homePartition, g.consensusRadius);
  }

  predicate TestInRange(partition: int, range: WrappablePartitionRange)
    reads range
  {
    if range.rangeIsSplit then
      || range.partitionStart1 <= partition <= range.partitionEnd1
      || range.partitionStart2 <= partition <= range.partitionEnd2
    else
      range.partitionStart <= partition <= range.partitionEnd
  }

  predicate TestAddressNumberInRange(address: int, range: WrappablePartitionRange)
    reads range
  {
    if range.rangeIsSplit then
      InAddressRange(address, range.partitionRange) || InAddressRange(address, range.partitionRange2)
    else
      InAddressRange(address, range.partitionRange)
  }

  // The range answers the one question callers ask: is p within `radius` of `home` around the ring?
  ghost predicate TestsBall(range: WrappablePartitionRange, home: int, radius: int, n: int)
    reads range
  {
    forall p :: 0 <= p < n ==> (TestInRange(p, range) <==> CircularDistance(p, home, n) <= radius)
  }

  // The whole record at once: partition test, address test and circular distance agree.
  lemma RangeTestsAgree(g: ShardGlobals, home: int, radius: int, range: WrappablePartitionRange)
    requires g.Valid() && 0 <= home < g.numPartitions && 0 <= radius
    requires range.Describes(g, home, radius)
    ensures TestsBall(range, home, radius, g.numPartitions)
    ensures SlackFits(g.numPartitions) ==> forall a :: 0 <= a < ADDRESS_SPACE ==>
      (TestAddressNumberInRange(a, range) <==> TestInRange(AddressNumberToPartition(g, a), range))
  {
    forall p | 0 <= p < g.numPartitions
      ensures TestInRange(p, range) <==> CircularDistance(p, home, g.numPartitions) <= radius
    {
      SpanIsBall(g, home, radius, p);
    }
    if SlackFits(g.numPartitions) {
      forall a | 0 <= a < ADDRESS_SPACE
        ensures TestAddressNumberInRange(a, range) <==> TestInRange(AddressNumberToPartition(g, a), range)
      {
        SpanAddresses(g, home, radius, a);
        PartitionInBounds(g, a);
      }
    }
  }
}
