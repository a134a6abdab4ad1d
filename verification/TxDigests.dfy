/** The hash chain of transaction digests (src/txDigester/txDigestFunctions.ts:16-96, src/txDigester.ts:42-67). */
module TxDigests {
  import opened Wrappers

  datatype Digest = Digest(cycleStart: int, cycleEnd: int, txCount: nat, hash: nat)

  // cycleDiff; the sorted ids of the transactions processed in a range of cycles; and the hash functions.
  datatype Env = Env(
    batchSize: int,
    txIds: (int, int) -> seq<nat>,
    hashIds: seq<nat> -> nat,
    hashObj: (nat, nat) -> nat)

  // '0x0'
  const FIRST_PREV_HASH := 0

  datatype Stop = FetchFailed | NoPrevHash

  // ----- one round of the loop -----

  function GetHash(table: map<int, Digest>, cycle: int): Result<nat, Stop> {
    if cycle == -1 then Success(FIRST_PREV_HASH)
    else if cycle in table then Success(table[cycle].hash)
    else Failure(NoPrevHash)
  }

  // The digest of the batch that starts at a cycle.
  function BatchDigest(env: Env, table: map<int, Digest>, currentCycle: int, fetched: bool): Result<Digest, Stop> {
    if !fetched then Failure(FetchFailed) else
      var endCycle := currentCycle + env.batchSize - 1;
      var txIds, prevHash := env.txIds(currentCycle, endCycle), GetHash(table, currentCycle - 1);
      if prevHash.Failure? then Failure(prevHash.error)
      else Success(Digest(currentCycle, endCycle, |txIds|, env.hashObj(prevHash.value, env.hashIds(txIds))))
  }

  // ----- the chain -----

  // The first cycle of the k-th batch.
  function Start(batchSize: int, k: nat): int {
    if k == 0 then 0 else Start(batchSize, k - 1) + batchSize
  }

  lemma {:induction false} StartIsProduct(batchSize: int, k: nat)
    ensures Start(batchSize, k) == k * batchSize
  {
    if k > 0 {
      StartIsProduct(batchSize, k - 1);
      assert k * batchSize == (k - 1) * batchSize + batchSize;
    }
  }

  // The k-th digest: consecutive ranges of batchSize cycles, each hash over the one before.
  function Link(env: Env, k: nat): Digest
    decreases k, 1
  {
    var start, end := Start(env.batchSize, k), Start(env.batchSize, k) + env.batchSize - 1;
    var txIds := env.txIds(start, end);
    Digest(start, end, |txIds|, env.hashObj(PrevHash(env, k), env.hashIds(txIds)))
  }

  function PrevHash(env: Env, k: nat): nat
    decreases k, 0
  {
    if k == 0 then FIRST_PREV_HASH else Link(env, k - 1).hash
  }

  // Links cover [0, batchSize), [batchSize, 2 * batchSize) and so on, and hash the ids of their range behind the hash
  // of the link before, or 0.
  lemma LinkIs(env: Env, k: nat)
    ensures
      var ids := env.txIds(k * env.batchSize, (k + 1) * env.batchSize - 1);
      var before := if k == 0 then 0 else Link(env, k - 1).hash;
      Link(env, k) == Digest(
        k * env.batchSize, (k + 1) * env.batchSize - 1, |ids|, env.hashObj(before, env.hashIds(ids)))
  {
    StartIsProduct(env.batchSize, k);
    assert (k + 1) * env.batchSize == k * env.batchSize + env.batchSize;
  }

  // The table that holds the first n digests and nothing else, by their end cycle.
  function Chain(env: Env, n: nat): map<int, Digest> {
    if n == 0 then map[] else Chain(env, n - 1)[Link(env, n - 1).cycleEnd := Link(env, n - 1)]
  }

  lemma StartNext(batchSize: int, k: nat)
    ensures Start(batchSize, k + 1) == Start(batchSize, k) + batchSize
  {
  }

  lemma {:induction false} StartsGrow(batchSize: int, j: nat, k: nat)
    requires batchSize >= 1 && j <= k
    ensures Start(batchSize, k) >= Start(batchSize, j) + (k - j)
  {
    if j < k {
      StartsGrow(batchSize, j, k - 1);
      StartNext(batchSize, k - 1);
    }
  }

  // The rows of the chain are exactly its first n links.
  lemma {:induction false} ChainRows(env: Env, n: nat, k: nat)
    requires env.batchSize >= 1
    ensures Link(env, k).cycleEnd in Chain(env, n) <==> k < n
    ensures k < n ==> Chain(env, n)[Link(env, k).cycleEnd] == Link(env, k)
  {
    if n > 0 {
      ChainRows(env, n - 1, k);
      if k < n - 1 {
        StartsGrow(env.batchSize, k, n - 1);
      } else if n - 1 < k {
        StartsGrow(env.batchSize, n - 1, k);
      }
    }
  }

  // Every row is a link: no gaps and no strangers.
  lemma {:induction false} ChainKeys(env: Env, n: nat, cycleEnd: int) returns (k: nat)
    requires cycleEnd in Chain(env, n)
    ensures k < n && cycleEnd == Link(env, k).cycleEnd
  {
    if cycleEnd == Link(env, n - 1).cycleEnd {
      k := n - 1;
    } else {
      k := ChainKeys(env, n - 1, cycleEnd);
    }
  }

  // A round at a batch that the chain has reached or is next to succeeds, with that batch's link.
  lemma RoundIsLink(env: Env, n: nat, k: nat)
    requires env.batchSize >= 1 && k <= n
    ensures BatchDigest(env, Chain(env, n), Start(env.batchSize, k), true) == Success(Link(env, k))
  {
    PrevHashIs(env, n, k);
  }

  lemma PrevHashIs(env: Env, n: nat, k: nat)
    requires env.batchSize >= 1 && k <= n
    ensures GetHash(Chain(env, n), Start(env.batchSize, k) - 1) == Success(PrevHash(env, k))
  {
    if k > 0 {
      LinkEndsBeforeNextStart(env, k - 1);
      HashOfLink(env, Chain(env, n), n, k - 1, Start(env.batchSize, k) - 1);
    }
  }

  lemma HashOfLink(env: Env, table: map<int, Digest>, n: nat, k: nat, cycleEnd: int)
    requires env.batchSize >= 1 && k < n && table == Chain(env, n) && cycleEnd == Link(env, k).cycleEnd
    ensures GetHash(table, cycleEnd) == Success(Link(env, k).hash)
  {
    ChainRows(env, n, k);
    StartsGrow(env.batchSize, 0, k);
  }

  lemma LinkEndsBeforeNextStart(env: Env, k: nat)
    ensures Link(env, k).cycleEnd + 1 == Start(env.batchSize, k + 1)
  {
    StartNext(env.batchSize, k);
  }

  // Inserting it again changes nothing; inserting the next one extends the chain.
  lemma InsertLink(env: Env, n: nat, k: nat)
    requires env.batchSize >= 1 && k <= n
    ensures Chain(env, n)[Link(env, k).cycleEnd := Link(env, k)] == Chain(env, if k == n then n + 1 else n)
  {
    if k < n {
      ChainRows(env, n, k);
    }
  }

  // ----- cron runs, interleaved at their batches -----

  // A run of processAndInsertTxDigests between two rounds.
  datatype Run = Run(currentCycle: int, latestCycleCounter: int)

  datatype Digester = Digester(table: map<int, Digest>, last: Option<Digest>, runs: seq<Run>)

  // A cron tick; a round of a run; a restart of the process.
  datatype Event =
    | Tick(latestCycleCounter: int, syncDelay: int, active: bool)
    | Round(run: nat, fetched: bool)
    | Restart

  // getLastProcessedTxDigest: the row with the greatest end cycle, if the process has none in memory. A query that
  // fails brings none, as for an empty table.
  ghost predicate IsNewest(table: map<int, Digest>, d: Digest) {
    d.cycleEnd in table && table[d.cycleEnd] == d && forall c :: c in table ==> c <= d.cycleEnd
  }

  ghost predicate LastProcessed(s: Digester, last: Option<Digest>) {
    if s.last.Some? then last == s.last else last.None? || IsNewest(s.table, last.value)
  }

  function StartRun(env: Env, s: Digester, last: Option<Digest>, event: Event): Digester
    requires event.Tick?
  {
    var lastCheckedCycle := if last.Some? then last.value.cycleEnd else -1;
    var latestSynced := event.latestCycleCounter - event.syncDelay;
    Digester(s.table, last,
      if latestSynced - lastCheckedCycle >= env.batchSize then s.runs + [Run(lastCheckedCycle + 1, latestSynced)]
      else s.runs)
  }

  function PerformRound(env: Env, s: Digester, i: nat, fetched: bool): Digester
    requires i < |s.runs|
  {
    var run, others := s.runs[i], s.runs[..i] + s.runs[i + 1..];
    var endCycle := run.currentCycle + env.batchSize - 1;
    if endCycle > run.latestCycleCounter then s.(runs := others) else
      var digest := BatchDigest(env, s.table, run.currentCycle, fetched);
      if digest.Failure? then s.(runs := others)
      else Digester(s.table[digest.value.cycleEnd := digest.value], Some(digest.value),
        s.runs[i := Run(endCycle + 1, run.latestCycleCounter)])
  }

  ghost predicate IsStep(env: Env, s: Digester, event: Event, after: Digester) {
    match event
    case Tick(_, _, active) =>
      if active then exists last :: LastProcessed(s, last) && after == StartRun(env, s, last, event) else after == s
    case Round(i, fetched) => after == if i < |s.runs| then PerformRound(env, s, i, fetched) else s
    case Restart => after == Digester(s.table, None, [])
  }

  ghost predicate IsLinkBelow(env: Env, d: Digest, n: nat) {
    exists k :: 0 <= k < n && d == Link(env, k)
  }

  ghost predicate IsStartUpTo(env: Env, cycle: int, n: nat) {
    exists k :: 0 <= k <= n && cycle == Start(env.batchSize, k)
  }

  // The table is the chain of n links, and every run is at the start of one of its batches or of the next.
  ghost predicate Inv(env: Env, s: Digester, n: nat) {
    && s.table == Chain(env, n)
    && (s.last.Some? ==> IsLinkBelow(env, s.last.value, n))
    && (forall i :: 0 <= i < |s.runs| ==> IsStartUpTo(env, s.runs[i].currentCycle, n))
  }

  lemma TickKeeps(env: Env, s: Digester, n: nat, event: Event, last: Option<Digest>)
    requires env.batchSize >= 1 && Inv(env, s, n) && event.Tick? && LastProcessed(s, last)
    ensures Inv(env, StartRun(env, s, last, event), n)
  {
    if last.Some? {
      var k: nat;
      if s.last.Some? {
        k :| 0 <= k < n && last.value == Link(env, k);
      } else {
        k := ChainKeys(env, n, last.value.cycleEnd);
        ChainRows(env, n, k);
      }
      LinkEndsBeforeNextStart(env, k);
      assert IsLinkBelow(env, last.value, n) && IsStartUpTo(env, last.value.cycleEnd + 1, n);
    } else {
      assert Start(env.batchSize, 0) == 0;
      assert IsStartUpTo(env, 0, n);
    }
  }

  lemma MoreLinks(env: Env, s: Digester, n: nat, later: nat)
    requires n <= later && forall i :: 0 <= i < |s.runs| ==> IsStartUpTo(env, s.runs[i].currentCycle, n)
    ensures forall i :: 0 <= i < |s.runs| ==> IsStartUpTo(env, s.runs[i].currentCycle, later)
  {
    forall i | 0 <= i < |s.runs| ensures IsStartUpTo(env, s.runs[i].currentCycle, later) {
      var k :| 0 <= k <= n && s.runs[i].currentCycle == Start(env.batchSize, k);
      assert 0 <= k <= later;
    }
  }

  // A round keeps the chain or extends it by one link; getHash never fails.
  lemma RoundKeeps(env: Env, s: Digester, n: nat, i: nat, fetched: bool) returns (later: nat)
    requires env.batchSize >= 1 && Inv(env, s, n) && i < |s.runs|
    ensures n <= later <= n + 1 && Inv(env, PerformRound(env, s, i, fetched), later)
    ensures fetched ==> BatchDigest(env, s.table, s.runs[i].currentCycle, fetched).Success?
  {
    later := n;
    var k :| 0 <= k <= n && s.runs[i].currentCycle == Start(env.batchSize, k);
    RoundIsLink(env, n, k);
    if fetched && Link(env, k).cycleEnd <= s.runs[i].latestCycleCounter {
      InsertLink(env, n, k);
      LinkEndsBeforeNextStart(env, k);
      later := if k == n then n + 1 else n;
      MoreLinks(env, s, n, later);
      assert IsLinkBelow(env, Link(env, k), later);
      assert IsStartUpTo(env, Link(env, k).cycleEnd + 1, later);
    }
  }

  lemma StepKeeps(env: Env, s: Digester, n: nat, event: Event, after: Digester) returns (later: nat)
    requires env.batchSize >= 1 && Inv(env, s, n) && IsStep(env, s, event, after)
    ensures n <= later && Inv(env, after, later)
  {
    later := n;
    match event
    case Tick(_, _, active) =>
      if active {
        var last :| LastProcessed(s, last) && after == StartRun(env, s, last, event);
        TickKeeps(env, s, n, event, last);
      }
    case Round(i, fetched) =>
      if i < |s.runs| {
        later := RoundKeeps(env, s, n, i, fetched);
      }
    case Restart =>
  }

  ghost predicate IsExecution(env: Env, states: seq<Digester>, events: seq<Event>) {
    && |states| == |events| + 1 && states[0] == Digester(map[], None, [])
    && forall k :: 0 <= k < |events| ==> IsStep(env, states[k], events[k], states[k + 1])
  }

  lemma {:induction false} ExecutionKeepsChain(env: Env, states: seq<Digester>, events: seq<Event>, k: nat)
    returns (n: nat)
    requires env.batchSize >= 1 && IsExecution(env, states, events) && k < |states|
    ensures Inv(env, states[k], n)
  {
    if k == 0 {
      n := 0;
    } else {
      var before := ExecutionKeepsChain(env, states, events, k - 1);
      n := StepKeeps(env, states[k - 1], before, events[k - 1], states[k]);
    }
  }

  // ----- a single run -----

  // processAndInsertTxDigests without interruption.
  function Process(
    env: Env, table: map<int, Digest>, last: Option<Digest>, currentCycle: int, latest: int, fetched: int -> bool)
    : (map<int, Digest>, Option<Digest>)
    requires env.batchSize >= 1
    decreases latest - currentCycle
  {
    var endCycle := currentCycle + env.batchSize - 1;
    if endCycle > latest then (table, last) else
      var digest := BatchDigest(env, table, currentCycle, fetched(currentCycle));
      if digest.Failure? then (table, last)
      else Process(env, table[digest.value.cycleEnd := digest.value], Some(digest.value), endCycle + 1, latest, fetched)
  }

  // A single run builds the whole chain up to the last full batch.
  lemma {:induction false} SingleRunBuildsChain(
    env: Env, k: nat, n: nat, last: Option<Digest>, latest: int, fetched: int -> bool)
    requires env.batchSize >= 1 && k <= n && forall c :: fetched(c)
    requires Start(env.batchSize, n) <= latest + 1 < Start(env.batchSize, n + 1)
    ensures Process(env, Chain(env, k), last, Start(env.batchSize, k), latest, fetched).0 == Chain(env, n)
    decreases n - k
  {
    StartNext(env.batchSize, k);
    RoundIsLink(env, k, k);
    if k < n {
      StartsGrow(env.batchSize, k + 1, n);
      assert Chain(env, k + 1) == Chain(env, k)[Link(env, k).cycleEnd := Link(env, k)];
      SingleRunBuildsChain(env, k + 1, n, Some(Link(env, k)), latest, fetched);
    } else {
      StartNext(env.batchSize, n);
    }
  }

  // Whatever the ticks, interleavings, failed fetches and restarts: the table is the one that a single
  // run from an empty table would leave that goes up to the last cycle covered.
  lemma TableIsThatOfASingleRun(env: Env, states: seq<Digester>, events: seq<Event>) returns (n: nat)
    requires env.batchSize >= 1 && IsExecution(env, states, events)
    ensures states[|events|].table ==
      Process(env, map[], None, 0, Start(env.batchSize, n) - 1, c => true).0
    ensures forall c :: c in states[|events|].table ==> 0 <= c < Start(env.batchSize, n)
  {
    n := ExecutionKeepsChain(env, states, events, |events|);
    StartNext(env.batchSize, n);
    assert Start(env.batchSize, 0) == 0 && Chain(env, 0) == map[];
    SingleRunBuildsChain(env, 0, n, None, Start(env.batchSize, n) - 1, c => true);
    forall c | c in states[|events|].table ensures 0 <= c < Start(env.batchSize, n) {
      var k := ChainKeys(env, n, c);
      StartsGrow(env.batchSize, 0, k);
      StartNext(env.batchSize, k);
      StartsGrow(env.batchSize, k + 1, n);
    }
  }

  // ----- a tick with no other run -----

  // Rounds of the first run, all of them fetched.
  function Rounds(env: Env, s: Digester, times: nat): Digester
    decreases times
  {
    if times == 0 || s.runs == [] then s else Rounds(env, PerformRound(env, s, 0, true), times - 1)
  }

  // A run ends with the chain of all batches up to its latest cycle, whatever was there before.
  lemma {:induction false} RunCatchesUp(env: Env, s: Digester, n: nat, k: nat, m: nat, latest: int)
    returns (times: nat)
    requires env.batchSize >= 1 && k <= n && k <= m && s.table == Chain(env, n)
    requires s.runs == [Run(Start(env.batchSize, k), latest)]
    requires Start(env.batchSize, m) <= latest + 1 < Start(env.batchSize, m + 1)
    ensures
      var after := Rounds(env, s, times);
      after.table == Chain(env, if n < m then m else n) && after.runs == []
    decreases m - k
  {
    var next := PerformRound(env, s, 0, true);
    StartNext(env.batchSize, k);
    if k == m {
      times := 1;
      assert next == s.(runs := []) && Rounds(env, next, 0) == next;
    } else {
      StartsGrow(env.batchSize, k + 1, m);
      RoundIsLink(env, n, k);
      InsertLink(env, n, k);
      LinkEndsBeforeNextStart(env, k);
      var n' := if k == n then n + 1 else n;
      assert s.runs[0 := Run(Start(env.batchSize, k + 1), latest)] == [Run(Start(env.batchSize, k + 1), latest)];
      assert next.table == Chain(env, n') && next.runs == [Run(Start(env.batchSize, k + 1), latest)];
      var later := RunCatchesUp(env, next, n', k + 1, m, latest);
      times := later + 1;
    }
  }

  // With m full batches up to syncDelay cycles before the latest one, a tick starts a run exactly if the digest it
  // finds as the last is not that of the m-th; when that run is over, the table holds the chain of these m.
  lemma TickCatchesUp(
      env: Env, s: Digester, n: nat, m: nat, last: Option<Digest>, latestCycleCounter: int, syncDelay: int)
    returns (times: nat)
    requires env.batchSize >= 1 && Inv(env, s, n) && s.runs == [] && LastProcessed(s, last)
    requires latestCycleCounter - syncDelay + 1 < (m + 1) * env.batchSize
    requires m > 0 ==> m * env.batchSize <= latestCycleCounter - syncDelay + 1
    ensures
      var started := StartRun(env, s, last, Tick(latestCycleCounter, syncDelay, true));
      var after := Rounds(env, started, times);
      && (started.runs != [] <==> m > 0 && (last.None? || last.value.cycleEnd < Link(env, m - 1).cycleEnd))
      && after.table == Chain(env, if n < m then m else n) && after.runs == []
  {
    var started := StartRun(env, s, last, Tick(latestCycleCounter, syncDelay, true));
    var k := StartOfTick(env, s, n, last);
    StartIsProduct(env.batchSize, m);
    StartIsProduct(env.batchSize, m + 1);
    StartNext(env.batchSize, k);
    if k < m {
      StartsGrow(env.batchSize, k + 1, m);
      LinkEndsBeforeNextStart(env, m - 1);
      assert started.runs == [Run(Start(env.batchSize, k), latestCycleCounter - syncDelay)];
      times := RunCatchesUp(env, started, n, k, m, latestCycleCounter - syncDelay);
    } else {
      StartsGrow(env.batchSize, m, k);
      if m > 0 {
        LinkEndsBeforeNextStart(env, m - 1);
      }
      times := 0;
    }
  }

  // A tick goes on at the start of a batch, behind the last digest.
  lemma StartOfTick(env: Env, s: Digester, n: nat, last: Option<Digest>) returns (k: nat)
    requires env.batchSize >= 1 && Inv(env, s, n) && LastProcessed(s, last)
    ensures k <= n && (if last.Some? then last.value.cycleEnd + 1 else 0) == Start(env.batchSize, k)
  {
    k := 0;
    if last.Some? {
      var j: nat;
      if s.last.Some? {
        j :| 0 <= j < n && last.value == Link(env, j);
      } else {
        j := ChainKeys(env, n, last.value.cycleEnd);
        ChainRows(env, n, j);
      }
      LinkEndsBeforeNextStart(env, j);
      k := j + 1;
    }
  }

  // ----- the code -----

  class TxDigester {
    const env: Env
    var table: map<int, Digest>
    var lastProcessedTxDigest: Option<Digest>

    constructor (env: Env, table: map<int, Digest>)
      ensures this.env == env && this.table == table && lastProcessedTxDigest == None
    {
      this.env, this.table, lastProcessedTxDigest := env, table, None;
    }

    // One run; fetched says for which cycles the ids can be read.
    method ProcessAndInsertTxDigests(lastCheckedCycle: int, latestCycleCounter: int, fetched: int -> bool)
      requires env.batchSize >= 1
      modifies this
      ensures (table, lastProcessedTxDigest) ==
        Process(env, old(table), old(lastProcessedTxDigest), lastCheckedCycle, latestCycleCounter, fetched)
    {
      var currentCycle := lastCheckedCycle;
      var endCycle := currentCycle + env.batchSize - 1;
      while endCycle <= latestCycleCounter
        invariant endCycle == currentCycle + env.batchSize - 1
        invariant Process(env, table, lastProcessedTxDigest, currentCycle, latestCycleCounter, fetched)
          == Process(env, old(table), old(lastProcessedTxDigest), lastCheckedCycle, latestCycleCounter, fetched)
        decreases latestCycleCounter - currentCycle
      {
        if !fetched(currentCycle) {
          return;
        }
        var txIds := env.txIds(currentCycle, endCycle);
        var prevHash := GetHash(table, currentCycle - 1);
        if prevHash.Failure? {
          return;
        }
        ghost var batch := BatchDigest(env, table, currentCycle, fetched(currentCycle));
        var txRangeHash := env.hashObj(prevHash.value, env.hashIds(txIds));
        var digest := Digest(currentCycle, endCycle, |txIds|, txRangeHash);
        assert batch == Success(digest);
        table := table[digest.cycleEnd := digest];
        currentCycle := endCycle + 1;
        endCycle := currentCycle + env.batchSize - 1;
        lastProcessedTxDigest := Some(digest);
      }
    }
  }
}
