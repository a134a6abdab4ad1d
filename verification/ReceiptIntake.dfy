/** Storing receipts from several calls at once (src/Data/Collector.ts:961-1215, 1766-1779). */
module ReceiptIntake {
  import opened Basics
  import opened Wrappers

  // An empty txId or a zero timestamp is 0; wellFormed is what validateReceiptType says.
  datatype Receipt = Receipt(txId: nat, timestamp: nat, content: nat, wellFormed: bool)

  // What has happened to the cache of processed receipts.
  datatype Entry = Accepted(receipt: Receipt) | Evicted(txIds: set<nat>)

  datatype Caches = Caches(processed: map<nat, nat>, validating: map<nat, nat>, history: seq<Entry>)

  // Where a call of storeReceiptData is suspended. Saving stands for the awaits of the account updates;
  // a call that threw keeps the mark of the transaction it had in hand.
  datatype Phase =
    | AtHead
    | Verifying(receipt: Receipt)
    | VerifyingSignatures(txId: nat, receipt: Receipt)
    | Saving
    | Flushing
    | FlushingLast
    | Done
    | Thrown(marked: Option<nat>)

  // A call: its argument, and the index in it of the first receipt whose votes cannot be sorted; how far the call
  // is; the receipts it combined, wrote to the log and inserted, and the transactions it pushed to txDataList, each
  // the one that was marked when its receipt was taken up.
  datatype Call = Call(
    receipts: seq<Receipt>,
    verifyData: bool,
    unsortable: nat,
    next: nat,
    phase: Phase,
    combined: seq<Receipt>,
    logged: seq<Receipt>,
    txData: seq<nat>,
    batches: seq<seq<Receipt>>)

  const BATCH := 100
  const MAX_CACHED := 2000

  // ----- one stretch of a call, from one await to the next -----

  predicate IsKnown(c: Caches, r: Receipt) {
    || (r.txId in c.processed && c.processed[r.txId] == r.timestamp)
    || (r.txId in c.validating && c.validating[r.txId] == r.timestamp)
  }

  // Accepts a receipt that was taken up for transaction txId; the mark deleted is that of its own transaction.
  function Commit(c: Caches, call: Call, txId: nat, r: Receipt): (Caches, Call) {
    (Caches(c.processed[r.txId := r.timestamp], c.validating - {r.txId}, c.history + [Accepted(r)]),
     call.(combined := call.combined + [r], logged := call.logged + [r], txData := call.txData + [txId],
           phase := Saving))
  }

  // From the head of the loop.
  function Scan(c: Caches, call: Call): (r: (Caches, Call))
    requires call.next <= |call.receipts|
    ensures r.1.next <= |r.1.receipts|
    decreases |call.receipts| - call.next
  {
    if call.next == |call.receipts| then
      (c, call.(
        phase := FlushingLast,
        batches := if call.combined == [] then call.batches else call.batches + [call.combined]))
    else
      var r, later := call.receipts[call.next], call.(next := call.next + 1);
      if r.txId == 0 || r.timestamp == 0 || IsKnown(c, r) then Scan(c, later)
      else if !r.wellFormed then Scan(c.(validating := c.validating - {r.txId}), later)
      else
        var noted := c.(validating := c.validating[r.txId := r.timestamp]);
        if call.verifyData then (noted, later.(phase := Verifying(r)))
        else if call.next == call.unsortable then (noted, later.(phase := Thrown(Some(r.txId))))
        else Commit(noted, later, r.txId, r)
  }

  // What the awaited promise brings: a verdict, and for the first verification possibly another receipt. A
  // rejected verification of signatures is caught, and counts as an unsuccessful one.
  datatype Verdict = Verdict(success: bool, newReceipt: Option<Receipt>)

  // From where the call is suspended.
  function Continue(c: Caches, call: Call, verdict: Verdict, active: bool): (r: (Caches, Call))
    requires call.next <= |call.receipts|
    ensures r.1.next <= |r.1.receipts|
  {
    match call.phase
    case AtHead => Scan(c, call)
    case Verifying(r) =>
      if !verdict.success then Scan(c.(validating := c.validating - {r.txId}), call)
      else
        var receipt := if verdict.newReceipt.Some? then verdict.newReceipt.value else r;
        (c, call.(phase := VerifyingSignatures(r.txId, receipt)))
    case VerifyingSignatures(txId, r) =>
      if !verdict.success then Scan(c.(validating := c.validating - {txId}), call) else Commit(c, call, txId, r)
    case Saving =>
      if |call.combined| >= BATCH then (c, call.(phase := Flushing, batches := call.batches + [call.combined]))
      else Scan(c, call)
    case Flushing => Scan(c, call.(combined := []))
    case FlushingLast => (Trim(c, active), call.(phase := Done))
    case Done => (c, call)
    case Thrown(_) => (c, call)
  }

  // The transaction a call has marked as being validated.
  function InHand(phase: Phase): Option<nat> {
    match phase
    case Verifying(r) => Some(r.txId)
    case VerifyingSignatures(txId, _) => Some(txId)
    case Thrown(marked) => marked
    case _ => None
  }

  // The awaited promise rejects, or the votes cannot be sorted after the signatures are verified: the call ends
  // with its mark in place.
  function Throw(call: Call): Call {
    if call.phase.Done? || call.phase.Thrown? then call else call.(phase := Thrown(InHand(call.phase)))
  }

  // At the end of a call, an inactive archiver empties a large cache.
  function Trim(c: Caches, active: bool): Caches {
    if active || |c.processed| <= MAX_CACHED then c
    else c.(processed := map[], history := c.history + [Evicted(c.processed.Keys)])
  }

  // The entries cleanOldReceiptsMap deletes.
  function Stale(processed: map<nat, nat>, timestamp: nat): set<nat> {
    set txId | txId in processed && processed[txId] < timestamp
  }

  function Clean(c: Caches, timestamp: nat): Caches {
    var stale := Stale(c.processed, timestamp);
    c.(processed := c.processed - stale, history := c.history + [Evicted(stale)])
  }

  // ----- all calls together -----

  datatype Store = Store(caches: Caches, calls: seq<Call>)

  datatype Event =
    | StoreReceipts(receipts: seq<Receipt>, verifyData: bool, unsortable: nat)
    | Resume(call: nat, verdict: Verdict, active: bool)
    | Reject(call: nat)
    | CleanOld(timestamp: nat)

  function NewCall(receipts: seq<Receipt>, verifyData: bool, unsortable: nat): Call {
    Call(receipts, verifyData, unsortable, 0, AtHead, [], [], [], [])
  }

  predicate InBounds(s: Store) {
    forall k :: 0 <= k < |s.calls| ==> s.calls[k].next <= |s.calls[k].receipts|
  }

  function Next(s: Store, event: Event): (after: Store)
    requires InBounds(s)
    ensures InBounds(after)
  {
    match event
    case StoreReceipts(receipts, verifyData, unsortable) =>
      if receipts == [] then s else
        var (c, call) := Scan(s.caches, NewCall(receipts, verifyData, unsortable));
        Store(c, s.calls + [call])
    case Resume(k, verdict, active) =>
      if k >= |s.calls| then s else
        var (c, call) := Continue(s.caches, s.calls[k], verdict, active);
        Store(c, s.calls[k := call])
    case Reject(k) => if k >= |s.calls| then s else Store(s.caches, s.calls[k := Throw(s.calls[k])])
    case CleanOld(timestamp) => Store(Clean(s.caches, timestamp), s.calls)
  }

  // ----- at most one acceptance between evictions -----

  // The transactions accepted and not evicted since.
  function AcceptedIn(history: seq<Entry>, k: nat): set<nat>
    requires k <= |history|
  {
    if k == 0 then {} else
      match history[k - 1]
      case Accepted(r) => AcceptedIn(history, k - 1) + {r.txId}
      case Evicted(txIds) => AcceptedIn(history, k - 1) - txIds
  }

  // No receipt is accepted while its transaction is.
  ghost predicate NeverTwice(history: seq<Entry>) {
    forall k :: 0 <= k < |history| && history[k].Accepted? ==> history[k].receipt.txId !in AcceptedIn(history, k)
  }

  ghost predicate EvictedBetween(history: seq<Entry>, i: nat, j: nat, txId: nat) {
    exists k :: i < k < j < |history| && history[k].Evicted? && txId in history[k].txIds
  }

  lemma EvictedEarlier(history: seq<Entry>, i: nat, j: nat, txId: nat)
    requires i < j < |history|
    ensures EvictedBetween(history, i, j - 1, txId) ==> EvictedBetween(history, i, j, txId)
  {
    if EvictedBetween(history, i, j - 1, txId) {
      var k :| i < k < j - 1 && history[k].Evicted? && txId in history[k].txIds;
      assert i < k < j && history[k].Evicted? && txId in history[k].txIds;
    }
  }

  lemma {:induction false} StaysAccepted(history: seq<Entry>, i: nat, j: nat)
    requires i < j < |history| && history[i].Accepted? && !EvictedBetween(history, i, j, history[i].receipt.txId)
    ensures history[i].receipt.txId in AcceptedIn(history, j)
  {
    if i + 1 < j {
      var txId := history[i].receipt.txId;
      EvictedEarlier(history, i, j, txId);
      StaysAccepted(history, i, j - 1);
      assert history[j - 1].Evicted? && txId in history[j - 1].txIds ==> EvictedBetween(history, i, j, txId);
    }
  }

  // Two acceptances of one transaction have an eviction of it in between.
  lemma TwiceOnlyAfterEviction(history: seq<Entry>, i: nat, j: nat)
    requires NeverTwice(history) && i < j < |history| && history[i].Accepted? && history[j].Accepted?
    requires history[i].receipt.txId == history[j].receipt.txId
    ensures EvictedBetween(history, i, j, history[i].receipt.txId)
  {
    if !EvictedBetween(history, i, j, history[i].receipt.txId) {
      StaysAccepted(history, i, j);
    }
  }

  // ----- where the receipts come from -----

  // The full receipts that verification may fetch in place of a received one. With newPOQReceipt off it fetches
  // none; with newPOQReceipt on it takes any that passes the type check, as it does not compare the transaction
  // of the full receipt. In between lie peers that always answer with the transaction asked for.
  datatype Fetched = NoReceipt | OwnReceipt | AnyReceipt

  // The receipts there are, and which of them are fetched as full ones.
  datatype Pool = Pool(receipts: iset<Receipt>, fetched: Fetched)

  ghost predicate Draws(event: Event, s: Store, C: Pool) {
    match event
    case StoreReceipts(receipts, _, _) => forall k :: 0 <= k < |receipts| ==> receipts[k] in C.receipts
    case Resume(k, verdict, _) =>
      k < |s.calls| && s.calls[k].phase.Verifying? && verdict.newReceipt.Some? ==>
        Replaces(verdict.newReceipt.value, s.calls[k].phase.receipt, C)
    case _ => true
  }

  ghost predicate Replaces(full: Receipt, receipt: Receipt, C: Pool) {
    && full in C.receipts && full.wellFormed && !C.fetched.NoReceipt?
    && (C.fetched.OwnReceipt? ==> full.txId == receipt.txId)
  }

  // A receipt that a call takes up when nothing is known of it.
  predicate Takeable(r: Receipt) {
    r.wellFormed && r.txId != 0 && r.timestamp != 0
  }

  // Two copies of a transaction with different timestamps, one of them well-formed. Copies without a timestamp
  // are skipped, and only matter where a well-formed one could be fetched in place of another.
  predicate Clash(x: Receipt, y: Receipt, fetched: Fetched) {
    && x.txId == y.txId != 0 && x.timestamp != 0 && x.timestamp != y.timestamp && y.wellFormed
    && (y.timestamp != 0 || (x.wellFormed && !fetched.NoReceipt?))
  }

  ghost predicate Coherent(C: Pool) {
    forall x, y :: x in C.receipts && y in C.receipts ==> !Clash(x, y, C.fetched)
  }

  ghost predicate OneTransaction(C: Pool) {
    forall x, y :: x in C.receipts && y in C.receipts && Takeable(x) && Takeable(y) ==> x.txId == y.txId
  }

  // Coherent receipts, of which no full one can be another transaction that is accepted by itself.
  ghost predicate Safe(C: Pool) {
    Coherent(C) && (C.fetched.AnyReceipt? ==> OneTransaction(C))
  }

  // What a call has in hand: a receipt that it took up, or the full one fetched for it.
  ghost predicate Taken(call: Call, C: Pool) {
    && (forall k :: 0 <= k < |call.receipts| ==> call.receipts[k] in C.receipts)
    && (call.phase.Verifying? ==> call.phase.receipt in C.receipts && Takeable(call.phase.receipt))
    && (call.phase.VerifyingSignatures? ==> TakenFor(call.phase.receipt, call.phase.txId, C))
  }

  ghost predicate TakenFor(r: Receipt, txId: nat, C: Pool) {
    && r in C.receipts && r.wellFormed
    && (exists x :: x in C.receipts && Takeable(x) && x.txId == txId)
    && (r.txId == txId || C.fetched.AnyReceipt?)
  }

  // The receipt about to be accepted is of another transaction than the one it was fetched for.
  predicate IsForeign(phase: Phase) {
    phase.VerifyingSignatures? && phase.receipt.txId != phase.txId
  }

  // ----- the caches, when the receipts are coherent -----

  ghost predicate IsStamp(C: Pool, txId: nat, timestamp: nat) {
    txId != 0 && timestamp != 0 &&
    exists y :: y in C.receipts && y.txId == txId && y.wellFormed && y.timestamp == timestamp
  }

  ghost predicate CachesOk(c: Caches, C: Pool) {
    && (forall txId :: txId in c.processed ==> IsStamp(C, txId, c.processed[txId]) && txId !in c.validating)
    && (forall txId :: txId in c.validating ==> IsStamp(C, txId, c.validating[txId]))
    && c.processed.Keys == AcceptedIn(c.history, |c.history|)
    && NeverTwice(c.history)
  }

  // The transactions being validated are exactly those in the hands of calls, each in one call's.
  ghost predicate HandsOk(s: Store) {
    && (forall k :: 0 <= k < |s.calls| && InHand(s.calls[k].phase).Some? ==>
          InHand(s.calls[k].phase).value in s.caches.validating)
    && (forall i, j :: 0 <= i < j < |s.calls| && InHand(s.calls[i].phase).Some? ==>
          InHand(s.calls[i].phase) != InHand(s.calls[j].phase))
    && (forall txId :: txId in s.caches.validating ==>
          exists k :: 0 <= k < |s.calls| && InHand(s.calls[k].phase) == Some(txId))
  }

  // The caches after a stretch that started with `before` validated, apart from what is in the call's own hands:
  // nothing else starts or stops being validated.
  ghost predicate OwnHandOnly(before: set<nat>, c: Caches, call: Call) {
    c.validating.Keys == before + (if InHand(call.phase).Some? then {InHand(call.phase).value} else {})
    && (InHand(call.phase).Some? ==> InHand(call.phase).value !in before)
  }

  ghost predicate Stamped(call: Call) {
    call.phase.VerifyingSignatures? && !IsForeign(call.phase) ==> call.phase.receipt.timestamp != 0
  }

  ghost predicate Kept(c: Caches, call: Call, C: Pool, before: set<nat>) {
    CachesOk(c, C) && OwnHandOnly(before, c, call) && Stamped(call)
  }

  lemma StampsAgree(C: Pool, r: Receipt, timestamp: nat)
    requires Coherent(C) && r in C.receipts && r.timestamp != 0 && IsStamp(C, r.txId, timestamp)
    ensures r.timestamp == timestamp
  {
    var y :| y in C.receipts && y.txId == r.txId && y.wellFormed && y.timestamp == timestamp;
    assert !Clash(r, y, C.fetched);
  }

  // A copy that is not known is of a transaction in neither cache.
  lemma UnknownIsNew(c: Caches, r: Receipt, C: Pool)
    requires Coherent(C) && CachesOk(c, C) && r in C.receipts && r.timestamp != 0 && !IsKnown(c, r)
    ensures r.txId !in c.processed && r.txId !in c.validating
  {
    if r.txId in c.processed {
      StampsAgree(C, r, c.processed[r.txId]);
    } else if r.txId in c.validating {
      StampsAgree(C, r, c.validating[r.txId]);
    }
  }

  lemma AcceptOne(c: Caches, r: Receipt, C: Pool)
    requires CachesOk(c, C) && r.txId !in c.processed && IsStamp(C, r.txId, r.timestamp)
    ensures CachesOk(
      Caches(c.processed[r.txId := r.timestamp], c.validating - {r.txId}, c.history + [Accepted(r)]), C)
  {
    HistoryGrows(c.history, Accepted(r), |c.history|);
  }

  lemma {:induction false} HistoryGrows(history: seq<Entry>, entry: Entry, k: nat)
    requires k <= |history|
    ensures AcceptedIn(history + [entry], k) == AcceptedIn(history, k)
    ensures NeverTwice(history) ==>
      forall i :: 0 <= i < k && history[i].Accepted? ==> history[i].receipt.txId !in AcceptedIn(history + [entry], i)
  {
    if k > 0 {
      HistoryGrows(history, entry, k - 1);
    }
  }

  lemma EvictSome(c: Caches, txIds: set<nat>, C: Pool)
    requires CachesOk(c, C) && txIds <= c.processed.Keys
    ensures CachesOk(c.(processed := c.processed - txIds, history := c.history + [Evicted(txIds)]), C)
  {
    HistoryGrows(c.history, Evicted(txIds), |c.history|);
  }

  lemma TrimKeeps(c: Caches, active: bool, C: Pool)
    requires CachesOk(c, C)
    ensures CachesOk(Trim(c, active), C) && Trim(c, active).validating == c.validating
  {
    EvictSome(c, c.processed.Keys, C);
    assert c.processed - c.processed.Keys == map[];
  }

  lemma CommitKeeps(c: Caches, call: Call, r: Receipt, C: Pool, before: set<nat>)
    requires CachesOk(c, C) && r.txId in c.validating && IsStamp(C, r.txId, r.timestamp)
    requires c.validating.Keys == before + {r.txId} && r.txId !in before
    ensures Kept(Commit(c, call, r.txId, r).0, Commit(c, call, r.txId, r).1, C, before)
  {
    AcceptOne(c, r, C);
  }

  lemma MarkKeeps(c: Caches, r: Receipt, C: Pool)
    requires CachesOk(c, C) && r in C.receipts && Takeable(r)
    requires r.txId !in c.processed && r.txId !in c.validating
    ensures CachesOk(c.(validating := c.validating[r.txId := r.timestamp]), C) && IsStamp(C, r.txId, r.timestamp)
  {
  }

  // A stretch from the head of the loop, by a call with nothing in hand.
  lemma {:induction false} ScanKeeps(c: Caches, call: Call, C: Pool)
    requires Coherent(C) && call.next <= |call.receipts| && CachesOk(c, C)
    requires forall k :: 0 <= k < |call.receipts| ==> call.receipts[k] in C.receipts
    ensures Kept(Scan(c, call).0, Scan(c, call).1, C, c.validating.Keys)
    decreases |call.receipts| - call.next
  {
    if call.next < |call.receipts| {
      var r, later := call.receipts[call.next], call.(next := call.next + 1);
      if r.txId == 0 || r.timestamp == 0 || IsKnown(c, r) {
        ScanKeeps(c, later, C);
      } else {
        UnknownIsNew(c, r, C);
        if !r.wellFormed {
          assert c.validating - {r.txId} == c.validating;
          ScanKeeps(c, later, C);
        } else {
          MarkKeeps(c, r, C);
          if !call.verifyData {
            CommitKeeps(c.(validating := c.validating[r.txId := r.timestamp]), later, r, C, c.validating.Keys);
          }
        }
      }
    }
  }

  // A call that gives up the receipt in its hand and goes on.
  lemma GiveUpKeeps(c: Caches, call: Call, txId: nat, C: Pool, before: set<nat>)
    requires Coherent(C) && call.next <= |call.receipts| && Kept(c, call, C, before) && Taken(call, C)
    requires InHand(call.phase) == Some(txId)
    ensures
      var (c', call') := Scan(c.(validating := c.validating - {txId}), call);
      Kept(c', call', C, before)
  {
    var released := c.(validating := c.validating - {txId});
    assert released.validating.Keys == before;
    ScanKeeps(released, call, C);
  }

  // A call with empty hands that goes on from the head of the loop.
  lemma GoOnKeeps(c: Caches, call: Call, C: Pool, before: set<nat>)
    requires Coherent(C) && call.next <= |call.receipts| && Kept(c, call, C, before) && Taken(call, C)
    requires InHand(call.phase).None?
    ensures Kept(Scan(c, call).0, Scan(c, call).1, C, before)
  {
    assert c.validating.Keys == before;
    ScanKeeps(c, call, C);
  }

  // A verified receipt, or a full one of its transaction, has the timestamp that is marked.
  lemma VerifiedKeeps(c: Caches, call: Call, newReceipt: Option<Receipt>, C: Pool, before: set<nat>)
    requires Coherent(C) && Kept(c, call, C, before) && Taken(call, C) && call.phase.Verifying?
    requires newReceipt.Some? ==> Replaces(newReceipt.value, call.phase.receipt, C)
    ensures
      var r := call.phase.receipt;
      Kept(c, call.(phase := VerifyingSignatures(r.txId, if newReceipt.Some? then newReceipt.value else r)), C, before)
  {
    assert newReceipt.Some? ==> !Clash(call.phase.receipt, newReceipt.value, C.fetched);
  }

  lemma SignedKeeps(c: Caches, call: Call, C: Pool, before: set<nat>)
    requires Kept(c, call, C, before) && Taken(call, C) && call.phase.VerifyingSignatures? && !IsForeign(call.phase)
    ensures
      var (c', call') := Commit(c, call, call.phase.txId, call.phase.receipt);
      Kept(c', call', C, before)
  {
    var r := call.phase.receipt;
    assert r in C.receipts && IsStamp(C, r.txId, r.timestamp);
    CommitKeeps(c, call, r, C, before);
  }

  // A stretch of a suspended call that does not accept a foreign receipt.
  lemma ContinueKeeps(c: Caches, call: Call, verdict: Verdict, active: bool, C: Pool, before: set<nat>)
    requires Coherent(C) && call.next <= |call.receipts| && Kept(c, call, C, before) && Taken(call, C)
    requires call.phase.Verifying? && verdict.newReceipt.Some? ==>
      Replaces(verdict.newReceipt.value, call.phase.receipt, C)
    requires !(IsForeign(call.phase) && verdict.success)
    ensures
      var (c', call') := Continue(c, call, verdict, active);
      Kept(c', call', C, before)
  {
    match call.phase
    case AtHead => GoOnKeeps(c, call, C, before);
    case Verifying(r) =>
      if verdict.success {
        VerifiedKeeps(c, call, verdict.newReceipt, C, before);
      } else {
        GiveUpKeeps(c, call, r.txId, C, before);
      }
    case VerifyingSignatures(txId, r) =>
      if verdict.success {
        SignedKeeps(c, call, C, before);
      } else {
        GiveUpKeeps(c, call, txId, C, before);
      }
    case Saving => SavingKeeps(c, call, verdict, active, C, before);
    case Flushing => GoOnKeeps(c, call.(combined := []), C, before);
    case FlushingLast => FinishKeeps(c, call, verdict, active, C, before);
    case Done =>
    case Thrown(_) =>
  }

  lemma SavingKeeps(c: Caches, call: Call, verdict: Verdict, active: bool, C: Pool, before: set<nat>)
    requires Coherent(C) && call.next <= |call.receipts| && Kept(c, call, C, before)
    requires Taken(call, C) && call.phase.Saving?
    ensures Kept(Continue(c, call, verdict, active).0, Continue(c, call, verdict, active).1, C, before)
  {
    if |call.combined| < BATCH {
      GoOnKeeps(c, call, C, before);
    }
  }

  lemma FinishKeeps(c: Caches, call: Call, verdict: Verdict, active: bool, C: Pool, before: set<nat>)
    requires call.next <= |call.receipts| && Kept(c, call, C, before) && call.phase.FlushingLast?
    ensures Kept(Continue(c, call, verdict, active).0, Continue(c, call, verdict, active).1, C, before)
  {
    TrimKeeps(c, active, C);
    assert Continue(c, call, verdict, active) == (Trim(c, active), call.(phase := Done));
  }

  // ----- the batches of one call -----

  function Concat(batches: seq<seq<Receipt>>): seq<Receipt> {
    if batches == [] then [] else Concat(batches[..|batches| - 1]) + batches[|batches| - 1]
  }

  // What a call combined or inserted is what it logged, in order; batches are of 100, only the last can be shorter.
  ghost predicate CallOk(call: Call) {
    call.next <= |call.receipts| && (call.phase.Thrown? || BatchesOk(call))
  }

  ghost predicate BatchesOk(call: Call) {
    && (AtEnd(call.phase) ==> call.next == |call.receipts|)
    && call.logged == Concat(call.batches) + (if Inserting(call.phase) then [] else call.combined)
    && (forall k :: 0 <= k < |call.batches| && (k < |call.batches| - 1 || !AtEnd(call.phase)) ==>
          |call.batches[k]| == BATCH)
    && (forall k :: 0 <= k < |call.batches| ==> 0 < |call.batches[k]| <= BATCH)
    && (call.phase.Saving? ==> |call.combined| <= BATCH)
    && (!call.phase.Saving? && !Inserting(call.phase) ==> |call.combined| < BATCH)
  }

  predicate Inserting(phase: Phase) { phase.Flushing? || AtEnd(phase) }

  predicate AtEnd(phase: Phase) { phase.FlushingLast? || phase.Done? }

  lemma InsertBatch(call: Call, batch: seq<Receipt>)
    ensures Concat(call.batches + [batch]) == Concat(call.batches) + batch
  {
    assert (call.batches + [batch])[..|call.batches|] == call.batches;
  }

  lemma {:induction false} ScanKeepsCall(c: Caches, call: Call)
    requires CallOk(call) && BatchesOk(call) && !Inserting(call.phase) && |call.combined| < BATCH
    ensures CallOk(Scan(c, call).1)
    decreases |call.receipts| - call.next
  {
    if call.next == |call.receipts| {
      InsertBatch(call, call.combined);
    } else {
      var r, later := call.receipts[call.next], call.(next := call.next + 1);
      if r.txId == 0 || r.timestamp == 0 || IsKnown(c, r) {
        ScanKeepsCall(c, later);
      } else if !r.wellFormed {
        ScanKeepsCall(c.(validating := c.validating - {r.txId}), later);
      } else if !call.verifyData {
        CommitKeepsCall(c.(validating := c.validating[r.txId := r.timestamp]), later, r.txId, r);
      }
    }
  }

  lemma CommitKeepsCall(c: Caches, call: Call, txId: nat, r: Receipt)
    requires CallOk(call) && BatchesOk(call) && !Inserting(call.phase) && |call.combined| < BATCH
    ensures CallOk(Commit(c, call, txId, r).1)
  {
    var after := Commit(c, call, txId, r).1;
    assert after.logged == Concat(call.batches) + (call.combined + [r]);
  }

  lemma FlushKeepsCall(call: Call)
    requires CallOk(call) && call.phase.Saving? && |call.combined| >= BATCH
    ensures CallOk(call.(phase := Flushing, batches := call.batches + [call.combined]))
  {
    InsertBatch(call, call.combined);
  }

  lemma FinishKeepsCall(call: Call)
    requires CallOk(call) && call.phase.FlushingLast?
    ensures CallOk(call.(phase := Done))
  {
  }

  lemma ContinueKeepsCall(c: Caches, call: Call, verdict: Verdict, active: bool)
    requires CallOk(call)
    ensures CallOk(Continue(c, call, verdict, active).1)
  {
    match call.phase
    case AtHead => ScanKeepsCall(c, call);
    case Verifying(r) =>
      if !verdict.success {
        ScanKeepsCall(c.(validating := c.validating - {r.txId}), call);
      }
    case VerifyingSignatures(txId, r) =>
      if !verdict.success {
        ScanKeepsCall(c.(validating := c.validating - {txId}), call);
      } else {
        CommitKeepsCall(c, call, txId, r);
      }
    case Saving =>
      if |call.combined| >= BATCH {
        FlushKeepsCall(call);
      } else {
        ScanKeepsCall(c, call);
      }
    case Flushing => ScanFlushed(c, call);
    case FlushingLast => FinishKeepsCall(call);
    case Done =>
    case Thrown(_) =>
  }

  lemma ScanFlushed(c: Caches, call: Call)
    requires CallOk(call) && call.phase.Flushing?
    ensures CallOk(Scan(c, call.(combined := [])).1)
  {
    var emptied := call.(combined := [], phase := AtHead);
    ScanKeepsCall(c, emptied);
    ScanIgnoresPhase(c, call.(combined := []), AtHead);
  }

  lemma {:induction false} ScanIgnoresPhase(c: Caches, call: Call, phase: Phase)
    requires call.next <= |call.receipts|
    ensures Scan(c, call) == Scan(c, call.(phase := phase))
    decreases |call.receipts| - call.next
  {
    if call.next < |call.receipts| {
      var r, later := call.receipts[call.next], call.(next := call.next + 1);
      ScanIgnoresPhase(c, later, phase);
      ScanIgnoresPhase(c.(validating := c.validating - {r.txId}), later, phase);
    }
  }

  // ----- the order of what one call accepts -----

  function Ids(receipts: seq<Receipt>): (ids: seq<nat>)
    ensures |ids| == |receipts|
  {
    seq(|receipts|, k requires 0 <= k < |receipts| => receipts[k].txId)
  }

  // a is a subsequence of b.
  predicate Within(a: seq<nat>, b: seq<nat>) {
    a == [] ||
    (b != [] && ((a[|a| - 1] == b[|b| - 1] && Within(a[..|a| - 1], b[..|b| - 1])) || Within(a, b[..|b| - 1])))
  }

  lemma WithinLonger(a: seq<nat>, b: seq<nat>, x: nat)
    requires Within(a, b)
    ensures Within(a, b + [x]) && Within(a + [x], b + [x])
  {
    assert (b + [x])[..|b|] == b && (a + [x])[..|a|] == a;
  }

  lemma {:induction false} WithinWithoutLast(a: seq<nat>, x: nat, b: seq<nat>)
    requires Within(a + [x], b)
    ensures Within(a, b)
    decreases |b|
  {
    assert (a + [x])[..|a|] == a;
    var front, last := b[..|b| - 1], b[|b| - 1];
    assert b == front + [last];
    if Within(a + [x], front) {
      WithinWithoutLast(a, x, front);
    }
    WithinLonger(a, front, last);
  }

  function Held(phase: Phase): seq<nat> {
    if InHand(phase).Some? then [InHand(phase).value] else []
  }

  // The given transactions come in the order of the call's argument, as far as it was passed.
  ghost predicate Passed(call: Call, ids: seq<nat>) {
    call.next <= |call.receipts| && Within(ids, Ids(call.receipts[..call.next]))
  }

  // Those pushed and the one in hand do.
  ghost predicate InOrder(call: Call) {
    |call.txData| == |call.logged| && Passed(call, call.txData + Held(call.phase))
  }

  // Between two receipts.
  ghost predicate Ready(call: Call) {
    |call.txData| == |call.logged| && Passed(call, call.txData)
  }

  lemma NextId(call: Call)
    requires call.next < |call.receipts|
    ensures Ids(call.receipts[..call.next + 1]) == Ids(call.receipts[..call.next]) + [call.receipts[call.next].txId]
  {
  }

  lemma NothingHeld(call: Call)
    requires InHand(call.phase).None?
    ensures InOrder(call) <==> Ready(call)
  {
    assert call.txData + [] == call.txData;
  }

  // The next receipt of the argument may be passed over or pushed.
  lemma NextPassed(call: Call)
    requires call.next < |call.receipts| && Ready(call)
    ensures
      var later := call.(next := call.next + 1);
      Ready(later) && Passed(later, call.txData + [call.receipts[call.next].txId])
  {
    NextId(call);
    WithinLonger(call.txData, Ids(call.receipts[..call.next]), call.receipts[call.next].txId);
  }

  lemma CommitKeepsOrder(c: Caches, call: Call, txId: nat, r: Receipt)
    requires |call.txData| == |call.logged| && Passed(call, call.txData + [txId])
    ensures InOrder(Commit(c, call, txId, r).1)
  {
    NothingHeld(Commit(c, call, txId, r).1);
  }

  lemma {:induction false} ScanKeepsOrder(c: Caches, call: Call)
    requires Ready(call)
    ensures InOrder(Scan(c, call).1)
    decreases |call.receipts| - call.next
  {
    if call.next == |call.receipts| {
      NothingHeld(Scan(c, call).1);
    } else {
      var r, later := call.receipts[call.next], call.(next := call.next + 1);
      NextPassed(call);
      if r.txId == 0 || r.timestamp == 0 || IsKnown(c, r) {
        ScanKeepsOrder(c, later);
      } else if !r.wellFormed {
        ScanKeepsOrder(c.(validating := c.validating - {r.txId}), later);
      } else if !call.verifyData {
        CommitKeepsOrder(c.(validating := c.validating[r.txId := r.timestamp]), later, r.txId, r);
      }
    }
  }

  // A call that gives up what it has in hand is between two receipts.
  lemma GiveUpKeepsOrder(c: Caches, call: Call, txId: nat)
    requires InOrder(call) && InHand(call.phase) == Some(txId)
    ensures InOrder(Scan(c, call).1)
  {
    WithinWithoutLast(call.txData, txId, Ids(call.receipts[..call.next]));
    ScanKeepsOrder(c, call);
  }

  lemma GoOnKeepsOrder(c: Caches, call: Call)
    requires InOrder(call) && InHand(call.phase).None?
    ensures InOrder(Scan(c, call).1)
  {
    NothingHeld(call);
    ScanKeepsOrder(c, call);
  }

  lemma ContinueKeepsOrder(c: Caches, call: Call, verdict: Verdict, active: bool)
    requires InOrder(call)
    ensures InOrder(Continue(c, call, verdict, active).1)
  {
    match call.phase
    case AtHead => GoOnKeepsOrder(c, call);
    case Verifying(r) =>
      if !verdict.success {
        GiveUpKeepsOrder(c.(validating := c.validating - {r.txId}), call, r.txId);
      }
    case VerifyingSignatures(txId, r) =>
      if verdict.success {
        CommitKeepsOrder(c, call, txId, r);
      } else {
        GiveUpKeepsOrder(c.(validating := c.validating - {txId}), call, txId);
      }
    case Saving => GoOnKeepsOrder(c, call);
    case Flushing => GoOnKeepsOrder(c, call.(combined := []));
    case FlushingLast =>
    case Done =>
    case Thrown(_) =>
  }

  // ----- the transactions pushed and those accepted -----

  // Each accepted receipt is of the transaction it was taken up for.
  ghost predicate Own(call: Call) {
    call.txData == Ids(call.logged)
  }

  lemma CommitKeepsOwn(c: Caches, call: Call, r: Receipt)
    requires Own(call)
    ensures Own(Commit(c, call, r.txId, r).1)
  {
  }

  lemma {:induction false} ScanKeepsOwn(c: Caches, call: Call)
    requires call.next <= |call.receipts| && Own(call)
    ensures Own(Scan(c, call).1)
    decreases |call.receipts| - call.next
  {
    if call.next < |call.receipts| {
      var r, later := call.receipts[call.next], call.(next := call.next + 1);
      if r.txId == 0 || r.timestamp == 0 || IsKnown(c, r) {
        ScanKeepsOwn(c, later);
      } else if !r.wellFormed {
        ScanKeepsOwn(c.(validating := c.validating - {r.txId}), later);
      } else if !call.verifyData {
        CommitKeepsOwn(c.(validating := c.validating[r.txId := r.timestamp]), later, r);
      }
    }
  }

  lemma ContinueKeepsOwn(c: Caches, call: Call, verdict: Verdict, active: bool)
    requires call.next <= |call.receipts| && Own(call) && !(IsForeign(call.phase) && verdict.success)
    ensures Own(Continue(c, call, verdict, active).1)
  {
    match call.phase
    case Verifying(r) => ScanKeepsOwn(c.(validating := c.validating - {r.txId}), call);
    case VerifyingSignatures(txId, r) =>
      if verdict.success {
        CommitKeepsOwn(c, call, r);
      } else {
        ScanKeepsOwn(c.(validating := c.validating - {txId}), call);
      }
    case Flushing => ScanKeepsOwn(c, call.(combined := []));
    case _ => ScanKeepsOwn(c, call);
  }

  // ----- every call, whatever the receipts -----

  ghost predicate CallInv(call: Call, C: Pool) {
    CallOk(call) && Taken(call, C) && InOrder(call) && (C.fetched.AnyReceipt? || Own(call))
  }

  ghost predicate CallsInv(s: Store, C: Pool) {
    forall k :: 0 <= k < |s.calls| ==> CallInv(s.calls[k], C)
  }

  lemma {:induction false} ScanTakes(c: Caches, call: Call, C: Pool)
    requires call.next <= |call.receipts| && forall k :: 0 <= k < |call.receipts| ==> call.receipts[k] in C.receipts
    ensures Taken(Scan(c, call).1, C)
    decreases |call.receipts| - call.next
  {
    if call.next < |call.receipts| {
      var r, later := call.receipts[call.next], call.(next := call.next + 1);
      if r.txId == 0 || r.timestamp == 0 || IsKnown(c, r) {
        ScanTakes(c, later, C);
      } else if !r.wellFormed {
        ScanTakes(c.(validating := c.validating - {r.txId}), later, C);
      }
    }
  }

  lemma ContinueTakes(c: Caches, call: Call, verdict: Verdict, active: bool, C: Pool)
    requires call.next <= |call.receipts| && Taken(call, C)
    requires call.phase.Verifying? && verdict.newReceipt.Some? ==>
      Replaces(verdict.newReceipt.value, call.phase.receipt, C)
    ensures Taken(Continue(c, call, verdict, active).1, C)
  {
    match call.phase
    case Verifying(r) => ScanTakes(c.(validating := c.validating - {r.txId}), call, C);
    case VerifyingSignatures(txId, r) => ScanTakes(c.(validating := c.validating - {txId}), call, C);
    case Flushing => ScanTakes(c, call.(combined := []), C);
    case _ => ScanTakes(c, call, C);
  }

  lemma ThrowKeepsCall(call: Call, C: Pool)
    requires CallInv(call, C)
    ensures CallInv(Throw(call), C)
  {
    var thrown := Throw(call);
    assert Held(thrown.phase) == Held(call.phase);
    assert Taken(thrown, C) && InOrder(thrown);
  }

  lemma NextKeepsCalls(s: Store, event: Event, C: Pool)
    requires InBounds(s) && CallsInv(s, C) && Draws(event, s, C)
    ensures CallsInv(Next(s, event), C)
  {
    match event
    case StoreReceipts(receipts, verifyData, unsortable) =>
      var started := NewCall(receipts, verifyData, unsortable);
      ScanTakes(s.caches, started, C);
      ScanKeepsCall(s.caches, started);
      ScanKeepsOrder(s.caches, started);
      ScanKeepsOwn(s.caches, started);
    case Resume(k, verdict, active) =>
      if k < |s.calls| {
        assert CallInv(s.calls[k], C);
        ContinueTakes(s.caches, s.calls[k], verdict, active, C);
        ContinueKeepsCall(s.caches, s.calls[k], verdict, active);
        ContinueKeepsOrder(s.caches, s.calls[k], verdict, active);
        if !C.fetched.AnyReceipt? {
          ContinueKeepsOwn(s.caches, s.calls[k], verdict, active);
        }
      }
    case Reject(k) =>
      if k < |s.calls| {
        ThrowKeepsCall(s.calls[k], C);
      }
    case CleanOld(_) =>
  }

  // ----- the caches and all calls -----

  ghost predicate Inv(s: Store, C: Pool) {
    && CachesOk(s.caches, C) && HandsOk(s)
    && forall k :: 0 <= k < |s.calls| ==> Stamped(s.calls[k]) && Own(s.calls[k])
  }

  // The transactions in the hands of the other calls.
  ghost function OtherHands(s: Store, k: nat): set<nat> {
    set i | 0 <= i < |s.calls| && i != k && InHand(s.calls[i].phase).Some? :: InHand(s.calls[i].phase).value
  }

  lemma ValidatedByOthers(s: Store, k: nat)
    requires HandsOk(s) && k <= |s.calls|
    ensures k < |s.calls| ==> OwnHandOnly(OtherHands(s, k), s.caches, s.calls[k])
    ensures k == |s.calls| ==> s.caches.validating.Keys == OtherHands(s, k)
  {
    forall txId | txId in s.caches.validating
      ensures txId in OtherHands(s, k) || (k < |s.calls| && InHand(s.calls[k].phase) == Some(txId))
    {
      var i :| 0 <= i < |s.calls| && InHand(s.calls[i].phase) == Some(txId);
      assert i != k ==> txId in OtherHands(s, k);
    }
  }

  lemma HandsAfter(s: Store, k: nat, c: Caches, call: Call)
    requires HandsOk(s) && k <= |s.calls| && OwnHandOnly(OtherHands(s, k), c, call)
    ensures HandsOk(Store(c, if k == |s.calls| then s.calls + [call] else s.calls[k := call]))
  {
    var calls := if k == |s.calls| then s.calls + [call] else s.calls[k := call];
    forall txId | txId in c.validating ensures exists i :: 0 <= i < |calls| && InHand(calls[i].phase) == Some(txId) {
      if InHand(call.phase) == Some(txId) {
        assert InHand(calls[k].phase) == Some(txId);
      } else {
        var i :| 0 <= i < |s.calls| && i != k && InHand(s.calls[i].phase) == Some(txId);
        assert InHand(calls[i].phase) == Some(txId);
      }
    }
    forall i | 0 <= i < |calls| && i != k && InHand(calls[i].phase).Some?
      ensures InHand(calls[i].phase).value in c.validating && InHand(calls[i].phase) != InHand(call.phase)
    {
      assert InHand(s.calls[i].phase).value in OtherHands(s, k);
    }
  }

  lemma StoreKeepsInv(s: Store, receipts: seq<Receipt>, verifyData: bool, unsortable: nat, C: Pool)
    requires InBounds(s) && Coherent(C) && Inv(s, C) && Draws(StoreReceipts(receipts, verifyData, unsortable), s, C)
    ensures Inv(Next(s, StoreReceipts(receipts, verifyData, unsortable)), C)
  {
    var started := NewCall(receipts, verifyData, unsortable);
    ValidatedByOthers(s, |s.calls|);
    ScanKeeps(s.caches, started, C);
    ScanKeepsOwn(s.caches, started);
    HandsAfter(s, |s.calls|, Scan(s.caches, started).0, Scan(s.caches, started).1);
  }

  lemma ResumeKeepsInv(s: Store, k: nat, verdict: Verdict, active: bool, C: Pool)
    requires InBounds(s) && Coherent(C) && Inv(s, C) && CallsInv(s, C)
    requires Draws(Resume(k, verdict, active), s, C) && k < |s.calls|
    requires !AcceptsForeign(s, Resume(k, verdict, active))
    ensures Inv(Next(s, Resume(k, verdict, active)), C)
  {
    assert CallInv(s.calls[k], C);
    ValidatedByOthers(s, k);
    ContinueKeeps(s.caches, s.calls[k], verdict, active, C, OtherHands(s, k));
    ContinueKeepsOwn(s.caches, s.calls[k], verdict, active);
    var (c, call) := Continue(s.caches, s.calls[k], verdict, active);
    HandsAfter(s, k, c, call);
  }

  lemma RejectKeepsInv(s: Store, k: nat, C: Pool)
    requires InBounds(s) && Inv(s, C) && k < |s.calls|
    ensures Inv(Next(s, Reject(k)), C)
  {
    ValidatedByOthers(s, k);
    HandsAfter(s, k, s.caches, Throw(s.calls[k]));
  }

  predicate AcceptsForeign(s: Store, event: Event) {
    event.Resume? && event.call < |s.calls| && IsForeign(s.calls[event.call].phase) && event.verdict.success
  }

  // Every event keeps the invariant, unless it accepts a foreign receipt.
  lemma NextKeepsInv(s: Store, event: Event, C: Pool)
    requires InBounds(s) && Coherent(C) && Inv(s, C) && CallsInv(s, C) && Draws(event, s, C)
    requires !AcceptsForeign(s, event)
    ensures Inv(Next(s, event), C)
  {
    match event
    case StoreReceipts(receipts, verifyData, unsortable) => StoreKeepsInv(s, receipts, verifyData, unsortable, C);
    case Resume(k, verdict, active) =>
      if k < |s.calls| {
        ResumeKeepsInv(s, k, verdict, active, C);
      }
    case Reject(k) =>
      if k < |s.calls| {
        RejectKeepsInv(s, k, C);
      }
    case CleanOld(timestamp) =>
      EvictSome(s.caches, Stale(s.caches.processed, timestamp), C);
  }

  // ----- after a foreign receipt was accepted -----

  // A receipt of another transaction was accepted in place of one of this.
  ghost predicate HasForeign(call: Call, txId: nat) {
    exists j :: 0 <= j < |call.txData| && j < |call.logged| && call.txData[j] == txId && call.logged[j].txId != txId
  }

  lemma OwnHasNoForeign(call: Call, txId: nat)
    requires Own(call)
    ensures !HasForeign(call, txId)
  {
  }

  // The one transaction that receipts can be taken up for stays marked, so that none is taken up any more.
  ghost predicate StuckAt(s: Store, txId: nat, C: Pool) {
    && s.caches.validating.Keys == {txId} && IsStamp(C, txId, s.caches.validating[txId])
    && NeverTwice(s.caches.history)
    && (forall k :: 0 <= k < |s.calls| ==> InHand(s.calls[k].phase).None?)
    && (exists k :: 0 <= k < |s.calls| && HasForeign(s.calls[k], txId))
    && (forall k, other :: 0 <= k < |s.calls| && HasForeign(s.calls[k], other) ==> other == txId)
  }

  lemma EvictKeepsOnce(history: seq<Entry>, txIds: set<nat>)
    requires NeverTwice(history)
    ensures NeverTwice(history + [Evicted(txIds)])
  {
    HistoryGrows(history, Evicted(txIds), |history|);
  }

  lemma {:induction false} ScanSkips(c: Caches, call: Call, txId: nat, C: Pool)
    requires Coherent(C) && OneTransaction(C) && call.next <= |call.receipts|
    requires forall k :: 0 <= k < |call.receipts| ==> call.receipts[k] in C.receipts
    requires c.validating.Keys == {txId} && IsStamp(C, txId, c.validating[txId])
    ensures
      var (c', call') := Scan(c, call);
      c' == c && call'.phase.FlushingLast? && call'.logged == call.logged && call'.txData == call.txData
    decreases |call.receipts| - call.next
  {
    if call.next < |call.receipts| {
      var r, later := call.receipts[call.next], call.(next := call.next + 1);
      if r.txId == txId && r.timestamp != 0 {
        StampsAgree(C, r, c.validating[txId]);
      } else if !r.wellFormed {
        assert c.validating - {r.txId} == c.validating || r.timestamp == 0;
      } else {
        assert !Takeable(r);
      }
      ScanSkips(c, later, txId, C);
    }
  }

  // A stretch of a call with empty hands while that transaction stays marked.
  lemma ContinueSkips(c: Caches, call: Call, verdict: Verdict, active: bool, txId: nat, C: Pool)
    requires Coherent(C) && OneTransaction(C) && Taken(call, C) && call.next <= |call.receipts|
    requires c.validating.Keys == {txId} && IsStamp(C, txId, c.validating[txId])
    requires NeverTwice(c.history) && InHand(call.phase).None?
    ensures
      var (c', call') := Continue(c, call, verdict, active);
      && c'.validating == c.validating && NeverTwice(c'.history) && InHand(call'.phase).None?
      && call'.logged == call.logged && call'.txData == call.txData
  {
    match call.phase
    case AtHead => ScanSkips(c, call, txId, C);
    case Saving => ScanSkips(c, call, txId, C);
    case Flushing => ScanSkips(c, call.(combined := []), txId, C);
    case FlushingLast => EvictKeepsOnce(c.history, c.processed.Keys);
    case Done =>
    case Thrown(_) =>
  }

  lemma StuckAfter(s: Store, k: nat, c: Caches, call: Call, txId: nat, C: Pool)
    requires StuckAt(s, txId, C) && k <= |s.calls|
    requires c.validating == s.caches.validating && NeverTwice(c.history) && InHand(call.phase).None?
    requires if k < |s.calls| then call.logged == s.calls[k].logged && call.txData == s.calls[k].txData
      else call.logged == [] && call.txData == []
    ensures StuckAt(Store(c, if k == |s.calls| then s.calls + [call] else s.calls[k := call]), txId, C)
  {
    var calls := if k == |s.calls| then s.calls + [call] else s.calls[k := call];
    var i :| 0 <= i < |s.calls| && HasForeign(s.calls[i], txId);
    assert HasForeign(calls[i], txId);
    forall i, other | 0 <= i < |calls| && HasForeign(calls[i], other) ensures other == txId {
      assert i < |s.calls| && HasForeign(s.calls[i], other);
    }
  }

  lemma StoreStaysStuck(s: Store, receipts: seq<Receipt>, verifyData: bool, unsortable: nat, txId: nat, C: Pool)
    requires InBounds(s) && Coherent(C) && OneTransaction(C) && receipts != [] && StuckAt(s, txId, C)
    requires Draws(StoreReceipts(receipts, verifyData, unsortable), s, C)
    ensures StuckAt(Next(s, StoreReceipts(receipts, verifyData, unsortable)), txId, C)
  {
    var (c, call) := Scan(s.caches, NewCall(receipts, verifyData, unsortable));
    ScanSkips(s.caches, NewCall(receipts, verifyData, unsortable), txId, C);
    StuckAfter(s, |s.calls|, c, call, txId, C);
  }

  lemma ResumeStaysStuck(s: Store, k: nat, verdict: Verdict, active: bool, txId: nat, C: Pool)
    requires InBounds(s) && Coherent(C) && OneTransaction(C) && CallsInv(s, C) && StuckAt(s, txId, C) && k < |s.calls|
    ensures StuckAt(Next(s, Resume(k, verdict, active)), txId, C)
  {
    assert CallInv(s.calls[k], C);
    var (c, call) := Continue(s.caches, s.calls[k], verdict, active);
    ContinueSkips(s.caches, s.calls[k], verdict, active, txId, C);
    StuckAfter(s, k, c, call, txId, C);
  }

  lemma RejectStaysStuck(s: Store, k: nat, txId: nat, C: Pool)
    requires InBounds(s) && StuckAt(s, txId, C) && k < |s.calls|
    ensures StuckAt(Next(s, Reject(k)), txId, C)
  {
    StuckAfter(s, k, s.caches, Throw(s.calls[k]), txId, C);
  }

  lemma NextStaysStuck(s: Store, event: Event, txId: nat, C: Pool)
    requires InBounds(s) && Coherent(C) && OneTransaction(C) && CallsInv(s, C) && Draws(event, s, C)
    requires StuckAt(s, txId, C)
    ensures StuckAt(Next(s, event), txId, C)
  {
    match event
    case StoreReceipts(receipts, verifyData, unsortable) =>
      if receipts != [] {
        StoreStaysStuck(s, receipts, verifyData, unsortable, txId, C);
      }
    case Resume(k, verdict, active) =>
      if k < |s.calls| {
        ResumeStaysStuck(s, k, verdict, active, txId, C);
      }
    case Reject(k) =>
      if k < |s.calls| {
        RejectStaysStuck(s, k, txId, C);
      }
    case CleanOld(timestamp) => EvictKeepsOnce(s.caches.history, Stale(s.caches.processed, timestamp));
  }

  // While a receipt is in hand, the caches know its transaction only.
  lemma OnlyInHand(s: Store, k: nat, C: Pool)
    requires OneTransaction(C) && Inv(s, C) && CallsInv(s, C) && k < |s.calls| && s.calls[k].phase.VerifyingSignatures?
    ensures
      var txId := s.calls[k].phase.txId;
      && s.caches.validating.Keys == {txId} && s.caches.processed.Keys == {}
      && forall i :: 0 <= i < |s.calls| && i != k ==> InHand(s.calls[i].phase).None?
  {
    var txId := s.calls[k].phase.txId;
    assert CallInv(s.calls[k], C) && InHand(s.calls[k].phase) == Some(txId);
    forall other, timestamp | IsStamp(C, other, timestamp) ensures other == txId {
    }
  }

  // Accepting a receipt of another transaction for the only one that is marked.
  lemma ForeignCommit(c: Caches, call: Call, txId: nat, r: Receipt)
    requires r.txId != txId && Own(call) && c.validating.Keys == {txId} && c.processed.Keys == {}
    requires c.processed.Keys == AcceptedIn(c.history, |c.history|) && NeverTwice(c.history)
    ensures
      var (c', call') := Commit(c, call, txId, r);
      && c'.validating == c.validating && NeverTwice(c'.history)
      && HasForeign(call', txId) && forall other :: HasForeign(call', other) ==> other == txId
  {
    HistoryGrows(c.history, Accepted(r), |c.history|);
    assert c.validating - {r.txId} == c.validating;
    var call' := Commit(c, call, txId, r).1;
    assert call'.txData[|call.txData|] == txId && call'.logged[|call.logged|] == r;
  }

  lemma ForeignSticks(s: Store, k: nat, verdict: Verdict, active: bool, C: Pool)
    requires InBounds(s) && OneTransaction(C) && Inv(s, C) && CallsInv(s, C)
    requires AcceptsForeign(s, Resume(k, verdict, active))
    ensures StuckAt(Next(s, Resume(k, verdict, active)), s.calls[k].phase.txId, C)
  {
    var after := Next(s, Resume(k, verdict, active));
    var txId, r := s.calls[k].phase.txId, s.calls[k].phase.receipt;
    OnlyInHand(s, k, C);
    ForeignCommit(s.caches, s.calls[k], txId, r);
    assert HasForeign(after.calls[k], txId);
    forall i, other | 0 <= i < |after.calls| && HasForeign(after.calls[i], other) ensures other == txId {
      if i != k {
        OwnHasNoForeign(s.calls[i], other);
      }
    }
  }

  // From safe receipts, every state satisfies the invariant or is stuck.
  ghost predicate Fine(s: Store, C: Pool) {
    Inv(s, C) || (C.fetched.AnyReceipt? && exists txId :: StuckAt(s, txId, C))
  }

  lemma NextKeepsFine(s: Store, event: Event, C: Pool)
    requires InBounds(s) && Safe(C) && Fine(s, C) && CallsInv(s, C) && Draws(event, s, C)
    ensures Fine(Next(s, event), C)
  {
    if Inv(s, C) {
      if AcceptsForeign(s, event) {
        assert CallInv(s.calls[event.call], C);
        ForeignSticks(s, event.call, event.verdict, event.active, C);
      } else {
        NextKeepsInv(s, event, C);
      }
    } else {
      var txId :| StuckAt(s, txId, C);
      NextStaysStuck(s, event, txId, C);
    }
  }

  // ----- the marks, whatever the receipts -----

  function Hand(phase: Phase): set<nat> {
    if InHand(phase).Some? then {InHand(phase).value} else {}
  }

  // Every mark is of a transaction in some call's hand.
  ghost predicate MarksHeld(s: Store) {
    forall txId :: txId in s.caches.validating ==>
      exists k :: 0 <= k < |s.calls| && InHand(s.calls[k].phase) == Some(txId)
  }

  lemma {:induction false} ScanHolds(c: Caches, call: Call)
    requires call.next <= |call.receipts|
    ensures Scan(c, call).0.validating.Keys <= c.validating.Keys + Hand(Scan(c, call).1.phase)
    decreases |call.receipts| - call.next
  {
    if call.next < |call.receipts| {
      var r, later := call.receipts[call.next], call.(next := call.next + 1);
      if r.txId == 0 || r.timestamp == 0 || IsKnown(c, r) {
        ScanHolds(c, later);
      } else if !r.wellFormed {
        ScanHolds(c.(validating := c.validating - {r.txId}), later);
      }
    }
  }

  // A stretch leaves only marks of other calls' hands and of the call's own hand afterwards.
  ghost predicate OthersAndOwn(c: Caches, call: Call, after: (Caches, Call)) {
    after.0.validating.Keys <= (c.validating.Keys - Hand(call.phase)) + Hand(after.1.phase)
  }

  lemma GiveUpHolds(c: Caches, call: Call, txId: nat)
    requires call.next <= |call.receipts| && InHand(call.phase) == Some(txId)
    ensures OthersAndOwn(c, call, Scan(c.(validating := c.validating - {txId}), call))
  {
    ScanHolds(c.(validating := c.validating - {txId}), call);
  }

  lemma GoOnHolds(c: Caches, call: Call)
    requires call.next <= |call.receipts| && InHand(call.phase).None?
    ensures OthersAndOwn(c, call, Scan(c, call))
  {
    ScanHolds(c, call);
  }

  lemma HandHolds(c: Caches, call: Call, verdict: Verdict, active: bool)
    requires call.next <= |call.receipts| && !(IsForeign(call.phase) && verdict.success)
    requires call.phase.Verifying? || call.phase.VerifyingSignatures?
    ensures OthersAndOwn(c, call, Continue(c, call, verdict, active))
  {
    if !verdict.success {
      GiveUpHolds(c, call, InHand(call.phase).value);
    }
  }

  lemma ContinueHolds(c: Caches, call: Call, verdict: Verdict, active: bool)
    requires call.next <= |call.receipts| && !(IsForeign(call.phase) && verdict.success)
    ensures OthersAndOwn(c, call, Continue(c, call, verdict, active))
  {
    match call.phase
    case AtHead => GoOnHolds(c, call);
    case Verifying(_) => HandHolds(c, call, verdict, active);
    case VerifyingSignatures(_, _) => HandHolds(c, call, verdict, active);
    case Saving => GoOnHolds(c, call);
    case Flushing => GoOnHolds(c, call.(combined := []));
    case FlushingLast =>
    case Done =>
    case Thrown(_) =>
  }

  lemma HeldAfter(s: Store, k: nat, c: Caches, call: Call)
    requires MarksHeld(s) && k <= |s.calls|
    requires c.validating.Keys <=
      s.caches.validating.Keys - (if k < |s.calls| then Hand(s.calls[k].phase) else {}) + Hand(call.phase)
    ensures MarksHeld(Store(c, if k == |s.calls| then s.calls + [call] else s.calls[k := call]))
  {
    var calls := if k == |s.calls| then s.calls + [call] else s.calls[k := call];
    forall txId | txId in c.validating ensures exists i :: 0 <= i < |calls| && InHand(calls[i].phase) == Some(txId) {
      if txId in Hand(call.phase) {
        assert InHand(calls[k].phase) == Some(txId);
      } else {
        var i :| 0 <= i < |s.calls| && InHand(s.calls[i].phase) == Some(txId);
        assert InHand(calls[i].phase) == Some(txId);
      }
    }
  }

  lemma NextHolds(s: Store, event: Event)
    requires InBounds(s) && MarksHeld(s) && !AcceptsForeign(s, event)
    ensures MarksHeld(Next(s, event))
  {
    match event
    case StoreReceipts(receipts, verifyData, unsortable) =>
      if receipts != [] {
        var (c, call) := Scan(s.caches, NewCall(receipts, verifyData, unsortable));
        ScanHolds(s.caches, NewCall(receipts, verifyData, unsortable));
        HeldAfter(s, |s.calls|, c, call);
      }
    case Resume(k, verdict, active) =>
      if k < |s.calls| {
        var (c, call) := Continue(s.caches, s.calls[k], verdict, active);
        ContinueHolds(s.caches, s.calls[k], verdict, active);
        HeldAfter(s, k, c, call);
      }
    case Reject(k) =>
      if k < |s.calls| {
        HeldAfter(s, k, s.caches, Throw(s.calls[k]));
      }
    case CleanOld(_) =>
  }

  // No full receipt can be of another transaction than the one it is fetched for.
  ghost predicate FetchesOwn(C: Pool) {
    C.fetched.AnyReceipt? ==>
      forall x, full :: x in C.receipts && full in C.receipts && Takeable(x) && full.wellFormed ==> full.txId == x.txId
  }

  lemma NothingForeign(s: Store, event: Event, C: Pool)
    requires CallsInv(s, C) && FetchesOwn(C)
    ensures !AcceptsForeign(s, event)
  {
    if event.Resume? && event.call < |s.calls| {
      assert CallInv(s.calls[event.call], C);
    }
  }

  // ----- the theorems -----

  const EMPTY := Store(Caches(map[], map[], []), [])

  ghost predicate IsRun(states: seq<Store>, events: seq<Event>, C: Pool) {
    && |states| == |events| + 1 && states[0] == EMPTY
    && forall k :: 0 <= k < |events| ==> IsStep(states[k], events[k], states[k + 1], C)
  }

  ghost predicate IsStep(s: Store, event: Event, after: Store, C: Pool) {
    InBounds(s) && Draws(event, s, C) && after == Next(s, event)
  }

  lemma {:induction false} RunKeepsCalls(states: seq<Store>, events: seq<Event>, C: Pool, k: nat)
    requires IsRun(states, events, C) && k < |states|
    ensures CallsInv(states[k], C)
  {
    if k > 0 {
      RunKeepsCalls(states, events, C, k - 1);
      assert IsStep(states[k - 1], events[k - 1], states[k], C);
      NextKeepsCalls(states[k - 1], events[k - 1], C);
    }
  }

  lemma {:induction false} RunStaysFine(states: seq<Store>, events: seq<Event>, C: Pool, k: nat)
    requires IsRun(states, events, C) && Safe(C) && k < |states|
    ensures Fine(states[k], C)
  {
    if k > 0 {
      RunStaysFine(states, events, C, k - 1);
      RunKeepsCalls(states, events, C, k - 1);
      assert IsStep(states[k - 1], events[k - 1], states[k], C);
      NextKeepsFine(states[k - 1], events[k - 1], C);
    }
  }

  lemma {:induction false} RunHolds(states: seq<Store>, events: seq<Event>, C: Pool, k: nat)
    requires IsRun(states, events, C) && FetchesOwn(C) && k < |states|
    ensures MarksHeld(states[k])
  {
    if k > 0 {
      RunHolds(states, events, C, k - 1);
      RunKeepsCalls(states, events, C, k - 1);
      assert IsStep(states[k - 1], events[k - 1], states[k], C);
      NothingForeign(states[k - 1], events[k - 1], C);
      NextHolds(states[k - 1], events[k - 1]);
    }
  }

  // Under any interleaving of calls at their awaits, a finished call has inserted exactly what it accepted, each
  // for one receipt of its argument, in that order; only where any full receipt is fetched can it be of another
  // transaction than that.
  lemma InsertedInOrder(states: seq<Store>, events: seq<Event>, C: Pool, k: nat)
    requires IsRun(states, events, C) && k < |states[|events|].calls| && states[|events|].calls[k].phase.Done?
    ensures
      var call := states[|events|].calls[k];
      && call.logged == Concat(call.batches) && |call.txData| == |call.logged|
      && Within(call.txData, Ids(call.receipts))
      && (!C.fetched.AnyReceipt? ==> call.txData == Ids(call.logged))
  {
    RunKeepsCalls(states, events, C, |events|);
    var call := states[|events|].calls[k];
    assert CallInv(call, C);
    NothingHeld(call);
    assert call.receipts[..call.next] == call.receipts;
  }

  // From safe receipts, no transaction is accepted twice without an eviction in between.
  lemma StoredOnceInOrder(states: seq<Store>, events: seq<Event>, C: Pool)
    requires IsRun(states, events, C) && Safe(C)
    ensures
      var s := states[|events|];
      && NeverTwice(s.caches.history)
      && forall k :: 0 <= k < |s.calls| && s.calls[k].phase.Done? ==>
        && s.calls[k].logged == Concat(s.calls[k].batches)
        && Within(s.calls[k].txData, Ids(s.calls[k].receipts))
  {
    RunStaysFine(states, events, C, |events|);
    var s := states[|events|];
    forall k | 0 <= k < |s.calls| && s.calls[k].phase.Done?
      ensures s.calls[k].logged == Concat(s.calls[k].batches)
      ensures Within(s.calls[k].txData, Ids(s.calls[k].receipts))
    {
      InsertedInOrder(states, events, C, k);
    }
  }

  ghost predicate AllEnded(s: Store) {
    forall k :: 0 <= k < |s.calls| ==> s.calls[k].phase.Done? || s.calls[k].phase.Thrown?
  }

  // Once every call has ended, the transactions still marked are exactly those that calls threw with or accepted
  // a foreign receipt for.
  lemma MarksLeftExactly(states: seq<Store>, events: seq<Event>, C: Pool, txId: nat)
    requires IsRun(states, events, C) && Safe(C) && AllEnded(states[|events|])
    ensures
      var s := states[|events|];
      txId in s.caches.validating <==>
        exists k :: 0 <= k < |s.calls| && (s.calls[k].phase == Thrown(Some(txId)) || HasForeign(s.calls[k], txId))
  {
    RunStaysFine(states, events, C, |events|);
    var s := states[|events|];
    if Inv(s, C) {
      forall k | 0 <= k < |s.calls| ensures !HasForeign(s.calls[k], txId) {
        OwnHasNoForeign(s.calls[k], txId);
      }
      if txId in s.caches.validating {
        var k :| 0 <= k < |s.calls| && InHand(s.calls[k].phase) == Some(txId);
        assert s.calls[k].phase == Thrown(Some(txId));
      }
    } else {
      var stuck :| StuckAt(s, stuck, C);
      var k :| 0 <= k < |s.calls| && HasForeign(s.calls[k], stuck);
      assert forall i :: 0 <= i < |s.calls| ==> InHand(s.calls[i].phase).None?;
    }
  }

  // Once every call is done, nothing is left marked as being validated, whatever else the receipts are.
  lemma NothingLeftValidating(states: seq<Store>, events: seq<Event>, C: Pool)
    requires IsRun(states, events, C) && FetchesOwn(C)
    requires forall k :: 0 <= k < |states[|events|].calls| ==> states[|events|].calls[k].phase.Done?
    ensures states[|events|].caches.validating == map[]
  {
    RunHolds(states, events, C, |events|);
    assert states[|events|].caches.validating.Keys == {};
  }

  // ----- receipts that are not coherent -----

  // A call with one receipt, whose votes can be sorted, unverified or verified.
  function Storing(r: Receipt): Event { StoreReceipts([r], false, 1) }

  function Checking(r: Receipt): Event { StoreReceipts([r], true, 1) }

  lemma UnverifiedIsAccepted(c: Caches, r: Receipt)
    requires r.txId != 0 && r.timestamp != 0 && r.wellFormed && !IsKnown(c, r)
    ensures Scan(c, NewCall([r], false, 1)) == (
      Caches(c.processed[r.txId := r.timestamp], c.validating - {r.txId}, c.history + [Accepted(r)]),
      Call([r], false, 1, 1, Saving, [r], [r], [r.txId], []))
  {
    assert c.validating[r.txId := r.timestamp] - {r.txId} == c.validating - {r.txId};
    assert [] + [r] == [r] && [] + [r.txId] == [r.txId];
  }

  lemma VerifiedIsMarked(c: Caches, r: Receipt)
    requires r.txId != 0 && r.timestamp != 0 && r.wellFormed && !IsKnown(c, r)
    ensures Scan(c, NewCall([r], true, 1)) == (
      c.(validating := c.validating[r.txId := r.timestamp]), Call([r], true, 1, 1, Verifying(r), [], [], [], []))
  {
  }

  lemma MalformedIsUnmarked(c: Caches, r: Receipt)
    requires r.txId != 0 && r.timestamp != 0 && !r.wellFormed && !IsKnown(c, r)
    ensures Scan(c, NewCall([r], true, 1)) == (
      c.(validating := c.validating - {r.txId}), Call([r], true, 1, 1, FlushingLast, [], [], [], []))
  {
    var call := NewCall([r], true, 1).(next := 1);
    assert Scan(c.(validating := c.validating - {r.txId}), call) == (
      c.(validating := c.validating - {r.txId}), call.(phase := FlushingLast));
  }

  lemma TwiceIsSeen(x: Receipt, y: Receipt)
    requires x.txId == y.txId
    ensures !NeverTwice([Accepted(x), Accepted(y)])
  {
    var history := [Accepted(x), Accepted(y)];
    assert AcceptedIn(history, 0) == {} && AcceptedIn(history, 1) == {x.txId};
    assert history[1].Accepted? && history[1].receipt.txId in AcceptedIn(history, 1);
  }

  // Two well-formed copies with different timestamps are both accepted.
  lemma DifferentTimestampsAreAcceptedTwice(x: Receipt, y: Receipt, C: Pool)
    returns (states: seq<Store>, events: seq<Event>)
    requires x in C.receipts && y in C.receipts && x.txId == y.txId != 0 && x.timestamp != y.timestamp
    requires x.timestamp != 0 && y.timestamp != 0 && x.wellFormed && y.wellFormed
    ensures IsRun(states, events, C) && states[|events|].caches.history == [Accepted(x), Accepted(y)]
  {
    events := [Storing(x), Storing(y)];
    var one := Next(EMPTY, events[0]);
    var two := Next(one, events[1]);
    states := [EMPTY, one, two];
    UnverifiedIsAccepted(EMPTY.caches, x);
    UnverifiedIsAccepted(one.caches, y);
    assert IsStep(EMPTY, events[0], one, C) && IsStep(one, events[1], two, C);
  }

  const VERIFIED := Verdict(true, None)

  // A call that verifies a receipt accepts it once both promises succeed, whatever the others do.
  lemma VerifyAndAccept(s: Store, k: nat, r: Receipt, C: Pool) returns (signed: Store, after: Store)
    requires InBounds(s) && k < |s.calls| && s.calls[k].phase == Verifying(r)
    ensures
      && IsStep(s, Resume(k, VERIFIED, true), signed, C) && IsStep(signed, Resume(k, VERIFIED, true), after, C)
      && after.caches == Commit(s.caches, s.calls[k], r.txId, r).0 && |after.calls| == |s.calls|
      && forall j :: 0 <= j < |s.calls| && j != k ==> after.calls[j] == s.calls[j]
  {
    signed := Next(s, Resume(k, VERIFIED, true));
    after := Next(signed, Resume(k, VERIFIED, true));
  }

  // A malformed copy with another timestamp erases the mark of a copy being verified, so that the next copy
  // is taken up while the first is still in hand.
  lemma MarkIsErased(a: Receipt, b: Receipt, C: Pool) returns (one: Store, two: Store, three: Store)
    requires a in C.receipts && b in C.receipts && a.txId == b.txId != 0 && a.timestamp != b.timestamp
    requires a.timestamp != 0 && b.timestamp != 0 && a.wellFormed && !b.wellFormed
    ensures
      && IsStep(EMPTY, Checking(a), one, C) && IsStep(one, Checking(b), two, C)
      && IsStep(two, Checking(a), three, C) && InBounds(three) && |three.calls| == 3
      && three.calls[0].phase == Verifying(a) && three.calls[2].phase == Verifying(a) && three.caches.history == []
  {
    one := Next(EMPTY, Checking(a));
    VerifiedIsMarked(EMPTY.caches, a);
    assert one.caches == Caches(map[], map[a.txId := a.timestamp], []);
    two := Next(one, Checking(b));
    MalformedIsUnmarked(one.caches, b);
    assert two.caches == Caches(map[], map[], []) by { assert map[a.txId := a.timestamp] - {a.txId} == map[]; }
    three := Next(two, Checking(a));
    VerifiedIsMarked(two.caches, a);
  }

  // Both of them are then accepted.
  lemma MalformedCopyErasesTheMark(a: Receipt, b: Receipt, C: Pool)
    returns (states: seq<Store>, events: seq<Event>)
    requires a in C.receipts && b in C.receipts && a.txId == b.txId != 0 && a.timestamp != b.timestamp
    requires a.timestamp != 0 && b.timestamp != 0 && a.wellFormed && !b.wellFormed
    ensures IsRun(states, events, C) && states[|events|].caches.history == [Accepted(a), Accepted(a)]
  {
    var one, two, three := MarkIsErased(a, b, C);
    var four, five := VerifyAndAccept(three, 0, a, C);
    var six, seven := VerifyAndAccept(five, 2, a, C);
    events := [Checking(a), Checking(b), Checking(a),
               Resume(0, VERIFIED, true), Resume(0, VERIFIED, true),
               Resume(2, VERIFIED, true), Resume(2, VERIFIED, true)];
    states := [EMPTY, one, two, three, four, five, six, seven];
  }

  // A full receipt without a timestamp, accepted in place of another, does not stop a second copy of that.
  lemma UntimedReplacementHidesItself(x: Receipt, y: Receipt, C: Pool)
    returns (states: seq<Store>, events: seq<Event>)
    requires x in C.receipts && y in C.receipts && x.txId == y.txId != 0
    requires x.timestamp != 0 && y.timestamp == 0 && x.wellFormed && y.wellFormed && !C.fetched.NoReceipt?
    ensures IsRun(states, events, C) && states[|events|].caches.history == [Accepted(y), Accepted(x)]
  {
    events := [Checking(x), Resume(0, Verdict(true, Some(y)), true), Resume(0, VERIFIED, true),
               Storing(x)];
    VerifiedIsMarked(EMPTY.caches, x);
    var one := Next(EMPTY, events[0]);
    assert one.calls[0].phase == Verifying(x);
    var two := Next(one, events[1]);
    assert two.calls[0].phase == VerifyingSignatures(x.txId, y);
    var three := Next(two, events[2]);
    assert three.caches.history == [Accepted(y)] && three.caches.processed == map[x.txId := 0];
    assert three.caches.validating == map[] by { assert map[x.txId := x.timestamp] - {x.txId} == map[]; }
    UnverifiedIsAccepted(three.caches, x);
    var four := Next(three, events[3]);
    states := [EMPTY, one, two, three, four];
    assert IsStep(EMPTY, events[0], one, C) && IsStep(one, events[1], two, C);
    assert IsStep(two, events[2], three, C) && IsStep(three, events[3], four, C);
  }

  // A full receipt of another transaction is accepted although that one has been, and the mark of the receipt it
  // was fetched for stays.
  lemma ForeignReceiptIsAcceptedTwice(x: Receipt, y: Receipt, C: Pool)
    returns (states: seq<Store>, events: seq<Event>)
    requires x in C.receipts && y in C.receipts && C.fetched.AnyReceipt?
    requires Takeable(x) && Takeable(y) && x.txId != y.txId
    ensures
      && IsRun(states, events, C)
      && states[|events|].caches.history == [Accepted(y), Accepted(y)] && x.txId in states[|events|].caches.validating
  {
    events := [Storing(y), Checking(x), Resume(1, Verdict(true, Some(y)), true),
               Resume(1, VERIFIED, true)];
    UnverifiedIsAccepted(EMPTY.caches, y);
    var one := Next(EMPTY, events[0]);
    VerifiedIsMarked(one.caches, x);
    var two := Next(one, events[1]);
    assert two.calls[1].phase == Verifying(x);
    var three := Next(two, events[2]);
    assert three.calls[1].phase == VerifyingSignatures(x.txId, y);
    var four := Next(three, events[3]);
    states := [EMPTY, one, two, three, four];
    assert IsStep(EMPTY, events[0], one, C) && IsStep(one, events[1], two, C);
    assert IsStep(two, events[2], three, C) && IsStep(three, events[3], four, C);
  }

  // ----- exactly when receipts are accepted once -----

  ghost predicate AlwaysOnce(C: Pool) {
    forall states: seq<Store>, events: seq<Event> | IsRun(states, events, C) ::
      NeverTwice(states[|events|].caches.history)
  }

  // Every run that draws its receipts from C accepts no transaction twice between evictions exactly when C is
  // coherent and, where any full receipt is fetched, receipts of one transaction only can be taken up.
  lemma AcceptedOnceExactly(C: Pool)
    ensures AlwaysOnce(C) <==> Coherent(C) && (C.fetched.AnyReceipt? ==> OneTransaction(C))
  {
    if Safe(C) {
      forall states: seq<Store>, events: seq<Event> | IsRun(states, events, C)
        ensures NeverTwice(states[|events|].caches.history)
      {
        StoredOnceInOrder(states, events, C);
      }
    } else if !Coherent(C) {
      var x, y :| x in C.receipts && y in C.receipts && Clash(x, y, C.fetched);
      IncoherentRun(x, y, C);
    } else {
      var x, y :| x in C.receipts && y in C.receipts && Takeable(x) && Takeable(y) && x.txId != y.txId;
      var states, events := ForeignReceiptIsAcceptedTwice(x, y, C);
      TwiceIsSeen(y, y);
    }
  }

  lemma IncoherentRun(x: Receipt, y: Receipt, C: Pool)
    requires x in C.receipts && y in C.receipts && Clash(x, y, C.fetched)
    ensures !AlwaysOnce(C)
  {
    if y.timestamp == 0 {
      var states, events := UntimedReplacementHidesItself(x, y, C);
      TwiceIsSeen(y, x);
    } else if x.wellFormed {
      var states, events := DifferentTimestampsAreAcceptedTwice(x, y, C);
      TwiceIsSeen(x, y);
    } else {
      var states, events := MalformedCopyErasesTheMark(y, x, C);
      TwiceIsSeen(y, y);
    }
  }

  // The default: no full receipt is fetched, and only copies that both carry a timestamp matter.
  lemma AcceptedOnceByDefaultExactly(receipts: iset<Receipt>)
    ensures AlwaysOnce(Pool(receipts, NoReceipt)) <==>
      forall x, y :: x in receipts && y in receipts && x.txId == y.txId && x.timestamp != 0 && Takeable(y) ==>
        x.timestamp == y.timestamp
  {
    var C := Pool(receipts, NoReceipt);
    AcceptedOnceExactly(C);
    forall x, y | x in receipts && y in receipts && x.txId == y.txId && x.timestamp != 0
      ensures Clash(x, y, NoReceipt) <==> Takeable(y) && x.timestamp != y.timestamp
    {
    }
  }

  // ----- exactly when no mark stays -----

  ghost predicate AlwaysCleared(C: Pool) {
    forall states: seq<Store>, events: seq<Event> |
      IsRun(states, events, C)
      && (forall k :: 0 <= k < |states[|events|].calls| ==> states[|events|].calls[k].phase.Done?) ::
      states[|events|].caches.validating == map[]
  }

  // One call that accepts a foreign receipt and is done, with its mark left.
  lemma ForeignMarkStays(x: Receipt, full: Receipt, C: Pool)
    returns (states: seq<Store>, events: seq<Event>)
    requires x in C.receipts && full in C.receipts && C.fetched.AnyReceipt?
    requires Takeable(x) && full.wellFormed && full.txId != x.txId
    ensures
      && IsRun(states, events, C)
      && |states[|events|].calls| == 1 && states[|events|].calls[0].phase.Done?
      && x.txId in states[|events|].caches.validating
  {
    var go := Resume(0, VERIFIED, true);
    events := [Checking(x), Resume(0, Verdict(true, Some(full)), true), go, go, go];
    VerifiedIsMarked(EMPTY.caches, x);
    var one := Next(EMPTY, events[0]);
    assert one.calls[0].phase == Verifying(x);
    var two := Next(one, events[1]);
    assert two.calls[0].phase == VerifyingSignatures(x.txId, full);
    var three := Next(two, go);
    assert three.calls[0].phase.Saving? && |three.calls[0].combined| == 1 && three.calls[0].next == 1;
    var four := Next(three, go);
    assert four.calls[0].phase.FlushingLast?;
    var five := Next(four, go);
    states := [EMPTY, one, two, three, four, five];
    assert IsStep(EMPTY, events[0], one, C) && IsStep(one, events[1], two, C);
    assert IsStep(two, go, three, C) && IsStep(three, go, four, C) && IsStep(four, go, five, C);
  }

  // Whenever all calls are done nothing is left marked, exactly when no full receipt can be foreign.
  lemma MarksClearedExactly(C: Pool)
    ensures AlwaysCleared(C) <==> FetchesOwn(C)
  {
    if FetchesOwn(C) {
      forall states: seq<Store>, events: seq<Event> |
        IsRun(states, events, C)
        && (forall k :: 0 <= k < |states[|events|].calls| ==> states[|events|].calls[k].phase.Done?)
        ensures states[|events|].caches.validating == map[]
      {
        NothingLeftValidating(states, events, C);
      }
    } else {
      var x, full :| x in C.receipts && full in C.receipts && Takeable(x) && full.wellFormed && full.txId != x.txId;
      var states, events := ForeignMarkStays(x, full, C);
    }
  }

  // ----- no receipt is left out -----

  // A malformed copy that is not known takes the mark of its transaction away.
  predicate Erases(c: Caches, r: Receipt, txId: nat) {
    r.txId == txId && r.timestamp != 0 && !r.wellFormed && !IsKnown(c, r)
  }

  // The p-th receipt is known when the loop that starts at the i-th with these caches reaches it.
  ghost predicate KnownAt(c: Caches, receipts: seq<Receipt>, i: nat, p: nat)
    requires i <= p < |receipts|
  {
    var r := receipts[p];
    || (r.txId in c.processed && c.processed[r.txId] == r.timestamp)
    || (r.txId in c.validating && c.validating[r.txId] == r.timestamp
        && forall q :: i <= q < p ==> !Erases(c, receipts[q], r.txId))
  }

  // The receipts from the i-th to before the j-th are passed over: each has no transaction or no timestamp, is
  // malformed, or is known when the loop reaches it.
  ghost predicate PassedOver(c: Caches, receipts: seq<Receipt>, i: nat, j: nat)
    requires i <= j <= |receipts|
  {
    forall p :: i <= p < j ==>
      || receipts[p].txId == 0 || receipts[p].timestamp == 0 || !receipts[p].wellFormed
      || KnownAt(c, receipts, i, p)
  }

  // A call goes through its receipts: it comes to the end, or takes up the first one that is not passed over.
  ghost predicate GoesThrough(c: Caches, call: Call, after: Call) {
    var i, j, receipts := call.next, after.next, call.receipts;
    && i <= j <= |receipts| && after.receipts == receipts
    && after.verifyData == call.verifyData && after.unsortable == call.unsortable
    && if after.phase.FlushingLast? then
         j == |receipts| && PassedOver(c, receipts, i, j) && after.logged == call.logged
       else
         && i < j && PassedOver(c, receipts, i, j - 1)
         && Takeable(receipts[j - 1]) && !KnownAt(c, receipts, i, j - 1)
         && TakesUp(call, after, j - 1)
  }

  // A receipt that is taken up is verified if the call asks for it; else it is accepted, or its votes do not sort.
  predicate TakesUp(call: Call, after: Call, p: nat)
    requires p < |call.receipts|
  {
    var r := call.receipts[p];
    if call.verifyData then after.phase == Verifying(r) && after.logged == call.logged
    else if p == call.unsortable then after.phase == Thrown(Some(r.txId)) && after.logged == call.logged
    else after.phase == Saving && after.logged == call.logged + [r]
  }

  // The caches behind a receipt that is passed over.
  function Behind(c: Caches, r: Receipt): Caches {
    if r.txId == 0 || r.timestamp == 0 || IsKnown(c, r) then c else c.(validating := c.validating - {r.txId})
  }

  lemma KnownBehind(c: Caches, receipts: seq<Receipt>, i: nat, p: nat)
    requires i < p < |receipts| && receipts[p].txId != 0 && !(Takeable(receipts[i]) && !IsKnown(c, receipts[i]))
    ensures KnownAt(Behind(c, receipts[i]), receipts, i + 1, p) <==> KnownAt(c, receipts, i, p)
  {
    var r, x, c' := receipts[i], receipts[p], Behind(c, receipts[i]);
    if !Erases(c, r, x.txId) {
      assert forall q :: i < q < p ==> (Erases(c', receipts[q], x.txId) <==> Erases(c, receipts[q], x.txId));
    }
  }

  lemma PassedBehind(c: Caches, receipts: seq<Receipt>, i: nat, j: nat)
    requires i < j <= |receipts| && !(Takeable(receipts[i]) && !IsKnown(c, receipts[i]))
    requires PassedOver(Behind(c, receipts[i]), receipts, i + 1, j)
    ensures PassedOver(c, receipts, i, j)
  {
    forall p | i <= p < j && receipts[p].txId != 0 && receipts[p].timestamp != 0 && receipts[p].wellFormed
      ensures KnownAt(c, receipts, i, p)
    {
      if p > i {
        KnownBehind(c, receipts, i, p);
      }
    }
  }

  lemma GoesThroughBehind(c: Caches, call: Call, after: Call)
    requires call.next < |call.receipts|
    requires !(Takeable(call.receipts[call.next]) && !IsKnown(c, call.receipts[call.next]))
    requires GoesThrough(Behind(c, call.receipts[call.next]), call.(next := call.next + 1), after)
    ensures GoesThrough(c, call, after)
  {
    if after.phase.FlushingLast? {
      PassedBehind(c, call.receipts, call.next, after.next);
    } else {
      PassedBehind(c, call.receipts, call.next, after.next - 1);
      KnownBehind(c, call.receipts, call.next, after.next - 1);
    }
  }

  lemma {:induction false} ScanGoesThrough(c: Caches, call: Call)
    requires call.next <= |call.receipts|
    ensures GoesThrough(c, call, Scan(c, call).1)
    decreases |call.receipts| - call.next
  {
    if call.next < |call.receipts| {
      var r, later := call.receipts[call.next], call.(next := call.next + 1);
      if !(Takeable(r) && !IsKnown(c, r)) {
        ScanGoesThrough(Behind(c, r), later);
        GoesThroughBehind(c, call, Scan(c, call).1);
      } else {
        assert PassedOver(c, call.receipts, call.next, call.next);
      }
    }
  }

  // A resumed call goes through the rest of its receipts, unless 100 are to be inserted first or a verification
  // succeeded; at the end it is done.
  lemma ContinueGoesThrough(c: Caches, call: Call, verdict: Verdict, active: bool)
    requires call.next <= |call.receipts|
    ensures
      var after := Continue(c, call, verdict, active).1;
      var released := match InHand(call.phase)
        case Some(txId) => c.(validating := c.validating - {txId})
        case None => c;
      match call.phase
      case Verifying(r) =>
        if verdict.success
        then after == call.(phase := VerifyingSignatures(
          r.txId, if verdict.newReceipt.Some? then verdict.newReceipt.value else r))
        else GoesThrough(released, call, after)
      case VerifyingSignatures(txId, r) =>
        if verdict.success
        then after.phase == Saving && after.next == call.next && after.logged == call.logged + [r]
        else GoesThrough(released, call, after)
      case Saving =>
        if |call.combined| >= 100
        then after.phase == Flushing && after.next == call.next && after.logged == call.logged
        else GoesThrough(c, call, after)
      case FlushingLast => after == call.(phase := Done)
      case Done => after == call
      case Thrown(_) => after == call
      case _ => GoesThrough(c, call, after)
  {
    match call.phase
    case AtHead => ScanGoesThrough(c, call);
    case Verifying(r) => ScanGoesThrough(c.(validating := c.validating - {r.txId}), call);
    case VerifyingSignatures(txId, _) => ScanGoesThrough(c.(validating := c.validating - {txId}), call);
    case Saving => ScanGoesThrough(c, call);
    case Flushing => ScanGoesThrough(c, call.(combined := []));
    case _ =>
  }

  // A new call goes through its receipts from the first; without any there is no call.
  lemma StoreGoesThrough(s: Store, receipts: seq<Receipt>, verifyData: bool, unsortable: nat)
    requires InBounds(s)
    ensures
      var after := Next(s, StoreReceipts(receipts, verifyData, unsortable));
      if receipts == [] then after == s else
        && |after.calls| == |s.calls| + 1 && after.calls[..|s.calls|] == s.calls
        && var call := after.calls[|s.calls|];
          GoesThrough(s.caches, Call(receipts, verifyData, unsortable, 0, AtHead, [], [], [], []), call)
  {
    ScanGoesThrough(s.caches, NewCall(receipts, verifyData, unsortable));
  }

  // In this step the p-th receipt of the k-th call is passed over, as one without a transaction or a timestamp, a
  // malformed or a known one, or it is taken up.
  ghost predicate Handled(s: Store, after: Store, k: nat, p: nat) {
    && k < |after.calls| && p < after.calls[k].next <= |after.calls[k].receipts|
    && var call, r := after.calls[k], after.calls[k].receipts[p];
      || r.txId == 0 || r.timestamp == 0 || !r.wellFormed || IsKnown(s.caches, r)
      || (p == call.next - 1 && (call.phase == Verifying(r) || call.phase == Thrown(Some(r.txId))))
      || (p == call.next - 1 && call.phase == Saving && call.logged != [] && call.logged[|call.logged| - 1] == r)
  }

  lemma ThroughIsHandled(s: Store, c: Caches, call: Call, after: Store, k: nat, p: nat)
    requires k < |after.calls| && GoesThrough(c, call, after.calls[k]) && call.next <= p < after.calls[k].next
    requires c.processed == s.caches.processed
    requires forall txId :: txId in c.validating ==>
      txId in s.caches.validating && c.validating[txId] == s.caches.validating[txId]
    ensures Handled(s, after, k, p)
  {
    var r := call.receipts[p];
    assert KnownAt(c, call.receipts, call.next, p) ==> IsKnown(s.caches, r);
  }

  lemma StepHandles(s: Store, event: Event, k: nat, p: nat)
    requires InBounds(s) && k < |Next(s, event).calls| && p < Next(s, event).calls[k].next
    requires k < |s.calls| ==> s.calls[k].next <= p
    ensures Handled(s, Next(s, event), k, p)
  {
    match event
    case StoreReceipts(receipts, verifyData, unsortable) =>
      var call := NewCall(receipts, verifyData, unsortable);
      ScanGoesThrough(s.caches, call);
      ThroughIsHandled(s, s.caches, call, Next(s, event), k, p);
    case Resume(i, verdict, active) =>
      var call := s.calls[k];
      ContinueGoesThrough(s.caches, call, verdict, active);
      var c := match InHand(call.phase)
        case Some(txId) => s.caches.(validating := s.caches.validating - {txId})
        case None => s.caches;
      ThroughIsHandled(s, c, call, Next(s, event), k, p);
    case _ =>
  }

  lemma {:induction false} ReachedIsHandled(states: seq<Store>, events: seq<Event>, C: Pool, k: nat, p: nat, t: nat)
    requires IsRun(states, events, C) && t <= |events| && k < |states[t].calls| && p < states[t].calls[k].next
    ensures exists u :: 0 <= u < t && Handled(states[u], states[u + 1], k, p)
  {
    if t > 0 {
      assert IsStep(states[t - 1], events[t - 1], states[t], C);
      if k < |states[t - 1].calls| && p < states[t - 1].calls[k].next {
        ReachedIsHandled(states, events, C, k, p, t - 1);
      } else {
        StepHandles(states[t - 1], events[t - 1], k, p);
        assert Handled(states[t - 1], states[t - 1 + 1], k, p);
      }
    }
  }

  // Under any interleaving, a finished call leaves no receipt of its argument out.
  lemma NoReceiptIsLeftOut(states: seq<Store>, events: seq<Event>, C: Pool, k: nat, p: nat)
    requires IsRun(states, events, C) && k < |states[|events|].calls| && states[|events|].calls[k].phase.Done?
    requires p < |states[|events|].calls[k].receipts|
    ensures exists u :: 0 <= u < |events| && Handled(states[u], states[u + 1], k, p)
  {
    RunKeepsCalls(states, events, C, |events|);
    assert CallInv(states[|events|].calls[k], C);
    ReachedIsHandled(states, events, C, k, p, |events|);
  }

  // ----- one call with nothing in its way -----

  function Steps(s: Store, events: seq<Event>): (after: Store)
    requires InBounds(s)
    ensures InBounds(after)
    decreases |events|
  {
    if events == [] then s else Steps(Next(s, events[0]), events[1..])
  }

  // Different receipts that can all be taken up, none of those from the given one on known.
  ghost predicate AllNew(c: Caches, receipts: seq<Receipt>, from: nat) {
    && (forall i :: 0 <= i < |receipts| ==> Takeable(receipts[i]))
    && (forall i, j :: 0 <= i < j < |receipts| ==>
          receipts[i].txId != receipts[j].txId || receipts[i].timestamp != receipts[j].timestamp)
    && (forall i :: from <= i < |receipts| ==> !IsKnown(c, receipts[i]))
  }

  // The call has logged every receipt it went through, but for the one it is verifying.
  ghost predicate Complete(call: Call) {
    && call.next <= |call.receipts|
    && match call.phase
       case Verifying(r) =>
         0 < call.next && r == call.receipts[call.next - 1] && call.logged == call.receipts[..call.next - 1]
       case VerifyingSignatures(txId, r) =>
         && 0 < call.next && r == call.receipts[call.next - 1] && call.logged == call.receipts[..call.next - 1]
         && txId == r.txId
       case Thrown(_) => false
       case _ => call.logged == call.receipts[..call.next] && (AtEnd(call.phase) ==> call.next == |call.receipts|)
  }

  ghost predicate Succeeding(c: Caches, call: Call) {
    Complete(call) && AllNew(c, call.receipts, call.next) && (call.verifyData || call.unsortable >= |call.receipts|)
  }

  // How many stretches are left at most.
  function StretchesLeft(call: Call): nat
    requires call.next <= |call.receipts|
  {
    5 * (|call.receipts| - call.next) + match call.phase
      case Verifying(_) => 5
      case VerifyingSignatures(_, _) => 4
      case Saving => 3
      case FlushingLast => 1
      case Done => 0
      case Thrown(_) => 0
      case _ => 2
  }

  // Those behind a receipt stay unknown when only its transaction becomes known.
  lemma StayNew(c: Caches, c': Caches, receipts: seq<Receipt>, from: nat)
    requires 0 < from <= |receipts| && AllNew(c, receipts, from)
    requires
      var r := receipts[from - 1];
      && (c'.processed == c.processed || c'.processed == c.processed[r.txId := r.timestamp])
      && forall txId :: txId in c'.validating ==>
        || (txId in c.validating && c.validating[txId] == c'.validating[txId])
        || (txId == r.txId && c'.validating[txId] == r.timestamp)
    ensures AllNew(c', receipts, from)
  {
    var r := receipts[from - 1];
    forall i | from <= i < |receipts| ensures !IsKnown(c', receipts[i]) {
      assert !IsKnown(c, receipts[i]);
      assert r.txId != receipts[i].txId || r.timestamp != receipts[i].timestamp;
    }
  }

  lemma ScanSucceeds(c: Caches, call: Call)
    requires Succeeding(c, call) && call.logged == call.receipts[..call.next]
    ensures Succeeding(Scan(c, call).0, Scan(c, call).1)
    ensures StretchesLeft(Scan(c, call).1) <= 5 * (|call.receipts| - call.next) + 1
    ensures Scan(c, call).1.receipts == call.receipts
  {
    if call.next == |call.receipts| {
      assert call.receipts[..call.next] == call.receipts;
    } else {
      var r := call.receipts[call.next];
      assert Takeable(r) && !IsKnown(c, r);
      assert call.receipts[..call.next + 1] == call.receipts[..call.next] + [r];
      StayNew(c, Scan(c, call).0, call.receipts, call.next + 1);
    }
  }

  lemma CommitSucceeds(c: Caches, call: Call)
    requires Succeeding(c, call) && call.phase.VerifyingSignatures?
    ensures
      var (c', call') := Commit(c, call, call.phase.txId, call.phase.receipt);
      Succeeding(c', call')
  {
    var r := call.phase.receipt;
    assert call.receipts[..call.next] == call.receipts[..call.next - 1] + [r];
    StayNew(c, Commit(c, call, r.txId, r).0, call.receipts, call.next);
  }

  lemma ContinueSucceeds(c: Caches, call: Call, active: bool)
    requires Succeeding(c, call) && !call.phase.Done?
    ensures
      var (c', call') := Continue(c, call, VERIFIED, active);
      Succeeding(c', call') && call'.receipts == call.receipts && StretchesLeft(call') < StretchesLeft(call)
  {
    match call.phase
    case AtHead => ScanSucceeds(c, call);
    case Verifying(r) =>
    case VerifyingSignatures(txId, r) => CommitSucceeds(c, call);
    case Saving =>
      if |call.combined| < BATCH {
        ScanSucceeds(c, call);
      }
    case Flushing => ScanSucceeds(c, call.(combined := []));
    case FlushingLast =>
  }

  lemma {:induction false} RunsToItsEnd(s: Store, k: nat, active: bool) returns (events: seq<Event>)
    requires InBounds(s) && k < |s.calls| && Succeeding(s.caches, s.calls[k])
    ensures forall i :: 0 <= i < |events| ==> events[i] == Resume(k, VERIFIED, active)
    ensures
      var after := Steps(s, events);
      && |after.calls| == |s.calls| && (forall i :: 0 <= i < |s.calls| && i != k ==> after.calls[i] == s.calls[i])
      && after.calls[k].phase.Done? && after.calls[k].logged == s.calls[k].receipts
    decreases StretchesLeft(s.calls[k])
  {
    if s.calls[k].phase.Done? {
      events := [];
      assert s.calls[k].receipts[..s.calls[k].next] == s.calls[k].receipts;
    } else {
      var event := Resume(k, VERIFIED, active);
      ContinueSucceeds(s.caches, s.calls[k], active);
      var rest := RunsToItsEnd(Next(s, event), k, active);
      events := [event] + rest;
      assert events[1..] == rest;
    }
  }

  // A call with different well-formed receipts, none of them known, accepts all of them in their order, when nothing
  // else runs meanwhile and every verification succeeds.
  lemma AllAreStored(s: Store, receipts: seq<Receipt>, verifyData: bool, unsortable: nat, active: bool)
    returns (events: seq<Event>)
    requires InBounds(s) && receipts != [] && AllNew(s.caches, receipts, 0)
    requires verifyData || unsortable >= |receipts|
    ensures forall i :: 0 <= i < |events| ==> events[i] == Resume(|s.calls|, VERIFIED, active)
    ensures
      var after := Steps(Next(s, StoreReceipts(receipts, verifyData, unsortable)), events);
      && |after.calls| == |s.calls| + 1 && after.calls[..|s.calls|] == s.calls
      && after.calls[|s.calls|].phase.Done? && after.calls[|s.calls|].logged == receipts
  {
    var call := NewCall(receipts, verifyData, unsortable);
    ScanSucceeds(s.caches, call);
    var started := Next(s, StoreReceipts(receipts, verifyData, unsortable));
    events := RunsToItsEnd(started, |s.calls|, active);
  }

  // ----- what is evicted -----

  // A cleanup evicts the processed receipts that are older than its timestamp; the end of a call evicts all of them
  // if the archiver is inactive and there are more than 2000.
  lemma EvictedExactly(s: Store, event: Event)
    requires InBounds(s)
    requires event.CleanOld? || (event.Resume? && event.call < |s.calls| && s.calls[event.call].phase.FlushingLast?)
    ensures
      var before, after := s.caches, Next(s, event).caches;
      && after.validating == before.validating
      && (forall txId :: txId in after.processed <==>
            && txId in before.processed
            && if event.CleanOld? then before.processed[txId] >= event.timestamp
               else event.active || |before.processed| <= 2000)
      && (forall txId :: txId in after.processed ==> after.processed[txId] == before.processed[txId])
      && (event.CleanOld? || after.processed != before.processed ==>
            after.history == before.history + [Evicted(before.processed.Keys - after.processed.Keys)])
  {
    assert MAX_CACHED == 2000;
    var before, after := s.caches, Next(s, event).caches;
    if event.CleanOld? {
      assert before.processed.Keys - after.processed.Keys == Stale(before.processed, event.timestamp);
    } else if after.processed != before.processed {
      assert before.processed.Keys - after.processed.Keys == before.processed.Keys;
    }
  }

  // ----- the code -----

  class ReceiptStore {
    var processedReceiptsMap: map<nat, nat>
    var receiptsInValidationMap: map<nat, nat>
    var calls: seq<Call>
    ghost var history: seq<Entry>

    ghost function CachesNow(): Caches
      reads this
    {
      Caches(processedReceiptsMap, receiptsInValidationMap, history)
    }

    ghost function State(): Store
      reads this
    {
      Store(CachesNow(), calls)
    }

    ghost predicate Valid()
      reads this
    {
      InBounds(State())
    }

    constructor ()
      ensures Valid() && State() == Store(Caches(map[], map[], []), [])
    {
      processedReceiptsMap, receiptsInValidationMap, calls, history := map[], map[], [], [];
    }

    // storeReceiptData, up to its first await or an uncaught exception.
    method StoreReceiptData(receipts: seq<Receipt>, verifyData: bool, unsortable: nat)
      requires Valid()
      modifies this
      ensures Valid() && State() == Next(old(State()), StoreReceipts(receipts, verifyData, unsortable))
    {
      if |receipts| == 0 {
        return;
      }
      var call := RunFromHead(NewCall(receipts, verifyData, unsortable));
      calls := calls + [call];
    }

    method Accept(call: Call, txId: nat, receipt: Receipt) returns (after: Call)
      modifies this`processedReceiptsMap, this`receiptsInValidationMap, this`history
      ensures (CachesNow(), after) == Commit(old(CachesNow()), call, txId, receipt)
    {
      processedReceiptsMap := processedReceiptsMap[receipt.txId := receipt.timestamp];
      receiptsInValidationMap := receiptsInValidationMap - {receipt.txId};
      history := history + [Accepted(receipt)];
      after := call.(combined := call.combined + [receipt], logged := call.logged + [receipt],
                     txData := call.txData + [txId], phase := Saving);
    }

    // The loop over the receipts, from its head to the next await.
    method RunFromHead(call: Call) returns (after: Call)
      requires call.next <= |call.receipts|
      modifies this`processedReceiptsMap, this`receiptsInValidationMap, this`history
      ensures (CachesNow(), after) == Scan(old(CachesNow()), call)
    {
      after := call;
      while after.next < |after.receipts|
        invariant after.next <= |after.receipts|
        invariant Scan(CachesNow(), after) == Scan(old(CachesNow()), call)
        decreases |after.receipts| - after.next
      {
        var receipt := after.receipts[after.next];
        ghost var before, at := CachesNow(), after;
        after := after.(next := after.next + 1);
        if receipt.txId == 0 || receipt.timestamp == 0 {
          continue;
        }
        var processed, validating := processedReceiptsMap, receiptsInValidationMap;
        if (receipt.txId in processed && processed[receipt.txId] == receipt.timestamp)
           || (receipt.txId in validating && validating[receipt.txId] == receipt.timestamp) {
          continue;
        }
        receiptsInValidationMap := receiptsInValidationMap[receipt.txId := receipt.timestamp];
        if !receipt.wellFormed {
          receiptsInValidationMap := receiptsInValidationMap - {receipt.txId};
          assert CachesNow() == before.(validating := before.validating - {receipt.txId});
          continue;
        }
        if after.verifyData {
          after := after.(phase := Verifying(receipt));
          return;
        }
        if after.next - 1 == after.unsortable {
          after := after.(phase := Thrown(Some(receipt.txId)));
          return;
        }
        after := Accept(after, receipt.txId, receipt);
        return;
      }
      if |after.combined| > 0 {
        after := after.(batches := after.batches + [after.combined]);
      }
      after := after.(phase := FlushingLast);
    }

    // A suspended call, up to its next await.
    method ResumeCall(k: nat, verdict: Verdict, active: bool)
      requires Valid() && k < |calls|
      modifies this
      ensures Valid() && State() == Next(old(State()), Resume(k, verdict, active))
    {
      var call := ContinueCall(calls[k], verdict, active);
      calls := calls[k := call];
    }

    method ContinueCall(call: Call, verdict: Verdict, active: bool) returns (after: Call)
      requires call.next <= |call.receipts|
      modifies this`processedReceiptsMap, this`receiptsInValidationMap, this`history
      ensures (CachesNow(), after) == Continue(old(CachesNow()), call, verdict, active)
    {
      after := call;
      match call.phase
      case AtHead => after := RunFromHead(call);
      case Verifying(receipt) =>
        if !verdict.success {
          receiptsInValidationMap := receiptsInValidationMap - {receipt.txId};
          after := RunFromHead(call);
        } else {
          var verified := if verdict.newReceipt.Some? then verdict.newReceipt.value else receipt;
          after := call.(phase := VerifyingSignatures(receipt.txId, verified));
        }
      case VerifyingSignatures(txId, receipt) =>
        if !verdict.success {
          receiptsInValidationMap := receiptsInValidationMap - {txId};
          after := RunFromHead(call);
        } else {
          after := Accept(call, txId, receipt);
        }
      case Saving =>
        if |call.combined| >= BATCH {
          after := call.(phase := Flushing, batches := call.batches + [call.combined]);
        } else {
          after := RunFromHead(call);
        }
      case Flushing => after := RunFromHead(call.(combined := []));
      case FlushingLast =>
        if !active && |processedReceiptsMap| > MAX_CACHED {
          history := history + [Evicted(processedReceiptsMap.Keys)];
          processedReceiptsMap := map[];
        }
        after := call.(phase := Done);
      case Done =>
      case Thrown(_) =>
    }

    // An uncaught exception in a suspended call: the call ends where it is.
    method RejectCall(k: nat)
      requires Valid() && k < |calls|
      modifies this`calls
      ensures Valid() && State() == Next(old(State()), Reject(k))
      ensures
        var call := old(calls[k]);
        calls[k].phase == match call.phase
          case Verifying(receipt) => Thrown(Some(receipt.txId))
          case VerifyingSignatures(txId, _) => Thrown(Some(txId))
          case Done => Done
          case Thrown(marked) => Thrown(marked)
          case _ => Thrown(None)
    {
      calls := calls[k := Throw(calls[k])];
    }

    method CleanOldReceiptsMap(timestamp: nat)
      requires Valid()
      modifies this`processedReceiptsMap, this`history
      ensures Valid() && State() == Next(old(State()), CleanOld(timestamp))
    {
      ghost var before := processedReceiptsMap;
      DeleteOld(timestamp);
      history := history + [Evicted(Stale(before, timestamp))];
    }

    method DeleteOld(timestamp: nat)
      modifies this`processedReceiptsMap
      ensures processedReceiptsMap == old(processedReceiptsMap) - Stale(old(processedReceiptsMap), timestamp)
    {
      var keys := processedReceiptsMap.Keys;
      ghost var stale := Stale(processedReceiptsMap, timestamp);
      assert processedReceiptsMap == LeftOver(processedReceiptsMap, keys, stale);
      while keys != {}
        invariant keys <= old(processedReceiptsMap).Keys
        invariant processedReceiptsMap == LeftOver(old(processedReceiptsMap), keys, stale)
        decreases |keys|
      {
        var txId :| txId in keys;
        OneLess(old(processedReceiptsMap), keys, stale, txId);
        keys := keys - {txId};
        if processedReceiptsMap[txId] < timestamp {
          processedReceiptsMap := processedReceiptsMap - {txId};
        }
      }
    }
  }
}
