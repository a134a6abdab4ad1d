/** The rotating log writer and its write queue (src/Data/DataLogWriter.ts:113-172). */
module DataLogWriter {
  import opened Basics

  // The awaits of insertDataLog.
  datatype Await = ClosingEntry | EndingStream | Rotating | Activating | Appending

  // A suspended run of insertDataLog: the item it is at and what it waits for.
  datatype Drain = Drain(i: nat, waits: Await)

  // A log file, by its number, and the entries in it.
  datatype LogFile = LogFile(number: nat, entries: seq<nat>)

  datatype Limits = Limits(maxNumberEntriesPerLog: nat, maxLogCounter: nat)

  datatype Writer = Writer(
    writeQueue: seq<nat>,
    isWriting: bool,
    dataWriteIndex: nat,
    totalNumberOfEntries: nat,
    logCounter: nat,
    closed: seq<LogFile>,
    current: LogFile,
    drains: seq<Drain>)

  // What insertDataLog does from one await to the next: the writer, and where this run is, unless it has ended.
  datatype Stretch = Stretch(writer: Writer, drain: seq<Drain>)

  // ----- the stretches -----

  // From the head of the for loop.
  function AtItem(w: Writer, i: nat, limits: Limits): Stretch
    decreases |w.writeQueue|, if i < |w.writeQueue| then 0 else 1
  {
    if i < |w.writeQueue| then
      var phase := if w.totalNumberOfEntries == limits.maxNumberEntriesPerLog then ClosingEntry else Appending;
      Stretch(w, [Drain(i, phase)])
    else
      var written := if w.dataWriteIndex <= |w.writeQueue| then w.dataWriteIndex else |w.writeQueue|;
      var spliced := w.(writeQueue := w.writeQueue[written..], dataWriteIndex := 0);
      if spliced.writeQueue == [] then Stretch(spliced.(isWriting := false), [])
      else AtItem(spliced, 0, limits)
  }

  // rotateLogFile: the number of the next file.
  function NextNumber(logCounter: nat, maxLogCounter: nat): nat {
    if logCounter + 1 > maxLogCounter then 1 else logCounter + 1
  }

  // From where a run is suspended, when what it waits for succeeds.
  function Continue(w: Writer, d: Drain, limits: Limits): Stretch {
    match d.waits
    case ClosingEntry => Stretch(w, [Drain(d.i, EndingStream)])
    case EndingStream =>
      Stretch(
        w.(totalNumberOfEntries := 0, closed := w.closed + [w.current],
           logCounter := NextNumber(w.logCounter, limits.maxLogCounter)),
        [Drain(d.i, Rotating)])
    case Rotating => Stretch(w.(current := LogFile(w.logCounter, [])), [Drain(d.i, Activating)])
    case Activating => Stretch(w, [Drain(d.i, Appending)])
    case Appending =>
      if d.i >= |w.writeQueue| then AtItem(w, d.i, limits) else
        AtItem(
          w.(current := LogFile(w.current.number, w.current.entries + [w.writeQueue[d.i]]),
             dataWriteIndex := w.dataWriteIndex + 1, totalNumberOfEntries := w.totalNumberOfEntries + 1),
          d.i + 1, limits)
  }

  // ----- the events -----

  datatype Event =
    | Push(data: nat)
    | Resume(run: nat)
    | AppendFails(run: nat)

  function Next(w: Writer, event: Event, limits: Limits): Writer {
    match event
    case Push(data) =>
      var pushed := w.(writeQueue := w.writeQueue + [data]);
      if w.isWriting then pushed else
        var stretch := AtItem(pushed.(isWriting := true), 0, limits);
        stretch.writer.(drains := stretch.writer.drains + stretch.drain)
    case Resume(run) =>
      if run >= |w.drains| then w else
        var stretch := Continue(w, w.drains[run], limits);
        stretch.writer.(drains := w.drains[..run] + stretch.drain + w.drains[run + 1..])
    case AppendFails(run) =>
      if run >= |w.drains| || !w.drains[run].waits.Appending? then w else
        var stretch := AtItem(w, 0, limits);
        stretch.writer.(drains := w.drains[..run] + stretch.drain + w.drains[run + 1..])
  }

  // ----- the invariant -----

  // Everything in the files, in the order it was written.
  function Entries(files: seq<LogFile>): seq<nat> {
    if files == [] then [] else Entries(files[..|files| - 1]) + files[|files| - 1].entries
  }

  // The file that is being closed is listed as closed before the next one is current.
  function Written(w: Writer): seq<nat> {
    Entries(w.closed) + (if w.drains != [] && w.drains[0].waits.Rotating? then [] else w.current.entries)
  }

  // The items of the queue that are not written yet.
  function Pending(w: Writer): seq<nat> {
    if w.dataWriteIndex <= |w.writeQueue| then w.writeQueue[w.dataWriteIndex..] else []
  }

  ghost predicate FileOk(w: Writer, limits: Limits) {
    var total, entries := w.totalNumberOfEntries, |w.current.entries|;
    if w.drains == [] then total == entries <= limits.maxNumberEntriesPerLog
    else match w.drains[0].waits
      case ClosingEntry => total == entries == limits.maxNumberEntriesPerLog
      case EndingStream => total == entries == limits.maxNumberEntriesPerLog
      case Rotating => total == 0
      case Activating => total == 0 == entries
      case Appending => total == entries < limits.maxNumberEntriesPerLog
  }

  // 1 to max in turn, over and over.
  predicate NumberedInTurn(number: nat, next: nat, max: nat) {
    next == if number == max then 1 else number + 1
  }

  // Closed files are full and numbered in turn.
  ghost predicate ClosedOk(w: Writer, limits: Limits) {
    && (forall k :: 0 <= k < |w.closed| ==> |w.closed[k].entries| == limits.maxNumberEntriesPerLog)
    && (forall k :: 0 <= k < |w.closed| ==> 1 <= w.closed[k].number <= limits.maxLogCounter)
    && (forall k :: 0 <= k < |w.closed| - 1 ==>
          NumberedInTurn(w.closed[k].number, w.closed[k + 1].number, limits.maxLogCounter))
    && (w.closed != [] ==>
          NumberedInTurn(w.closed[|w.closed| - 1].number, w.logCounter, limits.maxLogCounter))
    && (w.drains == [] || !w.drains[0].waits.Rotating? ==> w.current.number == w.logCounter)
  }

  ghost predicate Inv(w: Writer, limits: Limits) {
    && |w.drains| <= 1 && (w.isWriting <==> |w.drains| == 1)
    && (w.drains == [] ==> w.writeQueue == [] && w.dataWriteIndex == 0)
    && (w.drains != [] ==> w.drains[0].i == w.dataWriteIndex < |w.writeQueue|)
    && 1 <= w.logCounter <= limits.maxLogCounter
    && FileOk(w, limits) && ClosedOk(w, limits)
  }

  // What has been handed to the writer: the items written, then the pending ones.
  function Taken(w: Writer): seq<nat> {
    Written(w) + Pending(w)
  }

  lemma EntriesSnoc(files: seq<LogFile>, file: LogFile)
    ensures Entries(files + [file]) == Entries(files) + file.entries
  {
    assert (files + [file])[..|files|] == files;
  }

  lemma PushKeeps(w: Writer, data: nat, limits: Limits)
    requires Inv(w, limits) && limits.maxNumberEntriesPerLog >= 1
    ensures Inv(Next(w, Push(data), limits), limits)
    ensures Taken(Next(w, Push(data), limits)) == Taken(w) + [data]
  {
    assert w.drains == [] ==> Pending(w) == [];
    assert w.dataWriteIndex <= |w.writeQueue|;
    assert (w.writeQueue + [data])[w.dataWriteIndex..] == w.writeQueue[w.dataWriteIndex..] + [data];
  }

  lemma AppendedKeepsInv(w: Writer, limits: Limits)
    requires Inv(w, limits) && w.drains != [] && w.drains[0].waits.Appending?
    ensures Inv(Next(w, Resume(0), limits), limits)
  {
    assert w.drains == [w.drains[0]];
  }

  lemma AppendedKeepsTaken(w: Writer, limits: Limits)
    requires Inv(w, limits) && w.drains != [] && w.drains[0].waits.Appending?
    ensures Taken(Next(w, Resume(0), limits)) == Taken(w)
  {
    var i := w.dataWriteIndex;
    var item := w.writeQueue[i];
    assert w.drains == [Drain(i, Appending)];
    var after := Next(w, Resume(0), limits);
    assert w.writeQueue[i..] == [item] + w.writeQueue[i + 1..];
    assert after.current.entries == w.current.entries + [item] && after.closed == w.closed;
    assert Pending(after) == w.writeQueue[i + 1..];
  }

  lemma ClosedKeepsInv(w: Writer, limits: Limits)
    requires Inv(w, limits) && w.drains != [] && w.drains[0].waits.EndingStream?
    ensures Inv(Next(w, Resume(0), limits), limits)
  {
    assert w.drains == [w.drains[0]];
    ClosedOne(w, limits);
  }

  lemma ClosedOne(w: Writer, limits: Limits)
    requires ClosedOk(w, limits) && 1 <= w.logCounter <= limits.maxLogCounter
    requires |w.current.entries| == limits.maxNumberEntriesPerLog && w.current.number == w.logCounter
    ensures
      var closed := w.closed + [w.current];
      && (forall k :: 0 <= k < |closed| ==> |closed[k].entries| == limits.maxNumberEntriesPerLog)
      && (forall k :: 0 <= k < |closed| ==> 1 <= closed[k].number <= limits.maxLogCounter)
      && (forall k :: 0 <= k < |closed| - 1 ==>
            NumberedInTurn(closed[k].number, closed[k + 1].number, limits.maxLogCounter))
  {
  }

  // Listing the current file as closed leaves what is written as it was.
  lemma WrittenAfterClosing(w: Writer, after: Writer)
    requires w.drains != [] && !w.drains[0].waits.Rotating? && after.drains != [] && after.drains[0].waits.Rotating?
    requires after.closed == w.closed + [w.current]
    ensures Written(after) == Written(w)
  {
    EntriesSnoc(w.closed, w.current);
    assert Entries(after.closed) + [] == Entries(after.closed);
  }

  lemma ClosedKeepsTaken(w: Writer, limits: Limits)
    requires w.drains != [] && w.drains[0].waits.EndingStream?
    ensures Taken(Next(w, Resume(0), limits)) == Taken(w)
  {
    var after := Next(w, Resume(0), limits);
    assert after.drains[0] == Drain(w.drains[0].i, Rotating);
    WrittenAfterClosing(w, after);
  }

  lemma ResumeKeeps(w: Writer, run: nat, limits: Limits)
    requires Inv(w, limits) && limits.maxNumberEntriesPerLog >= 1
    ensures Inv(Next(w, Resume(run), limits), limits)
    ensures Taken(Next(w, Resume(run), limits)) == Taken(w)
  {
    if run < |w.drains| {
      assert w.drains == [w.drains[0]];
      if w.drains[0].waits.Appending? {
        AppendedKeepsInv(w, limits);
        AppendedKeepsTaken(w, limits);
      } else if w.drains[0].waits.EndingStream? {
        ClosedKeepsInv(w, limits);
        ClosedKeepsTaken(w, limits);
      }
    }
  }

  // A failed append of the first item of the queue is tried again.
  lemma FirstAppendMayFail(w: Writer, run: nat, limits: Limits)
    requires Inv(w, limits) && limits.maxNumberEntriesPerLog >= 1
    requires run < |w.drains| && w.drains[run].waits.Appending? ==> w.drains[run].i == 0
    ensures Next(w, AppendFails(run), limits) == w
  {
    if run < |w.drains| {
      assert w.drains == [w.drains[0]];
    }
  }

  // Any later failed append makes the writer append the first item of the queue once more.
  lemma LaterAppendMustNotFail(w: Writer, limits: Limits)
    requires Inv(w, limits) && w.drains != [] && w.drains[0].waits.Appending? && w.drains[0].i > 0
    ensures Written(Next(Next(w, AppendFails(0), limits), Resume(0), limits)) == Written(w) + [w.writeQueue[0]]
  {
    assert w.drains == [w.drains[0]];
    var failed := Next(w, AppendFails(0), limits);
    assert failed == w.(drains := [Drain(0, Appending)]);
    assert failed.drains == [failed.drains[0]];
    var after := Next(failed, Resume(0), limits);
    assert after.current.entries == w.current.entries + [w.writeQueue[0]] && after.closed == w.closed;
  }

  // A failed append leaves the writer as it was exactly when it was that of the first item; in any case that
  // item is written next, so what the writer holds stays right exactly when it equals the item that was due.
  lemma FailureIsHarmlessExactly(w: Writer, limits: Limits)
    requires Inv(w, limits) && limits.maxNumberEntriesPerLog >= 1
    requires w.drains != [] && w.drains[0].waits.Appending?
    ensures
      var failed, due := Next(w, AppendFails(0), limits), w.writeQueue[w.drains[0].i];
      var after := Next(failed, Resume(0), limits);
      && (failed == w <==> w.drains[0].i == 0)
      && Written(after) == Written(w) + [w.writeQueue[0]]
      && (Taken(after) == Taken(w) <==> w.writeQueue[0] == due)
  {
    var i := w.drains[0].i;
    assert w.drains == [Drain(i, Appending)];
    var failed := Next(w, AppendFails(0), limits);
    assert failed == w.(drains := [Drain(0, Appending)]);
    assert failed.drains == [failed.drains[0]];
    var after := Next(failed, Resume(0), limits);
    assert after.current.entries == w.current.entries + [w.writeQueue[0]] && after.closed == w.closed;
    assert Written(after) == Written(w) + [w.writeQueue[0]];
    assert w.writeQueue[i..] == [w.writeQueue[i]] + w.writeQueue[i + 1..];
    HeldAfterRetry(w, after);
  }

  lemma HeldAfterRetry(w: Writer, after: Writer)
    requires w.dataWriteIndex < |w.writeQueue| && Written(after) == Written(w) + [w.writeQueue[0]]
    requires Pending(after) == w.writeQueue[w.dataWriteIndex + 1..]
    ensures Taken(after) == Taken(w) <==> w.writeQueue[0] == w.writeQueue[w.dataWriteIndex]
  {
    var i, written := w.dataWriteIndex, Written(w);
    assert w.writeQueue[i..] == [w.writeQueue[i]] + w.writeQueue[i + 1..];
    assert Taken(after)[|written|] == w.writeQueue[0] && Taken(w)[|written|] == w.writeQueue[i];
  }

  // ----- the theorem -----

  function Given(event: Event): seq<nat> {
    if event.Push? then [event.data] else []
  }

  function Pushed(events: seq<Event>, k: nat): seq<nat>
    requires k <= |events|
  {
    if k == 0 then [] else
      Pushed(events, k - 1) + Given(events[k - 1])
  }

  // No append fails but that of the first item of a queue.
  predicate FailsFirstOnly(w: Writer, event: Event) {
    event.AppendFails? && event.run < |w.drains| && w.drains[event.run].waits.Appending? ==> w.drains[event.run].i == 0
  }

  ghost predicate IsStep(w: Writer, event: Event, after: Writer, limits: Limits) {
    FailsFirstOnly(w, event) && after == Next(w, event, limits)
  }

  ghost predicate IsRun(states: seq<Writer>, events: seq<Event>, limits: Limits) {
    && |states| == |events| + 1
    && Inv(states[0], limits) && limits.maxNumberEntriesPerLog >= 1
    && forall k :: 0 <= k < |events| ==> IsStep(states[k], events[k], states[k + 1], limits)
  }

  lemma NextKeeps(w: Writer, event: Event, limits: Limits)
    requires Inv(w, limits) && limits.maxNumberEntriesPerLog >= 1 && FailsFirstOnly(w, event)
    ensures Inv(Next(w, event, limits), limits)
    ensures Taken(Next(w, event, limits)) == Taken(w) + Given(event)
  {
    match event
    case Push(data) => PushKeeps(w, data, limits);
    case Resume(run) => ResumeKeeps(w, run, limits);
    case AppendFails(run) => FirstAppendMayFail(w, run, limits);
  }

  lemma StepKeeps(w: Writer, event: Event, after: Writer, limits: Limits)
    requires IsStep(w, event, after, limits) && Inv(w, limits) && limits.maxNumberEntriesPerLog >= 1
    ensures Inv(after, limits) && Taken(after) == Taken(w) + Given(event)
  {
    NextKeeps(w, event, limits);
  }

  // With pushes at any await: at most one run drains the queue, closed files are full and numbered in turn,
  // and the files and the queue hold every pushed item once, in order.
  lemma {:induction false} EveryItemOnceInOrder(states: seq<Writer>, events: seq<Event>, k: nat, limits: Limits)
    requires IsRun(states, events, limits) && k <= |events|
    ensures Inv(states[k], limits)
    ensures Taken(states[k]) == Taken(states[0]) + Pushed(events, k)
  {
    if k > 0 {
      EveryItemOnceInOrder(states, events, k - 1, limits);
      StepKeeps(states[k - 1], events[k - 1], states[k], limits);
      Regroup(Taken(states[0]), Pushed(events, k - 1), Given(events[k - 1]));
    }
  }

  // A writer that starts idle and is idle again has written everything that was pushed.
  lemma IdleMeansWritten(states: seq<Writer>, events: seq<Event>, limits: Limits)
    requires IsRun(states, events, limits) && !states[0].isWriting && !states[|events|].isWriting
    ensures Written(states[|events|]) == Written(states[0]) + Pushed(events, |events|)
  {
    EveryItemOnceInOrder(states, events, |events|, limits);
    NothingPending(states[0], limits);
    NothingPending(states[|events|], limits);
  }

  lemma NothingPending(w: Writer, limits: Limits)
    requires Inv(w, limits) && !w.isWriting
    ensures Taken(w) == Written(w)
  {
    assert Pending(w) == [];
  }

  // ----- the drain comes to its end -----

  function Resumed(w: Writer, times: nat, limits: Limits): Writer
    decreases times
  {
    if times == 0 then w else Resumed(Next(w, Resume(0), limits), times - 1, limits)
  }

  function AwaitsLeft(w: Writer): nat {
    if w.drains == [] then 0 else
      5 * |Pending(w)| + match w.drains[0].waits
        case ClosingEntry => 5
        case EndingStream => 4
        case Rotating => 3
        case Activating => 2
        case Appending => 1
  }

  lemma FewerAwaitsLeft(w: Writer, limits: Limits)
    requires Inv(w, limits) && limits.maxNumberEntriesPerLog >= 1 && w.isWriting
    ensures AwaitsLeft(Next(w, Resume(0), limits)) < AwaitsLeft(w)
  {
    assert w.drains == [w.drains[0]];
    var after := Next(w, Resume(0), limits);
    if w.drains[0].waits.Appending? {
      ResumeKeeps(w, 0, limits);
      assert |Pending(after)| == |Pending(w)| - 1;
    }
  }

  // A writer whose awaits all succeed, with no more pushes, becomes idle and has written all it held.
  lemma {:induction false} DrainWritesAll(w: Writer, limits: Limits) returns (times: nat)
    requires Inv(w, limits) && limits.maxNumberEntriesPerLog >= 1
    ensures
      var after := Resumed(w, times, limits);
      Inv(after, limits) && !after.isWriting && after.writeQueue == [] && Written(after) == Taken(w)
    decreases AwaitsLeft(w)
  {
    if !w.isWriting {
      times := 0;
      NothingPending(w, limits);
    } else {
      FewerAwaitsLeft(w, limits);
      ResumeKeeps(w, 0, limits);
      var later := DrainWritesAll(Next(w, Resume(0), limits), limits);
      times := later + 1;
    }
  }

  // ----- the code -----

  class DataLogWriter {
    const limits: Limits
    var writeQueue: seq<nat>
    var isWriting: bool
    var dataWriteIndex: nat
    var totalNumberOfEntries: nat
    var logCounter: nat
    var closed: seq<LogFile>
    var current: LogFile
    var drains: seq<Drain>

    ghost function State(): Writer
      reads this
    {
      Writer(writeQueue, isWriting, dataWriteIndex, totalNumberOfEntries, logCounter, closed, current, drains)
    }

    constructor (logCounter: nat, limits: Limits)
      requires 1 <= logCounter <= limits.maxLogCounter
      ensures this.limits == limits && Inv(State(), limits) && Written(State()) == [] && !isWriting
    {
      this.limits, this.logCounter := limits, logCounter;
      writeQueue, isWriting, dataWriteIndex, totalNumberOfEntries := [], false, 0, 0;
      closed, current, drains := [], LogFile(logCounter, []), [];
    }

    method WriteToLog(data: nat)
      modifies this
      ensures State() == Next(old(State()), Push(data), limits)
    {
      writeQueue := writeQueue + [data];
      if !isWriting {
        isWriting := true;
        var drain := ToNextAwait(0);
        drains := drains + drain;
      }
    }

    // The loops of insertDataLog from the i-th item to the next await, or to the end.
    method ToNextAwait(start: nat) returns (drain: seq<Drain>)
      modifies this`writeQueue, this`dataWriteIndex, this`isWriting
      ensures Stretch(State(), drain) == AtItem(old(State()), start, limits)
    {
      var i: nat := start;
      while true
        invariant AtItem(State(), i, limits) == AtItem(old(State()), start, limits)
        decreases |writeQueue|, if i < |writeQueue| then 0 else 1
      {
        if i < |writeQueue| {
          if totalNumberOfEntries == limits.maxNumberEntriesPerLog {
            return [Drain(i, ClosingEntry)];
          }
          return [Drain(i, Appending)];
        }
        var written := if dataWriteIndex <= |writeQueue| then dataWriteIndex else |writeQueue|;
        writeQueue := writeQueue[written..];
        dataWriteIndex := 0;
        if |writeQueue| == 0 {
          isWriting := false;
          return [];
        }
        i := 0;
      }
    }

    method ResumeWriting(run: nat)
      requires run < |drains|
      modifies this
      ensures State() == Next(old(State()), Resume(run), limits)
    {
      var drain := AfterAwait(drains[run]);
      drains := drains[..run] + drain + drains[run + 1..];
    }

    // What follows an await that succeeded, up to the next one.
    method AfterAwait(d: Drain) returns (drain: seq<Drain>)
      modifies this
      ensures drains == old(drains)
      ensures Stretch(State(), drain) == Continue(old(State()), d, limits)
    {
      match d.waits {
        case ClosingEntry => drain := [Drain(d.i, EndingStream)];
        case EndingStream =>
          totalNumberOfEntries := 0;
          closed := closed + [current];
          logCounter := logCounter + 1;
          if logCounter > limits.maxLogCounter {
            logCounter := 1;
          }
          drain := [Drain(d.i, Rotating)];
        case Rotating =>
          current := LogFile(logCounter, []);
          drain := [Drain(d.i, Activating)];
        case Activating => drain := [Drain(d.i, Appending)];
        case Appending =>
          if d.i < |writeQueue| {
            current := LogFile(current.number, current.entries + [writeQueue[d.i]]);
            dataWriteIndex := dataWriteIndex + 1;
            totalNumberOfEntries := totalNumberOfEntries + 1;
            drain := ToNextAwait(d.i + 1);
          } else {
            drain := ToNextAwait(d.i);
          }
      }
    }

    // The catch block: an append that failed starts the pass over the queue again.
    method RetryWriting(run: nat)
      requires run < |drains| && drains[run].waits.Appending?
      modifies this
      ensures State() == Next(old(State()), AppendFails(run), limits)
    {
      var drain := ToNextAwait(0);
      drains := drains[..run] + drain + drains[run + 1..];
    }
  }
}
