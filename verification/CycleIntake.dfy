/** Collecting cycle records until enough senders agree, and processing them (src/Data/Data.ts:354-460,
    src/Data/Cycles.ts:58-110). */
module CycleIntake {
  import opened Basics

  datatype Cycle = Cycle(counter: nat, marker: nat, content: nat)

  datatype Tracked = Tracked(cycleInfo: Cycle, receivedTimes: nat, saved: bool, senderNodes: seq<nat>)

  // One record arriving from one sender: whether it passes validation, and the confirmations asked for.
  datatype Report = Report(cycle: Cycle, sender: nat, valid: bool, threshold: nat)

  // ----- the confirmations asked for -----

  // Math.ceil(a / b)
  function CeilDiv(a: nat, b: nat): (q: nat)
    requires 0 < b
    ensures a <= q * b < a + b
  {
    var q := (a + b - 1) / b;
    assert q * b + (a + b - 1) % b == a + b - 1;
    q
  }

  lemma QuotientAtMost(a: nat, b: nat, q: nat, k: nat)
    requires 0 < b && a <= q * b < a + b
    ensures q <= k <==> a <= k * b
  {
    if q <= k {
      MulMonotone(q, k, b);
    } else {
      MulMonotone(k + 1, q, b);
      assert (k + 1) * b == k * b + b;
    }
  }

  // Math.min(Math.ceil(active / radius), 5), where x / 0 is NaN or Infinity.
  function Fewest(activeCount: nat, radius: nat): (fewest: nat)
    ensures fewest == 0 <==> activeCount == 0
    ensures 0 < activeCount <= 4 * radius ==> (fewest - 1) * radius < activeCount <= fewest * radius && fewest <= 4
    ensures activeCount > 4 * radius ==> fewest == 5
  {
    if activeCount == 0 then 0
    else if radius == 0 then 5
    else
      var q := CeilDiv(activeCount, radius);
      assert (q <= 4 <==> activeCount <= 4 * radius) && q > 0 by {
        QuotientAtMost(activeCount, radius, q, 4);
        QuotientAtMost(activeCount, radius, q, 0);
      }
      assert (q - 1) * radius == q * radius - radius;
      Min(q, 5)
  }

  // The fewest, or the fallback when that is falsy; a cap of 5 can be raised.
  function MinCycleConfirmations(activeCount: nat, radius: nat, counter: nat, configured: int): (threshold: nat)
    ensures threshold >= 1
    ensures activeCount == 0 ==> threshold == if counter <= 15 then 1 else 3
    ensures 0 < activeCount <= 4 * radius ==>
      (threshold - 1) * radius < activeCount <= threshold * radius && threshold <= 4
    ensures activeCount > 4 * radius ==> threshold == if configured > 5 then configured else 5
  {
    var fewest := Fewest(activeCount, radius);
    var confirmations := if fewest > 0 then fewest else if counter <= 15 then 1 else 3;
    if confirmations == 5 && configured > 5 then configured else confirmations
  }

  // ----- the records tracked for one counter -----

  function FindFrom(entries: seq<Tracked>, marker: nat, from: nat): (i: nat)
    requires from <= |entries|
    ensures from <= i <= |entries| && (i < |entries| ==> entries[i].cycleInfo.marker == marker)
    ensures forall j :: from <= j < i ==> entries[j].cycleInfo.marker != marker
    decreases |entries| - from
  {
    if from == |entries| || entries[from].cycleInfo.marker == marker then from else FindFrom(entries, marker, from + 1)
  }

  // The place of a marker among the tracked records, or their number.
  function Find(entries: seq<Tracked>, marker: nat): nat {
    FindFrom(entries, marker, 0)
  }

  // A new marker is only tracked if its record is valid.
  predicate Rejected(entries: seq<Tracked>, report: Report) {
    Find(entries, report.cycle.marker) == |entries| && !report.valid
  }

  function Noted(entries: seq<Tracked>, report: Report): (after: seq<Tracked>)
    ensures Find(entries, report.cycle.marker) < |after|
  {
    var i := Find(entries, report.cycle.marker);
    if i == |entries| then entries + [Tracked(report.cycle, 1, false, [report.sender])]
    else if report.sender in entries[i].senderNodes then entries
    else entries[i := entries[i].(
      receivedTimes := entries[i].receivedTimes + 1, senderNodes := entries[i].senderNodes + [report.sender])]
  }

  // The loop over the tracked records from the i-th: marks those with enough confirmations, and counts
  // how often the record at `current` is pushed; a saved record ends it and takes the pushes back.
  function Mark(entries: seq<Tracked>, current: nat, threshold: nat, i: nat, pushed: nat): (r: (seq<Tracked>, nat))
    requires current < |entries| && i <= |entries|
    ensures |r.0| == |entries|
    decreases |entries| - i
  {
    if i == |entries| then (entries, pushed)
    else if entries[i].saved then
      (if pushed > 0 then entries[current := entries[current].(saved := false)] else entries, 0)
    else if entries[i].receivedTimes >= threshold then
      Mark(entries[i := entries[i].(saved := true)], current, threshold, i + 1, pushed + 1)
    else Mark(entries, current, threshold, i + 1, pushed)
  }

  // The tracked records after a report, and the records handed to processCycles.
  function Step(entries: seq<Tracked>, report: Report): (seq<Tracked>, seq<Cycle>) {
    if Rejected(entries, report) then (entries, []) else
      var noted, current := Noted(entries, report), Find(entries, report.cycle.marker);
      var (after, pushes) := Mark(noted, current, report.threshold, 0, 0);
      (after, seq(pushes, _ => noted[current].cycleInfo))
  }

  function After(reports: seq<Report>, k: nat): seq<Tracked>
    requires k <= |reports|
  {
    if k == 0 then [] else Step(After(reports, k - 1), reports[k - 1]).0
  }

  // What the k-th report hands over.
  function HandedAt(reports: seq<Report>, k: nat): seq<Cycle>
    requires k < |reports|
  {
    Step(After(reports, k), reports[k]).1
  }

  // ----- at most one hand-over -----

  ghost predicate NoneSaved(entries: seq<Tracked>) {
    forall i :: 0 <= i < |entries| ==> !entries[i].saved
  }

  // Marking touches nothing but the saved flags.
  ghost predicate SameReports(a: seq<Tracked>, b: seq<Tracked>) {
    |a| == |b| && forall i :: 0 <= i < |a| ==> a[i].(saved := false) == b[i].(saved := false)
  }

  lemma {:induction false} MarkKeepsReports(entries: seq<Tracked>, current: nat, threshold: nat, i: nat, pushed: nat)
    requires current < |entries| && i <= |entries|
    ensures SameReports(entries, Mark(entries, current, threshold, i, pushed).0)
    decreases |entries| - i
  {
    if i < |entries| && !entries[i].saved {
      var next := if entries[i].receivedTimes >= threshold then entries[i := entries[i].(saved := true)] else entries;
      var more := if entries[i].receivedTimes >= threshold then 1 else 0;
      MarkKeepsReports(next, current, threshold, i + 1, pushed + more);
    }
  }

  // Once a record is saved, nothing is pushed and some record stays saved.
  lemma {:induction false} MarkAfterSaved(
      entries: seq<Tracked>, current: nat, threshold: nat, i: nat, pushed: nat, saved: nat, marked: nat)
    requires current < |entries| && i <= saved < |entries| && entries[saved].saved
    requires pushed > 0 ==> marked < i && entries[marked].saved
    ensures Mark(entries, current, threshold, i, pushed).1 == 0
    ensures !NoneSaved(Mark(entries, current, threshold, i, pushed).0)
    decreases |entries| - i
  {
    if entries[i].saved {
      var after := Mark(entries, current, threshold, i, pushed).0;
      assert after[i].saved || (pushed > 0 && after[marked].saved);
    } else if entries[i].receivedTimes >= threshold {
      MarkAfterSaved(entries[i := entries[i].(saved := true)], current, threshold, i + 1, pushed + 1, saved, i);
    } else {
      MarkAfterSaved(entries, current, threshold, i + 1, pushed, saved, marked);
    }
  }

  // The number of records from the i-th with enough confirmations.
  function Enough(entries: seq<Tracked>, threshold: nat, i: nat): nat
    requires i <= |entries|
    decreases |entries| - i
  {
    if i == |entries| then 0
    else (if entries[i].receivedTimes >= threshold then 1 else 0) + Enough(entries, threshold, i + 1)
  }

  // While none is saved, every record with enough confirmations is marked and brings one push.
  lemma {:induction false} MarkWhileNoneSaved(
      before: seq<Tracked>, entries: seq<Tracked>, current: nat, threshold: nat, i: nat, pushed: nat)
    requires NoneSaved(before) && current < |entries| && i <= |entries| && SameReports(before, entries)
    requires forall j :: 0 <= j < |entries| ==> (entries[j].saved <==> j < i && before[j].receivedTimes >= threshold)
    ensures
      var (after, pushes) := Mark(entries, current, threshold, i, pushed);
      && SameReports(before, after) && pushes == pushed + Enough(before, threshold, i)
      && forall j :: 0 <= j < |after| ==> (after[j].saved <==> before[j].receivedTimes >= threshold)
    decreases |entries| - i
  {
    if i < |entries| {
      assert entries[i].(saved := false) == before[i].(saved := false);
      var next := if entries[i].receivedTimes >= threshold then entries[i := entries[i].(saved := true)] else entries;
      var more := if entries[i].receivedTimes >= threshold then 1 else 0;
      MarkWhileNoneSaved(before, next, current, threshold, i + 1, pushed + more);
    }
  }

  lemma {:induction false} EnoughIsSome(entries: seq<Tracked>, threshold: nat, i: nat)
    requires i <= |entries|
    ensures Enough(entries, threshold, i) == 0 <==>
      forall j :: i <= j < |entries| ==> entries[j].receivedTimes < threshold
    decreases |entries| - i
  {
    if i < |entries| {
      EnoughIsSome(entries, threshold, i + 1);
    }
  }

  // A report hands something over exactly when nothing was saved and now something is.
  lemma HandsOverOnce(entries: seq<Tracked>, report: Report)
    ensures Step(entries, report).1 != [] <==> NoneSaved(entries) && !NoneSaved(Step(entries, report).0)
    ensures !NoneSaved(entries) ==> !NoneSaved(Step(entries, report).0)
  {
    if !Rejected(entries, report) {
      var noted, current := Noted(entries, report), Find(entries, report.cycle.marker);
      if NoneSaved(entries) {
        MarkWhileNoneSaved(noted, noted, current, report.threshold, 0, 0);
        EnoughIsSome(noted, report.threshold, 0);
      } else {
        var saved :| 0 <= saved < |entries| && entries[saved].saved;
        assert noted[saved].saved;
        MarkAfterSaved(noted, current, report.threshold, 0, 0, saved, 0);
      }
    }
  }

  // Over all the reports for a counter, at most one hands anything over.
  lemma {:induction false} AtMostOneHandOver(reports: seq<Report>, i: nat, j: nat)
    requires i < j < |reports| && HandedAt(reports, i) != []
    ensures HandedAt(reports, j) == [] && !NoneSaved(After(reports, j))
  {
    HandsOverOnce(After(reports, j - 1), reports[j - 1]);
    HandsOverOnce(After(reports, j), reports[j]);
    if i < j - 1 {
      AtMostOneHandOver(reports, i, j - 1);
    }
  }

  // ----- enough distinct senders -----

  // The distinct senders of a marker among the first k reports, from its first valid record on.
  function Reporters(reports: seq<Report>, k: nat, marker: nat): seq<nat>
    requires k <= |reports|
  {
    if k == 0 then [] else
      var front, report := Reporters(reports, k - 1, marker), reports[k - 1];
      if report.cycle.marker != marker || (front == [] && !report.valid) || report.sender in front then front
      else front + [report.sender]
  }

  lemma {:induction false} ReportersAreDistinct(reports: seq<Report>, k: nat, marker: nat)
    requires k <= |reports|
    ensures forall i, j :: 0 <= i < j < |Reporters(reports, k, marker)| ==>
      Reporters(reports, k, marker)[i] != Reporters(reports, k, marker)[j]
  {
    if k > 0 {
      ReportersAreDistinct(reports, k - 1, marker);
    }
  }

  // The first k reports hold one of a marker by a sender, at or behind a valid one of that marker.
  ghost predicate Reported(reports: seq<Report>, k: nat, marker: nat, sender: nat)
    requires k <= |reports|
  {
    exists i, j :: 0 <= i <= j < k && reports[i].cycle.marker == marker && reports[i].valid
      && reports[j].cycle.marker == marker && reports[j].sender == sender
  }

  lemma {:induction false} ReportersReported(reports: seq<Report>, k: nat, marker: nat, sender: nat)
    requires k <= |reports|
    ensures sender in Reporters(reports, k, marker) <==> Reported(reports, k, marker, sender)
  {
    if k > 0 {
      var report := reports[k - 1];
      ReportersReported(reports, k - 1, marker, sender);
      if report.cycle.marker == marker && report.sender == sender {
        LatestReported(reports, k, marker, sender);
      } else {
        assert Reported(reports, k, marker, sender) <==> Reported(reports, k - 1, marker, sender);
      }
    }
  }

  // A marker has reporters exactly when one of its reports is valid.
  lemma {:induction false} ReportersIffValid(reports: seq<Report>, k: nat, marker: nat)
    requires k <= |reports|
    ensures Reporters(reports, k, marker) != [] <==>
      exists i :: 0 <= i < k && reports[i].cycle.marker == marker && reports[i].valid
  {
    if k > 0 {
      ReportersIffValid(reports, k - 1, marker);
    }
  }

  lemma LatestReported(reports: seq<Report>, k: nat, marker: nat, sender: nat)
    requires 0 < k <= |reports| && reports[k - 1].cycle.marker == marker && reports[k - 1].sender == sender
    ensures sender in Reporters(reports, k, marker) <==> Reported(reports, k, marker, sender)
  {
    ReportersIffValid(reports, k, marker);
    var front := Reporters(reports, k - 1, marker);
    if front == [] && !reports[k - 1].valid {
      ReportersIffValid(reports, k - 1, marker);
    } else {
      assert sender in Reporters(reports, k, marker);
      var i :| 0 <= i < k && reports[i].cycle.marker == marker && reports[i].valid;
      assert 0 <= i <= k - 1 < k && reports[k - 1].sender == sender;
    }
  }

  ghost predicate Absent(entries: seq<Tracked>, marker: nat) {
    forall i :: 0 <= i < |entries| ==> entries[i].cycleInfo.marker != marker
  }

  // The tracked records list exactly the reporters of each marker.
  ghost predicate Lists(entries: seq<Tracked>, reports: seq<Report>, k: nat)
    requires k <= |reports|
  {
    && (forall i :: 0 <= i < |entries| ==> IsTracked(entries[i], reports, k))
    && (forall marker :: Absent(entries, marker) ==> Reporters(reports, k, marker) == [])
    && (forall i, j :: 0 <= i < j < |entries| ==> entries[i].cycleInfo.marker != entries[j].cycleInfo.marker)
  }

  ghost predicate IsTracked(entry: Tracked, reports: seq<Report>, k: nat)
    requires k <= |reports|
  {
    && entry.senderNodes == Reporters(reports, k, entry.cycleInfo.marker)
    && entry.receivedTimes == |entry.senderNodes| > 0
  }

  lemma NotedLists(entries: seq<Tracked>, reports: seq<Report>, k: nat)
    requires k < |reports| && Lists(entries, reports, k)
    ensures Lists(if Rejected(entries, reports[k]) then entries else Noted(entries, reports[k]), reports, k + 1)
  {
    var report := reports[k];
    var current := Find(entries, report.cycle.marker);
    var after := if Rejected(entries, report) then entries else Noted(entries, report);
    if current == |entries| {
      assert Absent(entries, report.cycle.marker);
    }
    forall i | 0 <= i < |after| ensures IsTracked(after[i], reports, k + 1) {
      if i < |entries| {
        assert IsTracked(entries[i], reports, k);
      }
    }
    forall marker | Absent(after, marker) ensures Reporters(reports, k + 1, marker) == [] {
      SameAbsent(entries, after, marker);
      assert !Rejected(entries, report) ==> after[current].cycleInfo.marker != marker;
    }
  }

  lemma SameAbsent(entries: seq<Tracked>, after: seq<Tracked>, marker: nat)
    requires |entries| <= |after| && forall i :: 0 <= i < |entries| ==> entries[i].cycleInfo == after[i].cycleInfo
    requires Absent(after, marker)
    ensures Absent(entries, marker)
  {
    forall i | 0 <= i < |entries| ensures entries[i].cycleInfo.marker != marker {
      assert after[i].cycleInfo.marker != marker;
    }
  }

  lemma SameReportsLists(a: seq<Tracked>, b: seq<Tracked>, reports: seq<Report>, k: nat)
    requires k <= |reports| && SameReports(a, b) && Lists(a, reports, k)
    ensures Lists(b, reports, k)
  {
    forall i | 0 <= i < |b| ensures a[i].cycleInfo == b[i].cycleInfo && IsTracked(b[i], reports, k) {
      assert a[i].(saved := false) == b[i].(saved := false) && IsTracked(a[i], reports, k);
    }
    forall marker | Absent(b, marker) ensures Reporters(reports, k, marker) == [] {
      SameAbsent(a, b, marker);
    }
  }

  lemma StepLists(entries: seq<Tracked>, reports: seq<Report>, k: nat)
    requires k < |reports| && Lists(entries, reports, k)
    ensures Lists(Step(entries, reports[k]).0, reports, k + 1)
  {
    var report := reports[k];
    NotedLists(entries, reports, k);
    if !Rejected(entries, report) {
      var noted, current := Noted(entries, report), Find(entries, report.cycle.marker);
      MarkKeepsReports(noted, current, report.threshold, 0, 0);
      SameReportsLists(noted, Step(entries, report).0, reports, k + 1);
    }
  }

  lemma {:induction false} TrackerListsReporters(reports: seq<Report>, k: nat)
    requires k <= |reports|
    ensures Lists(After(reports, k), reports, k)
  {
    if k > 0 {
      TrackerListsReporters(reports, k - 1);
      StepLists(After(reports, k - 1), reports, k - 1);
    }
  }

  // The confirmations asked for never drop.
  ghost predicate NeverDrops(reports: seq<Report>) {
    forall i, j :: 0 <= i < j < |reports| ==> reports[i].threshold <= reports[j].threshold
  }

  ghost predicate AllBelow(entries: seq<Tracked>, threshold: nat) {
    forall i :: 0 <= i < |entries| ==> entries[i].receivedTimes < threshold
  }

  // While none is saved, every record is short of the last threshold.
  lemma NoneSavedMeansBelow(entries: seq<Tracked>, report: Report)
    requires NoneSaved(Step(entries, report).0) && (entries != [] ==> AllBelow(entries, report.threshold))
    ensures AllBelow(Step(entries, report).0, report.threshold)
  {
    HandsOverOnce(entries, report);
    if !Rejected(entries, report) {
      MarkWhileNoneSaved(
        Noted(entries, report), Noted(entries, report), Find(entries, report.cycle.marker), report.threshold, 0, 0);
    }
  }

  lemma {:induction false} UnsavedAreBelow(reports: seq<Report>, k: nat)
    requires 0 < k <= |reports| && NeverDrops(reports) && NoneSaved(After(reports, k))
    ensures AllBelow(After(reports, k), reports[k - 1].threshold)
  {
    HandsOverOnce(After(reports, k - 1), reports[k - 1]);
    if k > 1 {
      UnsavedAreBelow(reports, k - 1);
      assert reports[k - 2].threshold <= reports[k - 1].threshold;
    }
    NoneSavedMeansBelow(After(reports, k - 1), reports[k - 1]);
  }

  // If the threshold never drops, what is handed over is one record, its marker reported
  // by at least the threshold of distinct senders.
  lemma HandedIsConfirmed(reports: seq<Report>, k: nat)
    requires k < |reports| && NeverDrops(reports) && HandedAt(reports, k) != []
    ensures |HandedAt(reports, k)| == 1 && HandedAt(reports, k)[0].marker == reports[k].cycle.marker
    ensures |Reporters(reports, k + 1, reports[k].cycle.marker)| >= reports[k].threshold
  {
    var entries, report := After(reports, k), reports[k];
    HandsOverOnce(entries, report);
    if k > 0 {
      UnsavedAreBelow(reports, k);
      assert reports[k - 1].threshold <= report.threshold;
    }
    TrackerListsReporters(reports, k);
    OnlyCurrentIsEnough(entries, report);
    CurrentListsReporters(entries, reports, k);
  }

  lemma CurrentListsReporters(entries: seq<Tracked>, reports: seq<Report>, k: nat)
    requires k < |reports| && Lists(entries, reports, k) && !Rejected(entries, reports[k])
    ensures
      var current := Noted(entries, reports[k])[Find(entries, reports[k].cycle.marker)];
      && current.cycleInfo.marker == reports[k].cycle.marker
      && current.receivedTimes == |Reporters(reports, k + 1, reports[k].cycle.marker)|
  {
    NotedLists(entries, reports, k);
    var noted, current := Noted(entries, reports[k]), Find(entries, reports[k].cycle.marker);
    assert IsTracked(noted[current], reports, k + 1);
  }

  lemma OnlyCurrentIsEnough(entries: seq<Tracked>, report: Report)
    requires NoneSaved(entries) && AllBelow(entries, report.threshold) && Step(entries, report).1 != []
    ensures
      var noted, current := Noted(entries, report), Find(entries, report.cycle.marker);
      noted[current].receivedTimes >= report.threshold && Step(entries, report).1 == [noted[current].cycleInfo]
  {
    var noted, current := Noted(entries, report), Find(entries, report.cycle.marker);
    MarkWhileNoneSaved(noted, noted, current, report.threshold, 0, 0);
    EnoughIsSome(noted, report.threshold, 0);
    EnoughIsAtMostOne(noted, report.threshold, 0, current);
  }

  lemma {:induction false} EnoughIsAtMostOne(entries: seq<Tracked>, threshold: nat, i: nat, current: nat)
    requires i <= |entries| && current < |entries|
    requires forall j :: i <= j < |entries| && j != current ==> entries[j].receivedTimes < threshold
    ensures Enough(entries, threshold, i) ==
      if i <= current && entries[current].receivedTimes >= threshold then 1 else 0
    decreases |entries| - i
  {
    if i < |entries| {
      EnoughIsAtMostOne(entries, threshold, i + 1, current);
    }
  }

  // Whatever the thresholds: a report hands over a record short of confirmations exactly when nothing was
  // saved, the record is short of them, and another tracked one is not.
  lemma UnconfirmedExactly(entries: seq<Tracked>, report: Report)
    requires !Rejected(entries, report)
    ensures
      var noted, current := Noted(entries, report), Find(entries, report.cycle.marker);
      (Step(entries, report).1 != [] && noted[current].receivedTimes < report.threshold) <==>
        && NoneSaved(entries) && noted[current].receivedTimes < report.threshold
        && exists other :: 0 <= other < |noted| && noted[other].receivedTimes >= report.threshold
  {
    HandsOverOnce(entries, report);
    var noted, current := Noted(entries, report), Find(entries, report.cycle.marker);
    if NoneSaved(entries) {
      MarkWhileNoneSaved(noted, noted, current, report.threshold, 0, 0);
      EnoughIsSome(noted, report.threshold, 0);
    }
  }

  // ----- the record that is handed over -----

  // The record of the first valid report of its marker.
  ghost predicate IsFirstValid(reports: seq<Report>, k: nat, cycle: Cycle)
    requires k <= |reports|
  {
    exists j :: 0 <= j < k && reports[j].valid && reports[j].cycle == cycle
      && forall i :: 0 <= i < j && reports[i].cycle.marker == cycle.marker ==> !reports[i].valid
  }

  // No valid report of the marker.
  ghost predicate NoneValid(reports: seq<Report>, k: nat, marker: nat)
    requires k <= |reports|
  {
    forall i :: 0 <= i < k && reports[i].cycle.marker == marker ==> !reports[i].valid
  }

  // Each tracked record is the first valid one of its marker, and other markers have none.
  ghost predicate HoldsFirst(entries: seq<Tracked>, reports: seq<Report>, k: nat)
    requires k <= |reports|
  {
    && (forall i :: 0 <= i < |entries| ==> IsFirstValid(reports, k, entries[i].cycleInfo))
    && (forall marker :: Absent(entries, marker) ==> NoneValid(reports, k, marker))
  }

  lemma StaysFirst(reports: seq<Report>, k: nat, cycle: Cycle)
    requires k < |reports| && IsFirstValid(reports, k, cycle)
    ensures IsFirstValid(reports, k + 1, cycle)
  {
  }

  lemma NotedHoldsFirst(entries: seq<Tracked>, reports: seq<Report>, k: nat)
    requires k < |reports| && HoldsFirst(entries, reports, k)
    ensures HoldsFirst(if Rejected(entries, reports[k]) then entries else Noted(entries, reports[k]), reports, k + 1)
  {
    var report := reports[k];
    var current := Find(entries, report.cycle.marker);
    var after := if Rejected(entries, report) then entries else Noted(entries, report);
    if current == |entries| {
      assert Absent(entries, report.cycle.marker);
      assert report.valid ==> IsFirstValid(reports, k + 1, report.cycle);
    }
    forall i | 0 <= i < |after| ensures IsFirstValid(reports, k + 1, after[i].cycleInfo) {
      if i < |entries| {
        StaysFirst(reports, k, entries[i].cycleInfo);
      }
    }
    forall marker | Absent(after, marker) ensures NoneValid(reports, k + 1, marker) {
      SameAbsent(entries, after, marker);
      assert !Rejected(entries, report) ==> after[current].cycleInfo.marker != marker;
    }
  }

  lemma SameReportsHoldFirst(a: seq<Tracked>, b: seq<Tracked>, reports: seq<Report>, k: nat)
    requires k <= |reports| && SameReports(a, b) && HoldsFirst(a, reports, k)
    ensures HoldsFirst(b, reports, k)
  {
    forall i | 0 <= i < |b| ensures a[i].cycleInfo == b[i].cycleInfo {
      assert a[i].(saved := false) == b[i].(saved := false);
    }
    forall marker | Absent(b, marker) ensures NoneValid(reports, k, marker) {
      SameAbsent(a, b, marker);
    }
  }

  lemma StepHoldsFirst(entries: seq<Tracked>, reports: seq<Report>, k: nat)
    requires k < |reports| && HoldsFirst(entries, reports, k)
    ensures HoldsFirst(Step(entries, reports[k]).0, reports, k + 1)
  {
    var report := reports[k];
    NotedHoldsFirst(entries, reports, k);
    if !Rejected(entries, report) {
      var noted, current := Noted(entries, report), Find(entries, report.cycle.marker);
      MarkKeepsReports(noted, current, report.threshold, 0, 0);
      SameReportsHoldFirst(noted, Step(entries, report).0, reports, k + 1);
    }
  }

  lemma {:induction false} TrackerHoldsFirst(reports: seq<Report>, k: nat)
    requires k <= |reports|
    ensures HoldsFirst(After(reports, k), reports, k)
  {
    if k > 0 {
      TrackerHoldsFirst(reports, k - 1);
      StepHoldsFirst(After(reports, k - 1), reports, k - 1);
    }
  }

  // ----- how often the record is handed over -----

  // The markers among the first k reports that have reporters, and enough of them.
  ghost function Confirmed(reports: seq<Report>, k: nat, threshold: nat): set<nat>
    requires k <= |reports|
  {
    set marker | marker in (set j | 0 <= j < k :: reports[j].cycle.marker)
      && Reporters(reports, k, marker) != [] && |Reporters(reports, k, marker)| >= threshold
  }

  // The markers of the records from the i-th with enough confirmations.
  ghost function EnoughMarkers(entries: seq<Tracked>, threshold: nat, i: nat): set<nat>
    requires i <= |entries|
  {
    set j | i <= j < |entries| && entries[j].receivedTimes >= threshold :: entries[j].cycleInfo.marker
  }

  lemma {:induction false} EnoughCountsMarkers(entries: seq<Tracked>, threshold: nat, i: nat)
    requires i <= |entries|
    requires forall j, l :: 0 <= j < l < |entries| ==> entries[j].cycleInfo.marker != entries[l].cycleInfo.marker
    ensures Enough(entries, threshold, i) == |EnoughMarkers(entries, threshold, i)|
    decreases |entries| - i
  {
    if i < |entries| {
      EnoughCountsMarkers(entries, threshold, i + 1);
      var later := EnoughMarkers(entries, threshold, i + 1);
      assert entries[i].cycleInfo.marker !in later;
      assert EnoughMarkers(entries, threshold, i) ==
        later + if entries[i].receivedTimes >= threshold then {entries[i].cycleInfo.marker} else {};
    }
  }

  // Only markers that were reported have reporters.
  lemma {:induction false} ReportersWereReported(reports: seq<Report>, k: nat, marker: nat)
    requires k <= |reports| && Reporters(reports, k, marker) != []
    ensures exists j :: 0 <= j < k && reports[j].cycle.marker == marker
  {
    if reports[k - 1].cycle.marker != marker {
      ReportersWereReported(reports, k - 1, marker);
    }
  }

  lemma ConfirmedAreEnough(entries: seq<Tracked>, reports: seq<Report>, k: nat, threshold: nat)
    requires k <= |reports| && Lists(entries, reports, k)
    ensures EnoughMarkers(entries, threshold, 0) == Confirmed(reports, k, threshold)
  {
    forall marker | marker in EnoughMarkers(entries, threshold, 0) ensures marker in Confirmed(reports, k, threshold) {
      var i :| 0 <= i < |entries| && entries[i].receivedTimes >= threshold && entries[i].cycleInfo.marker == marker;
      assert IsTracked(entries[i], reports, k);
      ReportersWereReported(reports, k, marker);
    }
    forall marker | marker in Confirmed(reports, k, threshold) ensures marker in EnoughMarkers(entries, threshold, 0) {
      assert !Absent(entries, marker);
      var i :| 0 <= i < |entries| && entries[i].cycleInfo.marker == marker;
      assert IsTracked(entries[i], reports, k);
    }
  }

  ghost predicate NothingHanded(reports: seq<Report>, k: nat)
    requires k <= |reports|
  {
    forall j :: 0 <= j < k ==> HandedAt(reports, j) == []
  }

  lemma NothingHandedNext(reports: seq<Report>, k: nat)
    requires k < |reports|
    ensures NothingHanded(reports, k + 1) <==> NothingHanded(reports, k) && HandedAt(reports, k) == []
  {
  }

  // Nothing is saved exactly while nothing has been handed over.
  lemma {:induction false} SavedOnceHanded(reports: seq<Report>, k: nat)
    requires k <= |reports|
    ensures NoneSaved(After(reports, k)) <==> NothingHanded(reports, k)
  {
    if k > 0 {
      SavedOnceHanded(reports, k - 1);
      HandsOverOnce(After(reports, k - 1), reports[k - 1]);
      NothingHandedNext(reports, k - 1);
    }
  }

  lemma PushesAreEnough(entries: seq<Tracked>, report: Report)
    requires !Rejected(entries, report)
    ensures
      var noted, current := Noted(entries, report), Find(entries, report.cycle.marker);
      var count := if NoneSaved(entries) then Enough(noted, report.threshold, 0) else 0;
      Step(entries, report).1 == seq(count, _ => noted[current].cycleInfo)
  {
    HandsOverOnce(entries, report);
    var noted, current := Noted(entries, report), Find(entries, report.cycle.marker);
    if NoneSaved(entries) {
      MarkWhileNoneSaved(noted, noted, current, report.threshold, 0, 0);
    }
  }

  // A marker stays without reporters exactly when its report is rejected.
  lemma RejectedHasNone(entries: seq<Tracked>, reports: seq<Report>, k: nat)
    requires k < |reports| && Lists(entries, reports, k)
    ensures Rejected(entries, reports[k]) <==> Reporters(reports, k + 1, reports[k].cycle.marker) == []
  {
    var marker, i := reports[k].cycle.marker, Find(entries, reports[k].cycle.marker);
    if i < |entries| {
      assert IsTracked(entries[i], reports, k);
    } else {
      assert Absent(entries, marker);
    }
  }

  // As many records are handed over as markers are confirmed, while none is saved.
  lemma HandedAreConfirmed(entries: seq<Tracked>, reports: seq<Report>, k: nat)
    requires k < |reports| && Lists(entries, reports, k) && !Rejected(entries, reports[k])
    ensures |Step(entries, reports[k]).1| ==
      if NoneSaved(entries) then |Confirmed(reports, k + 1, reports[k].threshold)| else 0
  {
    var noted := Noted(entries, reports[k]);
    PushesAreEnough(entries, reports[k]);
    NotedLists(entries, reports, k);
    EnoughCountsMarkers(noted, reports[k].threshold, 0);
    ConfirmedAreEnough(noted, reports, k + 1, reports[k].threshold);
  }

  // Each of them is the first valid record of the marker reported.
  lemma HandedAreFirst(entries: seq<Tracked>, reports: seq<Report>, k: nat)
    requires k < |reports| && HoldsFirst(entries, reports, k) && !Rejected(entries, reports[k])
    ensures forall cycle :: cycle in Step(entries, reports[k]).1 ==>
      cycle.marker == reports[k].cycle.marker && IsFirstValid(reports, k + 1, cycle)
  {
    PushesAreEnough(entries, reports[k]);
    NotedHoldsFirst(entries, reports, k);
  }

  // Whatever the thresholds: the first valid record of the marker reported is handed over once for each marker
  // that has enough distinct reporters by then, unless something was handed over before or the report is rejected.
  lemma HandedExactly(reports: seq<Report>, k: nat)
    requires k < |reports|
    ensures
      var handed, marker := HandedAt(reports, k), reports[k].cycle.marker;
      && (forall i :: 0 <= i < |handed| ==> handed[i].marker == marker && IsFirstValid(reports, k + 1, handed[i]))
      && |handed| ==
        if NothingHanded(reports, k) && Reporters(reports, k + 1, marker) != []
        then |Confirmed(reports, k + 1, reports[k].threshold)| else 0
  {
    TrackerListsReporters(reports, k);
    TrackerHoldsFirst(reports, k);
    SavedOnceHanded(reports, k);
    RejectedHasNone(After(reports, k), reports, k);
    if !Rejected(After(reports, k), reports[k]) {
      HandedAreConfirmed(After(reports, k), reports, k);
      HandedAreFirst(After(reports, k), reports, k);
    }
  }

  // When the threshold drops from 3 to 2 after marker 1 has two senders, the record of marker 2
  // is handed over with a single sender.
  lemma DroppedThresholdHandsOverTheWrongRecord()
    ensures
      var reports := [
        Report(Cycle(7, 1, 0), 10, true, 3), Report(Cycle(7, 1, 0), 11, true, 3), Report(Cycle(7, 2, 0), 12, true, 2)];
      HandedAt(reports, 2) == [Cycle(7, 2, 0)] && |Reporters(reports, 3, 2)| == 1 < reports[2].threshold
  {
    var a, b := Cycle(7, 1, 0), Cycle(7, 2, 0);
    var reports := [Report(a, 10, true, 3), Report(a, 11, true, 3), Report(b, 12, true, 2)];
    var one, two, three := Tracked(a, 1, false, [10]), Tracked(a, 2, false, [10, 11]), Tracked(b, 1, false, [12]);
    assert After(reports, 0) == [];
    assert Mark([one], 0, 3, 0, 0) == ([one], 0);
    assert Noted([], reports[0]) == [one];
    assert After(reports, 1) == [one];
    assert Noted([one], reports[1]) == [two] by {
      assert [10] + [11] == [10, 11] && [one][0 := two] == [two];
    }
    assert Mark([two], 0, 3, 0, 0) == ([two], 0);
    assert After(reports, 2) == [two];
    assert FindFrom([two], 2, 1) == 1 == Find([two], 2);
    assert Noted([two], reports[2]) == [two, three];
    var marked := [two.(saved := true), three];
    assert Mark(marked, 1, 2, 1, 1) == (marked, 1);
    assert [two, three][0 := two.(saved := true)] == marked;
    assert Mark([two, three], 1, 2, 0, 0) == (marked, 1);
    assert FindFrom([two, three], 2, 1) == 1 == Find([two, three], 2);
    assert reports[0].cycle.marker != 2 && reports[1].cycle.marker != 2;
    assert Reporters(reports, 0, 2) == [];
    assert Reporters(reports, 1, 2) == [];
    assert Reporters(reports, 2, 2) == [];
  }

  // ----- the archiver: trackers, and the interleaved runs of processCycles -----

  // One record of a message: what the lists and the configuration say when it is looked at.
  datatype Round = Round(cycle: Cycle, valid: bool, trusted: bool, activeCount: nat, radius: nat, configured: int)

  datatype Archiver = Archiver(
    histories: map<nat, seq<Report>>,
    currentCycleCounter: int,
    started: seq<Cycle>,
    suspended: seq<seq<Cycle>>)

  function ReportOf(round: Round, sender: nat): Report {
    Report(round.cycle, sender, round.valid,
      MinCycleConfirmations(round.activeCount, round.radius, round.cycle.counter, round.configured))
  }

  // The cycles a run of processCycles still has to look at once it skips the processed ones.
  function Unprocessed(cycles: seq<Cycle>, currentCycleCounter: int): seq<Cycle> {
    if cycles == [] then []
    else if cycles[0].counter <= currentCycleCounter then Unprocessed(cycles[1..], currentCycleCounter)
    else cycles
  }

  // Runs processCycles up to its next await.
  function Process(a: Archiver, cycles: seq<Cycle>): Archiver {
    var rest := Unprocessed(cycles, a.currentCycleCounter);
    if rest == [] then a else
      a.(currentCycleCounter := rest[0].counter, started := a.started + [rest[0]],
        suspended := a.suspended + [rest[1..]])
  }

  function HistoryOf(a: Archiver, counter: nat): seq<Report> {
    if counter in a.histories then a.histories[counter] else []
  }

  // A record: its tracker takes the report, and what it hands over is processed up to the first await.
  function Collect(a: Archiver, round: Round, sender: nat): Archiver {
    var counter, report := round.cycle.counter, ReportOf(round, sender);
    var history := HistoryOf(a, counter);
    if Rejected(After(history, |history|), report) then a else
      var longer := history + [report];
      var handed := HandedAt(longer, |history|);
      var noted := a.(histories := a.histories[counter := longer]);
      if handed == [] then noted else Process(noted, handed)
  }

  const MAX_CYCLES_IN_TRACKER := 5

  function OldCounters(counters: set<nat>, currentCycleCounter: int): set<nat> {
    set counter | counter in counters && counter < currentCycleCounter - MAX_CYCLES_IN_TRACKER
  }

  // Drops the trackers of old counters once there are too many.
  function ClearOld(a: Archiver): Archiver {
    if |a.histories| <= MAX_CYCLES_IN_TRACKER then a else
      a.(histories := a.histories - OldCounters(a.histories.Keys, a.currentCycleCounter))
  }

  // A message: its records in turn, up to one from an untrusted sender.
  function CollectAll(a: Archiver, rounds: seq<Round>, sender: nat): Archiver
    decreases |rounds|
  {
    if rounds == [] || !rounds[0].trusted then a
    else CollectAll(Collect(a, rounds[0], sender), rounds[1..], sender)
  }

  datatype Event =
    | Message(rounds: seq<Round>, sender: nat)
    | Call(cycles: seq<Cycle>)
    | Resume(run: nat)

  function Next(a: Archiver, event: Event): Archiver {
    match event
    case Message(rounds, sender) => ClearOld(CollectAll(a, rounds, sender))
    case Call(cycles) => Process(a, cycles)
    case Resume(run) =>
      if run >= |a.suspended| then a else
        Process(a.(suspended := a.suspended[..run] + a.suspended[run + 1..]), a.suspended[run])
  }

  function Run(a: Archiver, events: seq<Event>): Archiver {
    if events == [] then a else Next(Run(a, events[..|events| - 1]), events[|events| - 1])
  }

  // ----- started counters strictly increase -----

  ghost predicate Increasing(a: Archiver) {
    && (forall i, j :: 0 <= i < j < |a.started| ==> a.started[i].counter < a.started[j].counter)
    && (forall i :: 0 <= i < |a.started| ==> a.started[i].counter <= a.currentCycleCounter)
  }

  lemma {:induction false} UnprocessedIsNew(cycles: seq<Cycle>, currentCycleCounter: int)
    ensures
      var rest := Unprocessed(cycles, currentCycleCounter);
      rest != [] ==> rest[0].counter > currentCycleCounter
  {
    if cycles != [] {
      UnprocessedIsNew(cycles[1..], currentCycleCounter);
    }
  }

  lemma ProcessIncreases(a: Archiver, cycles: seq<Cycle>)
    requires Increasing(a)
    ensures Increasing(Process(a, cycles)) && Process(a, cycles).currentCycleCounter >= a.currentCycleCounter
    ensures a.started <= Process(a, cycles).started
  {
    UnprocessedIsNew(cycles, a.currentCycleCounter);
  }

  lemma {:induction false} CollectAllIncreases(a: Archiver, rounds: seq<Round>, sender: nat)
    requires Increasing(a)
    ensures Increasing(CollectAll(a, rounds, sender)) && a.started <= CollectAll(a, rounds, sender).started
    decreases |rounds|
  {
    if rounds != [] && rounds[0].trusted {
      var counter, report := rounds[0].cycle.counter, ReportOf(rounds[0], sender);
      var history := HistoryOf(a, counter);
      if !Rejected(After(history, |history|), report) {
        ProcessIncreases(
          a.(histories := a.histories[counter := history + [report]]), HandedAt(history + [report], |history|));
      }
      CollectAllIncreases(Collect(a, rounds[0], sender), rounds[1..], sender);
    }
  }

  // Under any interleaving of messages, calls and resumed runs, even across cleared trackers,
  // processCycles starts counters in strictly increasing order, so each at most once.
  lemma {:induction false} CountersStrictlyIncrease(a: Archiver, events: seq<Event>)
    requires Increasing(a)
    ensures Increasing(Run(a, events)) && a.started <= Run(a, events).started
  {
    if events != [] {
      var before, event := Run(a, events[..|events| - 1]), events[|events| - 1];
      CountersStrictlyIncrease(a, events[..|events| - 1]);
      match event
      case Message(rounds, sender) => CollectAllIncreases(before, rounds, sender);
      case Call(cycles) => ProcessIncreases(before, cycles);
      case Resume(run) =>
        if run < |before.suspended| {
          ProcessIncreases(
            before.(suspended := before.suspended[..run] + before.suspended[run + 1..]), before.suspended[run]);
        }
    }
  }

  // ----- what a message, a call and a resumed run start -----

  // The first of the cycles with a greater counter is started, and those behind it wait; without one nothing changes.
  lemma {:induction false} ProcessIs(a: Archiver, cycles: seq<Cycle>, i: nat)
    requires i <= |cycles| && forall j :: 0 <= j < i ==> cycles[j].counter <= a.currentCycleCounter
    requires i < |cycles| ==> cycles[i].counter > a.currentCycleCounter
    ensures
      var after := Process(a, cycles);
      && after.histories == a.histories
      && (i == |cycles| ==> after == a)
      && (i < |cycles| ==>
            && after.currentCycleCounter == cycles[i].counter && after.started == a.started + [cycles[i]]
            && after.suspended == a.suspended + [cycles[i + 1..]])
  {
    if i > 0 {
      assert cycles[1..][i - 1..] == cycles[i..];
      ProcessIs(a, cycles[1..], i - 1);
      assert i < |cycles| ==> cycles[1..][i..] == cycles[i + 1..];
    }
  }

  // Each tracker holds reports for its own counter.
  ghost predicate HistoriesFit(a: Archiver) {
    forall counter :: counter in a.histories ==>
      forall j :: 0 <= j < |a.histories[counter]| ==> a.histories[counter][j].cycle.counter == counter
  }

  lemma ProcessFits(a: Archiver, cycles: seq<Cycle>)
    requires HistoriesFit(a)
    ensures HistoriesFit(Process(a, cycles))
  {
  }

  lemma CollectFits(a: Archiver, round: Round, sender: nat)
    requires HistoriesFit(a)
    ensures HistoriesFit(Collect(a, round, sender))
  {
    var counter := round.cycle.counter;
    assert forall j :: 0 <= j < |HistoryOf(a, counter)| ==> HistoryOf(a, counter)[j].cycle.counter == counter;
  }

  lemma {:induction false} CollectAllFits(a: Archiver, rounds: seq<Round>, sender: nat)
    requires HistoriesFit(a)
    ensures HistoriesFit(CollectAll(a, rounds, sender))
    decreases |rounds|
  {
    if rounds != [] && rounds[0].trusted {
      CollectFits(a, rounds[0], sender);
      CollectAllFits(Collect(a, rounds[0], sender), rounds[1..], sender);
    }
  }

  lemma {:induction false} RunFits(a: Archiver, events: seq<Event>)
    requires HistoriesFit(a)
    ensures HistoriesFit(Run(a, events))
  {
    if events != [] {
      var before, event := Run(a, events[..|events| - 1]), events[|events| - 1];
      RunFits(a, events[..|events| - 1]);
      if event.Message? {
        CollectAllFits(before, event.rounds, event.sender);
      }
    }
  }

  // The reports for a round's counter, up to its own.
  function ReportsWith(a: Archiver, round: Round, sender: nat): seq<Report> {
    var threshold := MinCycleConfirmations(round.activeCount, round.radius, round.cycle.counter, round.configured);
    HistoryOf(a, round.cycle.counter) + [Report(round.cycle, sender, round.valid, threshold)]
  }

  // Nothing was handed over before, the marker of the round has reporters, and some marker has enough of them.
  ghost predicate IsDue(a: Archiver, round: Round, sender: nat) {
    var reports := ReportsWith(a, round, sender);
    var last := |reports| - 1;
    && NothingHanded(reports, last) && Reporters(reports, |reports|, round.cycle.marker) != []
    && Confirmed(reports, |reports|, reports[last].threshold) != {}
  }

  lemma {:induction false} EarlierAfter(reports: seq<Report>, more: seq<Report>, k: nat)
    requires k <= |reports|
    ensures After(reports + more, k) == After(reports, k)
  {
    if k > 0 {
      EarlierAfter(reports, more, k - 1);
    }
  }

  lemma CollectIs(a: Archiver, round: Round, sender: nat)
    ensures
      var reports := ReportsWith(a, round, sender);
      var handed := HandedAt(reports, |reports| - 1);
      var histories := Collect(a, round, sender).histories;
      && Collect(a, round, sender) == (if handed == [] then a else Process(a, handed)).(histories := histories)
  {
    var history := HistoryOf(a, round.cycle.counter);
    EarlierAfter(history, [ReportOf(round, sender)], |history|);
  }

  // Every report of a marker that has reporters by then is kept, and no other counter is touched.
  lemma ReportsAreKept(a: Archiver, round: Round, sender: nat, counter: nat)
    ensures
      var reports := ReportsWith(a, round, sender);
      HistoryOf(Collect(a, round, sender), counter) ==
        if counter == round.cycle.counter && Reporters(reports, |reports|, round.cycle.marker) != [] then reports
        else HistoryOf(a, counter)
  {
    var history, reports := HistoryOf(a, round.cycle.counter), ReportsWith(a, round, sender);
    EarlierAfter(history, [ReportOf(round, sender)], |history|);
    TrackerListsReporters(reports, |history|);
    RejectedHasNone(After(reports, |history|), reports, |history|);
    CollectIs(a, round, sender);
  }

  // What the reports of a round hand over, and when that is nothing.
  lemma HandedFits(a: Archiver, round: Round, sender: nat)
    requires HistoriesFit(a)
    ensures
      var reports := ReportsWith(a, round, sender);
      var handed := HandedAt(reports, |reports| - 1);
      && (handed != [] <==> IsDue(a, round, sender))
      && forall i :: 0 <= i < |handed| ==>
        && handed[i].counter == round.cycle.counter && handed[i].marker == round.cycle.marker
        && IsFirstValid(reports, |reports|, handed[i])
  {
    var reports := ReportsWith(a, round, sender);
    var last := |reports| - 1;
    var handed := HandedAt(reports, last);
    HandedExactly(reports, last);
    forall i | 0 <= i < |handed| ensures handed[i].counter == round.cycle.counter {
      var j :| 0 <= j < |reports| && reports[j].cycle == handed[i];
      assert j < last ==> reports[j] == HistoryOf(a, round.cycle.counter)[j];
    }
  }

  // Of records with one counter the first starts, unless that counter is not newer.
  lemma HandedStarts(a: Archiver, handed: seq<Cycle>, counter: nat)
    requires handed != [] && forall i :: 0 <= i < |handed| ==> handed[i].counter == counter
    ensures
      var after := Process(a, handed);
      if counter <= a.currentCycleCounter then after == a
      else after.currentCycleCounter == counter && after.started == a.started + [handed[0]]
  {
    ProcessIs(a, handed, if counter > a.currentCycleCounter then 0 else |handed|);
  }

  // A trusted record starts, as the first valid one of its marker, exactly when it is due and newer.
  lemma CollectStarts(a: Archiver, round: Round, sender: nat)
    requires HistoriesFit(a)
    ensures
      var after, reports := Collect(a, round, sender), ReportsWith(a, round, sender);
      if IsDue(a, round, sender) && round.cycle.counter > a.currentCycleCounter then
        && after.currentCycleCounter == round.cycle.counter
        && |after.started| == |a.started| + 1 && a.started <= after.started
        && after.started[|a.started|].marker == round.cycle.marker
        && IsFirstValid(reports, |reports|, after.started[|a.started|])
      else
        && after.started == a.started && after.currentCycleCounter == a.currentCycleCounter
        && after.suspended == a.suspended
  {
    var reports := ReportsWith(a, round, sender);
    var handed := HandedAt(reports, |reports| - 1);
    CollectIs(a, round, sender);
    HandedFits(a, round, sender);
    if handed != [] {
      HandedStarts(a, handed, round.cycle.counter);
    }
  }

  // A message with one trusted record starts that record, the first valid one of its marker, exactly when nothing was
  // handed over for its counter before, its marker has reporters, some marker has enough of them, and it is newer.
  lemma MessageStarts(a: Archiver, round: Round, sender: nat)
    requires HistoriesFit(a) && round.trusted
    ensures
      var after, reports := Next(a, Message([round], sender)), ReportsWith(a, round, sender);
      if IsDue(a, round, sender) && round.cycle.counter > a.currentCycleCounter then
        && after.currentCycleCounter == round.cycle.counter
        && |after.started| == |a.started| + 1 && a.started <= after.started
        && after.started[|a.started|].marker == round.cycle.marker
        && IsFirstValid(reports, |reports|, after.started[|a.started|])
      else
        && after.started == a.started && after.currentCycleCounter == a.currentCycleCounter
        && after.suspended == a.suspended
  {
    CollectStarts(a, round, sender);
    RecordsInTurn(a, [round], sender, 1);
    RecordsInTurn(a, [], sender, 0);
    assert [round][..0] == [];
  }

  // The records of a message are taken in turn, up to the first from an untrusted sender.
  lemma {:induction false} RecordsInTurn(a: Archiver, rounds: seq<Round>, sender: nat, k: nat)
    requires k <= |rounds| && forall j :: 0 <= j < k ==> rounds[j].trusted
    ensures rounds == [] ==> CollectAll(a, rounds, sender) == a
    ensures k < |rounds| && !rounds[k].trusted ==>
      CollectAll(a, rounds, sender) == CollectAll(a, rounds[..k], sender)
    ensures 0 < k == |rounds| ==>
      CollectAll(a, rounds, sender) == Collect(CollectAll(a, rounds[..k - 1], sender), rounds[k - 1], sender)
    decreases k
  {
    if k > 0 {
      RecordsInTurn(Collect(a, rounds[0], sender), rounds[1..], sender, k - 1);
      assert rounds[..k][1..] == rounds[1..][..k - 1];
      if k == |rounds| > 1 {
        assert rounds[..k - 1][1..] == rounds[1..][..k - 2];
      }
    }
  }

  // Behind every message, trackers more than 5 cycles back are dropped if there are more than 5; no other is touched.
  lemma OldTrackersAreCleared(a: Archiver, rounds: seq<Round>, sender: nat)
    ensures
      var before, after := CollectAll(a, rounds, sender), Next(a, Message(rounds, sender));
      && after == before.(histories := after.histories)
      && (forall counter :: counter in after.histories <==>
            counter in before.histories && (|before.histories| > 5 ==> counter >= before.currentCycleCounter - 5))
      && forall counter :: counter in after.histories ==> after.histories[counter] == before.histories[counter]
  {
    assert MAX_CYCLES_IN_TRACKER == 5;
  }

  // ----- a run of processCycles that nothing interrupts -----

  function Resumed(a: Archiver, run: nat, times: nat): Archiver
    decreases times
  {
    if times == 0 then a else Resumed(Next(a, Resume(run)), run, times - 1)
  }

  // The cycles with a greater counter than the current one and than all cycles before them.
  function Rising(cycles: seq<Cycle>, counter: int): seq<Cycle> {
    if cycles == [] then []
    else if cycles[0].counter > counter then [cycles[0]] + Rising(cycles[1..], cycles[0].counter)
    else Rising(cycles[1..], counter)
  }

  // The i-th cycle has a greater counter than the current one and than all cycles before it.
  ghost predicate Rises(cycles: seq<Cycle>, counter: int, i: nat)
    requires i < |cycles|
  {
    cycles[i].counter > counter && forall j :: 0 <= j < i ==> cycles[j].counter < cycles[i].counter
  }

  lemma {:induction false} RisingExactly(cycles: seq<Cycle>, counter: int, cycle: Cycle)
    ensures cycle in Rising(cycles, counter) <==>
      exists i :: 0 <= i < |cycles| && cycles[i] == cycle && Rises(cycles, counter, i)
  {
    if cycles != [] {
      var rest, above := cycles[1..], if cycles[0].counter > counter then cycles[0].counter else counter;
      RisingExactly(rest, above, cycle);
      if i :| 0 <= i < |rest| && rest[i] == cycle && Rises(rest, above, i) {
        assert forall j :: 0 < j < i + 1 ==> cycles[j] == rest[j - 1];
        assert cycles[i + 1] == cycle && Rises(cycles, counter, i + 1);
      }
      if i :| 0 < i < |cycles| && cycles[i] == cycle && Rises(cycles, counter, i) {
        assert forall j :: 0 <= j < i - 1 ==> rest[j] == cycles[j + 1];
        assert rest[i - 1] == cycle && Rises(rest, above, i - 1);
      }
    }
  }

  // What is left unprocessed starts with the first rising cycle.
  lemma {:induction false} RisingUnprocessed(cycles: seq<Cycle>, counter: int)
    ensures |Unprocessed(cycles, counter)| <= |cycles|
    ensures
      var rest := Unprocessed(cycles, counter);
      Rising(cycles, counter) == if rest == [] then [] else [rest[0]] + Rising(rest[1..], rest[0].counter)
  {
    if cycles != [] && cycles[0].counter <= counter {
      RisingUnprocessed(cycles[1..], counter);
    }
  }

  // Resumed until it is over, a suspended run starts exactly those cycles in their order, and no other run is touched.
  lemma {:induction false} RunStartsRising(a: Archiver, others: seq<seq<Cycle>>, cycles: seq<Cycle>)
    returns (times: nat)
    requires a.suspended == others + [cycles]
    ensures
      var after := Resumed(a, |others|, times);
      && after.suspended == others && after.histories == a.histories
      && after.started == a.started + Rising(cycles, a.currentCycleCounter)
    decreases |cycles|
  {
    var alone, next := a.(suspended := others), Next(a, Resume(|others|));
    assert a.suspended[..|others|] + a.suspended[|others| + 1..] == others;
    assert next == Process(alone, cycles);
    RisingUnprocessed(cycles, a.currentCycleCounter);
    var rest := Unprocessed(cycles, a.currentCycleCounter);
    if rest == [] {
      times := 1;
      assert Resumed(next, |others|, 0) == next;
    } else {
      var later := RunStartsRising(next, others, rest[1..]);
      times := later + 1;
    }
  }

  // So does a call.
  lemma CallStartsRising(a: Archiver, cycles: seq<Cycle>) returns (times: nat)
    ensures
      var after := Resumed(Next(a, Call(cycles)), |a.suspended|, times);
      && after.suspended == a.suspended && after.histories == a.histories
      && after.started == a.started + Rising(cycles, a.currentCycleCounter)
  {
    var rest, next := Unprocessed(cycles, a.currentCycleCounter), Next(a, Call(cycles));
    RisingUnprocessed(cycles, a.currentCycleCounter);
    if rest == [] {
      times := 0;
      assert next == a && Resumed(next, |a.suspended|, 0) == next;
    } else {
      assert next.suspended == a.suspended + [rest[1..]];
      times := RunStartsRising(next, a.suspended, rest[1..]);
    }
  }

  lemma NotedIsFound(entries: seq<Tracked>, report: Report)
    ensures Find(Noted(entries, report), report.cycle.marker) == Find(entries, report.cycle.marker)
  {
    var after, i := Noted(entries, report), Find(entries, report.cycle.marker);
    assert after[i].cycleInfo.marker == report.cycle.marker;
    assert forall j :: 0 <= j < i ==> after[j].cycleInfo == entries[j].cycleInfo;
  }

  // ----- the code -----

  class CycleCollector {
    var receivedCycleTracker: map<nat, seq<Tracked>>
    var currentCycleCounter: int
    var suspended: seq<seq<Cycle>>
    ghost var histories: map<nat, seq<Report>>
    ghost var started: seq<Cycle>

    ghost function State(): Archiver
      reads this
    {
      Archiver(histories, currentCycleCounter, started, suspended)
    }

    // Each tracker holds what its reports add up to.
    ghost predicate Valid()
      reads this
    {
      && receivedCycleTracker.Keys == histories.Keys
      && forall counter :: counter in histories ==>
        receivedCycleTracker[counter] == After(histories[counter], |histories[counter]|)
    }

    constructor (currentCycleCounter: int)
      ensures Valid() && State() == Archiver(map[], currentCycleCounter, [], [])
    {
      receivedCycleTracker, histories := map[], map[];
      this.currentCycleCounter := currentCycleCounter;
      suspended, started := [], [];
    }

    // The first part of the loop body of collectCycleData; false where it continues with the next record.
    method Note(report: Report) returns (noted: bool)
      requires Valid()
      modifies this`receivedCycleTracker
      ensures
        var before := After(HistoryOf(State(), report.cycle.counter), |HistoryOf(State(), report.cycle.counter)|);
        && noted == !Rejected(before, report)
        && receivedCycleTracker ==
          if noted then old(receivedCycleTracker)[report.cycle.counter := Noted(before, report)]
          else old(receivedCycleTracker)
    {
      var counter := report.cycle.counter;
      if counter in receivedCycleTracker {
        var entries := receivedCycleTracker[counter];
        var i := Find(entries, report.cycle.marker);
        if i < |entries| {
          if report.sender !in entries[i].senderNodes {
            entries := entries[i := entries[i].(
              receivedTimes := entries[i].receivedTimes + 1, senderNodes := entries[i].senderNodes + [report.sender])];
            receivedCycleTracker := receivedCycleTracker[counter := entries];
          }
          assert entries == Noted(old(receivedCycleTracker[counter]), report);
        } else {
          if !report.valid {
            return false;
          }
          receivedCycleTracker :=
            receivedCycleTracker[counter := entries + [Tracked(report.cycle, 1, false, [report.sender])]];
        }
      } else {
        if !report.valid {
          return false;
        }
        var entry := Tracked(report.cycle, 1, false, [report.sender]);
        assert Noted([], report) == [entry];
        receivedCycleTracker := receivedCycleTracker[counter := [entry]];
      }
      noted := true;
    }

    // The loop over the tracked records of a counter.
    method CyclesToSave(counter: nat, marker: nat, minCycleConfirmations: nat) returns (cycleToSave: seq<Cycle>)
      requires counter in receivedCycleTracker
      requires Find(receivedCycleTracker[counter], marker) < |receivedCycleTracker[counter]|
      modifies this`receivedCycleTracker
      ensures
        var entries := old(receivedCycleTracker[counter]);
        var current := Find(entries, marker);
        var (after, pushes) := Mark(entries, current, minCycleConfirmations, 0, 0);
        && receivedCycleTracker == old(receivedCycleTracker)[counter := after]
        && cycleToSave == seq(pushes, _ => entries[current].cycleInfo)
    {
      var entries := receivedCycleTracker[counter];
      var current := Find(entries, marker);
      cycleToSave := [];
      var i := 0;
      ghost var before := entries;
      while i < |entries|
        invariant i <= |entries| == |before| && entries[current].cycleInfo == before[current].cycleInfo
        invariant cycleToSave == seq(|cycleToSave|, _ => before[current].cycleInfo)
        invariant Mark(entries, current, minCycleConfirmations, i, |cycleToSave|)
                  == Mark(before, current, minCycleConfirmations, 0, 0)
      {
        if entries[i].saved {
          if |cycleToSave| > 0 {
            entries := entries[current := entries[current].(saved := false)];
          }
          cycleToSave := [];
          break;
        }
        if entries[i].receivedTimes >= minCycleConfirmations {
          cycleToSave := cycleToSave + [entries[current].cycleInfo];
          entries := entries[i := entries[i].(saved := true)];
        }
        i := i + 1;
      }
      receivedCycleTracker := receivedCycleTracker[counter := entries];
    }

    // processCycles, up to its next await.
    method ProcessCycles(cycles: seq<Cycle>)
      modifies this`currentCycleCounter, this`suspended, this`started
      ensures State() == Process(old(State()), cycles)
    {
      var i := 0;
      while i < |cycles|
        invariant 0 <= i <= |cycles| && State() == old(State())
        invariant Unprocessed(cycles, currentCycleCounter) == Unprocessed(cycles[i..], currentCycleCounter)
      {
        var cycle := cycles[i];
        if cycle.counter > currentCycleCounter {
          currentCycleCounter := cycle.counter;
          started := started + [cycle];
          suspended := suspended + [cycles[i + 1..]];
          return;
        }
        i := i + 1;
      }
    }

    // processCycles, from where it was suspended.
    method ResumeProcessing(run: nat)
      requires run < |suspended|
      modifies this`currentCycleCounter, this`suspended, this`started
      ensures State() == Next(old(State()), Resume(run))
    {
      var rest := suspended[run];
      suspended := suspended[..run] + suspended[run + 1..];
      ProcessCycles(rest);
    }

    // The tracker takes a report; the records to process are those with enough confirmations.
    method Confirm(report: Report) returns (noted: bool, cycleToSave: seq<Cycle>)
      requires Valid()
      modifies this`receivedCycleTracker
      ensures
        var history := HistoryOf(State(), report.cycle.counter);
        var before := After(history, |history|);
        && noted == !Rejected(before, report) && cycleToSave == Step(before, report).1
        && receivedCycleTracker ==
          if noted then old(receivedCycleTracker)[report.cycle.counter := Step(before, report).0]
          else old(receivedCycleTracker)
    {
      ghost var history := HistoryOf(State(), report.cycle.counter);
      noted := Note(report);
      cycleToSave := [];
      if noted {
        NotedIsFound(After(history, |history|), report);
        cycleToSave := CyclesToSave(report.cycle.counter, report.cycle.marker, report.threshold);
      }
    }

    method CollectOne(round: Round, sender: nat)
      requires Valid()
      modifies this
      ensures Valid() && State() == Collect(old(State()), round, sender)
    {
      var counter := round.cycle.counter;
      var threshold := MinCycleConfirmations(round.activeCount, round.radius, counter, round.configured);
      var report := Report(round.cycle, sender, round.valid, threshold);
      ghost var history := HistoryOf(State(), counter);
      var noted, cycleToSave := Confirm(report);
      if !noted {
        return;
      }
      StepAt(history, report);
      histories := histories[counter := history + [report]];
      assert Valid() && cycleToSave == HandedAt(history + [report], |history|);
      if |cycleToSave| > 0 {
        ProcessCycles(cycleToSave);
      }
    }

    method CollectCycleData(rounds: seq<Round>, sender: nat)
      requires Valid()
      modifies this
      ensures Valid() && State() == Next(old(State()), Message(rounds, sender))
    {
      var i := 0;
      while i < |rounds| && rounds[i].trusted
        invariant 0 <= i <= |rounds| && Valid()
        invariant CollectAll(State(), rounds[i..], sender) == CollectAll(old(State()), rounds, sender)
      {
        CollectOne(rounds[i], sender);
        i := i + 1;
      }
      ClearTracker();
    }

    method ClearTracker()
      requires Valid()
      modifies this`receivedCycleTracker, this`histories
      ensures Valid() && State() == ClearOld(old(State()))
    {
      if |receivedCycleTracker| > MAX_CYCLES_IN_TRACKER {
        DeleteOldTrackers();
        histories := histories - OldCounters(histories.Keys, currentCycleCounter);
      }
    }

    method DeleteOldTrackers()
      modifies this`receivedCycleTracker
      ensures receivedCycleTracker ==
        old(receivedCycleTracker) - OldCounters(old(receivedCycleTracker.Keys), currentCycleCounter)
    {
      var counters := receivedCycleTracker.Keys;
      ghost var gone := OldCounters(counters, currentCycleCounter);
      assert LeftOver(receivedCycleTracker, counters, gone) == receivedCycleTracker;
      while counters != {}
        invariant counters <= old(receivedCycleTracker.Keys)
        invariant receivedCycleTracker == LeftOver(old(receivedCycleTracker), counters, gone)
        decreases |counters|
      {
        var counter :| counter in counters;
        OneLess(old(receivedCycleTracker), counters, gone, counter);
        counters := counters - {counter};
        if counter < currentCycleCounter - MAX_CYCLES_IN_TRACKER {
          receivedCycleTracker := receivedCycleTracker - {counter};
        }
      }
    }
  }

  lemma StepAt(history: seq<Report>, report: Report)
    ensures After(history + [report], |history| + 1) == Step(After(history, |history|), report).0
    ensures HandedAt(history + [report], |history|) == Step(After(history, |history|), report).1
  {
    SamePrefix(history, report, |history|);
  }

  lemma {:induction false} SamePrefix(history: seq<Report>, report: Report, k: nat)
    requires k <= |history|
    ensures After(history + [report], k) == After(history, k)
  {
    if k > 0 {
      SamePrefix(history, report, k - 1);
    }
  }
}
