/** The daily roll-up, kept one sample at a time, and the fold of a whole series it stands for. */
module Rollup {
  import opened Outcomes
  import opened HealthSeries

  const DAY_MS := 86400000
  const KEPT_DAYS := 400

  datatype Row = Row(day: int, upMs: int, downMs: int, unknownMs: int, outages: int, transitions: int) {
    function Ms(): int { upMs + downMs + unknownMs }
  }

  function Fresh(day: int): Row {
    Row(day, 0, 0, 0, 0, 0)
  }

  function DayOf(at: int): int {
    at / DAY_MS
  }

  // Days last 86400 seconds and are counted from the epoch, before it too.
  lemma DayIs(at: int, day: int)
    ensures DayOf(at) == day <==> 86400000 * day <= at < 86400000 * (day + 1)
  {
  }

  // ---------- rows by day ----------

  predicate OneRowPerDay(rows: seq<Row>) {
    forall i, j | 0 <= i < j < |rows| :: rows[i].day != rows[j].day
  }

  predicate HasDay(rows: seq<Row>, day: int) {
    exists i :: 0 <= i < |rows| && rows[i].day == day
  }

  // The first row of that day, or |rows|.
  function Find(rows: seq<Row>, day: int): (i: nat)
    ensures i <= |rows| && (i < |rows| ==> rows[i].day == day)
    ensures forall k | 0 <= k < i :: rows[k].day != day
  {
    if rows == [] || rows[0].day == day then 0 else 1 + Find(rows[1..], day)
  }

  // What is on record for a day; nothing is all zeros.
  function RowOf(rows: seq<Row>, day: int): Row {
    var i := Find(rows, day);
    if i < |rows| then rows[i] else Fresh(day)
  }

  function Put(rows: seq<Row>, row: Row): seq<Row> {
    var i := Find(rows, row.day);
    if i < |rows| then rows[i := row] else rows + [row]
  }

  function PlaceRow(rows: seq<Row>, row: Row): (r: seq<Row>)
    ensures |r| == |rows| + 1
  {
    if rows == [] || row.day < rows[0].day then [row] + rows else [rows[0]] + PlaceRow(rows[1..], row)
  }

  function SortRows(rows: seq<Row>): (r: seq<Row>)
    ensures |r| == |rows|
  {
    if rows == [] then [] else PlaceRow(SortRows(rows[..|rows| - 1]), rows[|rows| - 1])
  }

  function LastRows(rows: seq<Row>, n: nat): seq<Row> {
    if |rows| <= n then rows else rows[|rows| - n..]
  }

  function Total(rows: seq<Row>): int {
    if rows == [] then 0 else rows[0].Ms() + Total(rows[1..])
  }

  lemma FindIs(rows: seq<Row>, day: int, i: nat)
    requires OneRowPerDay(rows) && i < |rows| && rows[i].day == day
    ensures Find(rows, day) == i
  {
  }

  lemma PutReads(rows: seq<Row>, row: Row, day: int)
    requires OneRowPerDay(rows)
    ensures OneRowPerDay(Put(rows, row))
    ensures RowOf(Put(rows, row), day) == if day == row.day then row else RowOf(rows, day)
  {
    var i, put := Find(rows, row.day), Put(rows, row);
    if day == row.day {
      FindIs(put, day, i);
    } else if Find(rows, day) < |rows| {
      FindIs(put, day, Find(rows, day));
    }
  }

  lemma {:induction false} PlaceHasDay(rows: seq<Row>, row: Row, day: int)
    ensures HasDay(PlaceRow(rows, row), day) <==> day == row.day || HasDay(rows, day)
  {
    var placed := PlaceRow(rows, row);
    if rows == [] || row.day < rows[0].day {
      assert placed[0] == row && placed[1..] == rows;
    } else {
      PlaceHasDay(rows[1..], row, day);
      assert placed[0] == rows[0] && placed[1..] == PlaceRow(rows[1..], row);
      assert HasDay(placed, day) <==> rows[0].day == day || HasDay(placed[1..], day);
      assert HasDay(rows, day) <==> rows[0].day == day || HasDay(rows[1..], day);
    }
  }

  lemma ConsReads(first: Row, rest: seq<Row>, day: int)
    ensures RowOf([first] + rest, day) == if first.day == day then first else RowOf(rest, day)
    ensures OneRowPerDay([first] + rest) <==> OneRowPerDay(rest) && !HasDay(rest, first.day)
  {
    var rows := [first] + rest;
    assert rows[1..] == rest;
    if OneRowPerDay(rows) {
      forall i, j | 0 <= i < j < |rest|
        ensures rest[i].day != rest[j].day
      {
        assert rows[i + 1].day != rows[j + 1].day;
      }
    }
  }

  lemma {:induction false} PlaceReads(rows: seq<Row>, row: Row, day: int)
    requires OneRowPerDay(rows) && !HasDay(rows, row.day)
    ensures OneRowPerDay(PlaceRow(rows, row))
    ensures RowOf(PlaceRow(rows, row), day) == if day == row.day then row else RowOf(rows, day)
  {
    if rows == [] || row.day < rows[0].day {
      ConsReads(row, rows, day);
    } else {
      var first, rest := rows[0], rows[1..];
      assert rows == [first] + rest;
      ConsReads(first, rest, day);
      ConsReads(first, PlaceRow(rest, row), day);
      PlaceReads(rest, row, day);
      PlaceHasDay(rest, row, first.day);
    }
  }

  lemma {:induction false} SortReads(rows: seq<Row>, day: int)
    requires OneRowPerDay(rows)
    ensures OneRowPerDay(SortRows(rows))
    ensures HasDay(SortRows(rows), day) <==> HasDay(rows, day)
    ensures RowOf(SortRows(rows), day) == RowOf(rows, day)
    decreases |rows|
  {
    if rows != [] {
      var n := |rows| - 1;
      var front, last := rows[..n], rows[n];
      SortReads(front, day);
      SortReads(front, last.day);
      assert !HasDay(front, last.day);
      PlaceReads(SortRows(front), last, day);
      PlaceHasDay(SortRows(front), last, day);
      assert HasDay(rows, day) <==> HasDay(front, day) || last.day == day;
      if last.day == day {
        FindIs(rows, day, n);
      } else if Find(front, day) < n {
        FindIs(rows, day, Find(front, day));
      }
    }
  }

  // ---------- one sample into the roll-up ----------

  function RollupLimit(step: real): real {
    Max(3.0 * step, 180000.0)
  }

  // An outage is a fall from up to down between two samples without a blind stretch.
  function Add(row: Row, prev: Sample, cur: Sample, limit: real): Row {
    var dt := cur.at - prev.at;
    var turned := row.(transitions := row.transitions + if cur.up != prev.up then 1 else 0);
    if dt as real > limit then turned.(unknownMs := row.unknownMs + dt)
    else if cur.up then turned.(upMs := row.upMs + dt)
    else turned.(downMs := row.downMs + dt, outages := row.outages + if prev.up then 1 else 0)
  }

  // The row of the sample's day with the time since the previous sample booked.
  function Booked(rows: seq<Row>, prev: Option<Sample>, cur: Sample, limit: real): Row {
    var row := RowOf(rows, DayOf(cur.at));
    if prev.Some? then Add(row, prev.value, cur, limit) else row
  }

  function Entered(rows: seq<Row>, prev: Option<Sample>, cur: Sample, limit: real): seq<Row> {
    SortRows(Put(rows, Booked(rows, prev, cur, limit)))
  }

  function Recorded(file: seq<Row>, prev: Option<Sample>, cur: Sample, limit: real): seq<Row> {
    LastRows(Entered(LastRows(file, KEPT_DAYS), prev, cur, limit), KEPT_DAYS)
  }

  method Book(rows: seq<Row>, prev: Option<Sample>, cur: Sample, limit: real) returns (booked: seq<Row>, row: Row)
    ensures row == Booked(rows, prev, cur, limit) && booked == Put(rows, row)
  {
    var day := DayOf(cur.at);
    var i := Find(rows, day);
    booked := rows;
    if i == |rows| {
      booked := booked + [Fresh(day)];
    }
    row := booked[i];
    if prev.Some? {
      var dt := cur.at - prev.value.at;
      if dt as real > limit {
        row := row.(unknownMs := row.unknownMs + dt);
      } else if cur.up {
        row := row.(upMs := row.upMs + dt);
      } else {
        row := row.(downMs := row.downMs + dt);
        if prev.value.up {
          row := row.(outages := row.outages + 1);
        }
      }
      if cur.up != prev.value.up {
        row := row.(transitions := row.transitions + 1);
      }
    }
    booked := booked[i := row];
  }

  class RollupFile {
    var rows: seq<Row>

    method RecordSample(prev: Option<Sample>, cur: Sample, step: real) returns (row: Row)
      modifies this
      ensures rows == Recorded(old(rows), prev, cur, RollupLimit(step))
      ensures row == Booked(LastRows(old(rows), KEPT_DAYS), prev, cur, RollupLimit(step))
    {
      var read := LastRows(rows, KEPT_DAYS);
      read, row := Book(read, prev, cur, RollupLimit(step));
      rows := LastRows(SortRows(read), KEPT_DAYS);
    }
  }

  // ---------- the reference: a day's figures ----------

  // Time up, down and unseen; falls and turns; and runs of down samples whose beginning the meter
  // did not see.
  datatype Figure = Up | Down | Blind | Falls | Turns | Unseen

  predicate DownSeen(samples: seq<Sample>, limit: real, i: nat)
    requires 0 < i < |samples|
  {
    Covered(samples, limit, i) && !samples[i].up
  }

  // What sample i, with the interval that ends there, adds to a figure.
  function Share(samples: seq<Sample>, limit: real, i: nat, figure: Figure): int
    requires 0 < i < |samples|
  {
    var dt := samples[i].at - samples[i - 1].at;
    match figure
    case Up => if Covered(samples, limit, i) && samples[i].up then dt else 0
    case Down => if DownSeen(samples, limit, i) then dt else 0
    case Blind => if !Covered(samples, limit, i) then dt else 0
    case Falls => if DownSeen(samples, limit, i) && samples[i - 1].up then 1 else 0
    case Turns => if samples[i].up != samples[i - 1].up then 1 else 0
    case Unseen =>
      if DownSeen(samples, limit, i) && !samples[i - 1].up && (i == 1 || !Covered(samples, limit, i - 1)) then 1 else 0
  }

  // Over the first n samples, an interval belonging to the day it ends on.
  function Tally(samples: seq<Sample>, limit: real, n: nat, day: int, figure: Figure): int
    requires 1 <= n <= |samples|
  {
    if n == 1 then 0
    else
      Tally(samples, limit, n - 1, day, figure) +
      if DayOf(samples[n - 1].at) == day then Share(samples, limit, n - 1, figure) else 0
  }

  function DayRow(samples: seq<Sample>, limit: real, n: nat, day: int): Row
    requires 1 <= n <= |samples|
  {
    Row(day, Tally(samples, limit, n, day, Up), Tally(samples, limit, n, day, Down),
        Tally(samples, limit, n, day, Blind), Tally(samples, limit, n, day, Falls), Tally(samples, limit, n, day, Turns))
  }

  // ---------- the roll-up of a series, sample by sample ----------

  // With every day kept.
  function Whole(samples: seq<Sample>, limit: real, n: nat): seq<Row>
    requires 1 <= n <= |samples|
  {
    if n == 1 then Entered([], None, samples[0], limit)
    else Entered(Whole(samples, limit, n - 1), Some(samples[n - 2]), samples[n - 1], limit)
  }

  // As stored: cut to the last days on every write.
  function Stored(samples: seq<Sample>, limit: real, n: nat): seq<Row>
    requires 1 <= n <= |samples|
  {
    if n == 1 then Recorded([], None, samples[0], limit)
    else Recorded(Stored(samples, limit, n - 1), Some(samples[n - 2]), samples[n - 1], limit)
  }

  lemma EnteredReads(rows: seq<Row>, prev: Option<Sample>, cur: Sample, limit: real, day: int)
    requires OneRowPerDay(rows)
    ensures OneRowPerDay(Entered(rows, prev, cur, limit))
    ensures RowOf(Entered(rows, prev, cur, limit), day) ==
            if day == DayOf(cur.at) && prev.Some? then Add(RowOf(rows, day), prev.value, cur, limit)
            else RowOf(rows, day)
  {
    var row := Booked(rows, prev, cur, limit);
    PutReads(rows, row, day);
    SortReads(Put(rows, row), day);
  }

  predicate Holds(rows: seq<Row>, row: Row) {
    OneRowPerDay(rows) && RowOf(rows, row.day) == row
  }

  function Grown(row: Row, prev: Sample, cur: Sample, limit: real): Row {
    if row.day == DayOf(cur.at) then Add(row, prev, cur, limit) else row
  }

  lemma EnteredHolds(rows: seq<Row>, row: Row, prev: Sample, cur: Sample, limit: real)
    requires Holds(rows, row)
    ensures Holds(Entered(rows, Some(prev), cur, limit), Grown(row, prev, cur, limit))
  {
    EnteredReads(rows, Some(prev), cur, limit, row.day);
  }

  lemma FirstHolds(cur: Sample, limit: real, day: int)
    ensures Holds(Entered([], None, cur, limit), Fresh(day))
  {
    EnteredReads([], None, cur, limit, day);
  }

  lemma DayRowGrows(samples: seq<Sample>, limit: real, n: nat, day: int)
    requires 1 < n <= |samples|
    ensures DayRow(samples, limit, n, day) ==
            Grown(DayRow(samples, limit, n - 1, day), samples[n - 2], samples[n - 1], limit)
  {
  }

  lemma DayRowStarts(samples: seq<Sample>, limit: real, day: int)
    requires samples != []
    ensures DayRow(samples, limit, 1, day) == Fresh(day)
  {
  }

  // Every day's row holds exactly that day's figures, whatever order the samples come in.
  lemma {:induction false} WholeTallies(samples: seq<Sample>, limit: real, n: nat, day: int)
    requires 1 <= n <= |samples|
    ensures Holds(Whole(samples, limit, n), DayRow(samples, limit, n, day))
  {
    if n == 1 {
      FirstHolds(samples[0], limit, day);
      DayRowStarts(samples, limit, day);
    } else {
      WholeTallies(samples, limit, n - 1, day);
      EnteredHolds(Whole(samples, limit, n - 1), DayRow(samples, limit, n - 1, day), samples[n - 2], samples[n - 1], limit);
      DayRowGrows(samples, limit, n, day);
    }
  }

  // ---------- the batch fold ----------

  function Counted(row: Row, iv: Interval): Row {
    if iv.up then row.(upMs := row.upMs + (iv.to - iv.from)) else row.(downMs := row.downMs + (iv.to - iv.from))
  }

  // In the order the days first appear.
  function Folded(intervals: seq<Interval>): seq<Row> {
    if intervals == [] then []
    else
      var rows, iv := Folded(intervals[..|intervals| - 1]), intervals[|intervals| - 1];
      Put(rows, Counted(RowOf(rows, DayOf(iv.to)), iv))
  }

  method FoldIntervals(intervals: seq<Interval>) returns (days: seq<Row>)
    ensures days == Folded(intervals)
  {
    days := [];
    var i := 0;
    while i < |intervals|
      invariant 0 <= i <= |intervals| && days == Folded(intervals[..i])
    {
      var iv := intervals[i];
      var row := RowOf(days, DayOf(iv.to));
      if iv.up {
        row := row.(upMs := row.upMs + (iv.to - iv.from));
      } else {
        row := row.(downMs := row.downMs + (iv.to - iv.from));
      }
      assert intervals[..i + 1][..i] == intervals[..i];
      days := Put(days, row);
      i := i + 1;
    }
    assert intervals[..i] == intervals;
  }

  // An outage belongs to the day it starts on, and counts only where that day has a row.
  function WithOutage(rows: seq<Row>, o: Outage): seq<Row> {
    var i := Find(rows, DayOf(o.from));
    if i < |rows| then rows[i := rows[i].(outages := rows[i].outages + 1)] else rows
  }

  function WithOutages(rows: seq<Row>, outages: seq<Outage>): seq<Row> {
    if outages == [] then rows
    else WithOutage(WithOutages(rows, outages[..|outages| - 1]), outages[|outages| - 1])
  }

  method CountOutages(rows: seq<Row>, outages: seq<Outage>) returns (days: seq<Row>)
    ensures days == WithOutages(rows, outages)
  {
    days := rows;
    var i := 0;
    while i < |outages|
      invariant 0 <= i <= |outages| && days == WithOutages(rows, outages[..i])
    {
      assert outages[..i + 1][..i] == outages[..i];
      var at := Find(days, DayOf(outages[i].from));
      if at < |days| {
        days := days[at := days[at].(outages := days[at].outages + 1)];
      }
      i := i + 1;
    }
    assert outages[..i] == outages;
  }

  function DaysOf(samples: seq<Sample>, now: int): seq<Row> {
    var series := Segmented(samples, now);
    SortRows(WithOutages(Folded(series.intervals), series.outages))
  }

  method FoldByDay(samples: seq<Sample>, now: int) returns (days: seq<Row>)
    ensures days == DaysOf(samples, now)
  {
    var series := SegmentSeries(samples, now);
    days := FoldIntervals(series.intervals);
    days := CountOutages(days, series.outages);
    days := SortRows(days);
  }

  lemma FoldedReads(intervals: seq<Interval>, iv: Interval, day: int)
    requires OneRowPerDay(Folded(intervals))
    ensures OneRowPerDay(Folded(intervals + [iv]))
    ensures RowOf(Folded(intervals + [iv]), day) ==
            if day == DayOf(iv.to) then Counted(RowOf(Folded(intervals), day), iv) else RowOf(Folded(intervals), day)
  {
    var rows := Folded(intervals);
    assert (intervals + [iv])[..|intervals|] == intervals;
    PutReads(rows, Counted(RowOf(rows, DayOf(iv.to)), iv), day);
  }

  lemma IntervalsGrow(samples: seq<Sample>, limit: real, n: nat)
    requires 1 < n <= |samples|
    ensures var before := Scanned(samples, limit, n - 1).intervals;
      Scanned(samples, limit, n).intervals ==
      if Covered(samples, limit, n - 1) then before + [Interval(samples[n - 2].at, samples[n - 1].at, samples[n - 1].up)]
      else before
  {
  }

  // A row's up and down time alone.
  function TimesOf(row: Row): Row {
    Row(row.day, row.upMs, row.downMs, 0, 0, 0)
  }

  lemma CountedIsGrown(row: Row, prev: Sample, cur: Sample, limit: real)
    ensures var times := TimesOf(Grown(row, prev, cur, limit));
      times == if row.day == DayOf(cur.at) && (cur.at - prev.at) as real <= limit
               then Counted(TimesOf(row), Interval(prev.at, cur.at, cur.up)) else TimesOf(row)
  {
  }

  lemma FoldNext(before: seq<Interval>, row: Row, prev: Sample, cur: Sample, limit: real)
    requires Holds(Folded(before), TimesOf(row))
    ensures var iv := Interval(prev.at, cur.at, cur.up);
      Holds(Folded(if (cur.at - prev.at) as real <= limit then before + [iv] else before),
            TimesOf(Grown(row, prev, cur, limit)))
  {
    CountedIsGrown(row, prev, cur, limit);
    FoldedReads(before, Interval(prev.at, cur.at, cur.up), row.day);
  }

  lemma {:induction false} FoldedTallies(samples: seq<Sample>, limit: real, n: nat, day: int)
    requires 1 <= n <= |samples|
    ensures Holds(Folded(Scanned(samples, limit, n).intervals), TimesOf(DayRow(samples, limit, n, day)))
  {
    if n == 1 {
      DayRowStarts(samples, limit, day);
    } else {
      FoldedTallies(samples, limit, n - 1, day);
      IntervalsGrow(samples, limit, n);
      FoldNext(Scanned(samples, limit, n - 1).intervals, DayRow(samples, limit, n - 1, day), samples[n - 2], samples[n - 1], limit);
      DayRowGrows(samples, limit, n, day);
    }
  }

  // ---------- the outages of the batch fold ----------

  function StartsOn(outages: seq<Outage>, day: int): nat {
    if outages == [] then 0
    else StartsOn(outages[..|outages| - 1], day) + if DayOf(outages[|outages| - 1].from) == day then 1 else 0
  }

  lemma StartsOnAppend(outages: seq<Outage>, o: Outage, day: int)
    ensures StartsOn(outages + [o], day) == StartsOn(outages, day) + if DayOf(o.from) == day then 1 else 0
  {
    assert (outages + [o])[..|outages|] == outages;
  }

  lemma OutageReads(rows: seq<Row>, o: Outage, day: int)
    requires OneRowPerDay(rows)
    ensures OneRowPerDay(WithOutage(rows, o)) && (HasDay(WithOutage(rows, o), day) <==> HasDay(rows, day))
    ensures var row := RowOf(rows, day);
      RowOf(WithOutage(rows, o), day) ==
      if HasDay(rows, day) && DayOf(o.from) == day then row.(outages := row.outages + 1) else row
  {
    var i, after := Find(rows, DayOf(o.from)), WithOutage(rows, o);
    assert |after| == |rows| && forall k | 0 <= k < |rows| :: after[k].day == rows[k].day;
    if Find(rows, day) < |rows| {
      FindIs(after, day, Find(rows, day));
    }
  }

  lemma {:induction false} OutagesRead(rows: seq<Row>, outages: seq<Outage>, day: int)
    requires OneRowPerDay(rows)
    ensures OneRowPerDay(WithOutages(rows, outages)) && (HasDay(WithOutages(rows, outages), day) <==> HasDay(rows, day))
    ensures var row := RowOf(rows, day);
      RowOf(WithOutages(rows, outages), day) ==
      if HasDay(rows, day) then row.(outages := row.outages + StartsOn(outages, day)) else row
    decreases |outages|
  {
    if outages != [] {
      OutagesRead(rows, outages[..|outages| - 1], day);
      OutageReads(WithOutages(rows, outages[..|outages| - 1]), outages[|outages| - 1], day);
    }
  }

  // The outages that start on a day: the falls of that day, and the runs whose beginning the meter
  // did not see.
  function Starts(samples: seq<Sample>, limit: real, n: nat, day: int): int
    requires 1 <= n <= |samples|
  {
    Tally(samples, limit, n, day, Falls) + Tally(samples, limit, n, day, Unseen)
  }

  // With the outage that is still open.
  function StartsSoFar(s: Scan, day: int): int {
    StartsOn(s.outages, day) + if s.open.Some? && DayOf(s.open.value) == day then 1 else 0
  }

  lemma AdvanceStarts(s: Scan, prev: Sample, cur: Sample, limit: real, day: int)
    ensures StartsSoFar(Advance(s, prev, cur, limit), day) == StartsSoFar(s, day) +
      if (cur.at - prev.at) as real <= limit && !cur.up && s.open.None? && DayOf(cur.at) == day then 1 else 0
  {
    if s.open.Some? {
      StartsOnAppend(s.outages, Outage(s.open.value, prev.at, false, true), day);
      StartsOnAppend(s.outages, Outage(s.open.value, cur.at, false, false), day);
    }
  }

  lemma StartsGrow(samples: seq<Sample>, limit: real, n: nat, day: int)
    requires 1 < n <= |samples|
    ensures Starts(samples, limit, n, day) == Starts(samples, limit, n - 1, day) +
      if DownSeen(samples, limit, n - 1) && !(n > 2 && DownSeen(samples, limit, n - 2)) && DayOf(samples[n - 1].at) == day
      then 1 else 0
  {
  }

  lemma {:induction false} ScanStarts(samples: seq<Sample>, limit: real, n: nat, day: int)
    requires 1 <= n <= |samples|
    ensures StartsSoFar(Scanned(samples, limit, n), day) == Starts(samples, limit, n, day)
  {
    if n > 1 {
      ScanStarts(samples, limit, n - 1, day);
      ScanDownTime(samples, limit, n - 1);
      AdvanceStarts(Scanned(samples, limit, n - 1), samples[n - 2], samples[n - 1], limit, day);
      StartsGrow(samples, limit, n, day);
    }
  }

  lemma FinishStarts(s: Scan, last: Sample, limit: real, now: int, day: int)
    ensures StartsOn(Finish(s, last, limit, now), day) == StartsSoFar(s, day)
  {
    if s.open.Some? {
      StartsOnAppend(s.outages, Outage(s.open.value, now, true, false), day);
      StartsOnAppend(s.outages, Outage(s.open.value, last.at, false, false), day);
    }
  }

  lemma PutHasDay(rows: seq<Row>, row: Row, day: int)
    ensures HasDay(Put(rows, row), day) <==> day == row.day || HasDay(rows, day)
  {
    var i, put := Find(rows, row.day), Put(rows, row);
    if HasDay(rows, day) {
      var k :| 0 <= k < |rows| && rows[k].day == day;
      assert put[k].day == day;
    }
    assert put[i] == row;
  }

  // The day an outage starts on always has a row.
  lemma {:induction false} StartsHaveRows(samples: seq<Sample>, limit: real, n: nat, day: int)
    requires 1 <= n <= |samples|
    ensures Starts(samples, limit, n, day) > 0 ==> HasDay(Folded(Scanned(samples, limit, n).intervals), day)
  {
    if n > 1 {
      StartsHaveRows(samples, limit, n - 1, day);
      StartsGrow(samples, limit, n, day);
      IntervalsGrow(samples, limit, n);
      var before := Scanned(samples, limit, n - 1).intervals;
      FoldedHasDay(before, Interval(samples[n - 2].at, samples[n - 1].at, samples[n - 1].up), day);
    }
  }

  lemma FoldedHasDay(intervals: seq<Interval>, iv: Interval, day: int)
    ensures HasDay(Folded(intervals + [iv]), day) <==> day == DayOf(iv.to) || HasDay(Folded(intervals), day)
  {
    var rows := Folded(intervals);
    assert (intervals + [iv])[..|intervals|] == intervals;
    PutHasDay(rows, Counted(RowOf(rows, DayOf(iv.to)), iv), day);
  }
}
