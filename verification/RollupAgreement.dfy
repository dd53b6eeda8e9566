/** The roll-up kept sample by sample agrees with the batch fold, loses no time, and dropping old
    days on every write is the same as dropping them once at the end. */
module RollupAgreement {
  import opened Outcomes
  import opened HealthSeries
  import opened Rollup
  import Medians

  // ---------- agreement with the batch fold ----------

  lemma LimitsAgreeIff(step: real)
    ensures RollupLimit(step) == GapLimit(step) <==> step >= 60000.0
  {
  }

  predicate SameUpAndDown(a: Row, b: Row) {
    a.upMs == b.upMs && a.downMs == b.downMs
  }

  // What the batch fold has for a day: no blind time, no turns, and every run it saw as an outage.
  function BatchRow(samples: seq<Sample>, limit: real, day: int): Row
    requires samples != []
  {
    TimesOf(DayRow(samples, limit, |samples|, day)).(outages := Starts(samples, limit, |samples|, day))
  }

  lemma BatchTallies(samples: seq<Sample>, now: int, day: int)
    requires |samples| >= 2
    ensures RowOf(DaysOf(samples, now), day) == BatchRow(samples, GapLimit(Step(samples)), day)
  {
    var limit, n := GapLimit(Step(samples)), |samples|;
    var s := Scanned(samples, limit, n);
    var outages := Finish(s, samples[n - 1], limit, now);
    FoldedTallies(samples, limit, n, day);
    BatchStarts(samples, limit, now, day, s, outages);
    OutagesCounted(Folded(s.intervals), outages, TimesOf(DayRow(samples, limit, n, day)), Starts(samples, limit, n, day));
  }

  lemma BatchStarts(samples: seq<Sample>, limit: real, now: int, day: int, s: Scan, outages: seq<Outage>)
    requires samples != [] && s == Scanned(samples, limit, |samples|)
    requires outages == Finish(s, samples[|samples| - 1], limit, now)
    ensures StartsOn(outages, day) == Starts(samples, limit, |samples|, day)
    ensures Starts(samples, limit, |samples|, day) > 0 ==> HasDay(Folded(s.intervals), day)
  {
    ScanStarts(samples, limit, |samples|, day);
    FinishStarts(s, samples[|samples| - 1], limit, now, day);
    StartsHaveRows(samples, limit, |samples|, day);
  }

  lemma OutagesCounted(rows: seq<Row>, outages: seq<Outage>, row: Row, starts: int)
    requires Holds(rows, row) && row.outages == 0
    requires StartsOn(outages, row.day) == starts && (starts > 0 ==> HasDay(rows, row.day))
    ensures RowOf(SortRows(WithOutages(rows, outages)), row.day) == row.(outages := starts)
  {
    OutagesRead(rows, outages, row.day);
    SortReads(WithOutages(rows, outages), row.day);
  }

  ghost predicate Agree(samples: seq<Sample>, step: real)
    requires |samples| >= 2
  {
    forall day, now :: SameUpAndDown(RowOf(Whole(samples, RollupLimit(step), |samples|), day), RowOf(DaysOf(samples, now), day))
  }

  lemma IncrementalIsBatch(samples: seq<Sample>, step: real)
    requires |samples| >= 2 && Step(samples) == step && step >= 60000.0
    ensures Agree(samples, step)
  {
    LimitsAgreeIff(step);
    forall day, now
      ensures SameUpAndDown(RowOf(Whole(samples, RollupLimit(step), |samples|), day), RowOf(DaysOf(samples, now), day))
    {
      WholeTallies(samples, RollupLimit(step), |samples|, day);
      BatchTallies(samples, now, day);
    }
  }

  // ---------- below one minute they part ----------

  // Two steps, then a silence the roll-up still counts as up and the batch fold as blind.
  function Silence(step: int): seq<Sample> {
    [Sample(0, true), Sample(step, true), Sample(2 * step, true), Sample(2 * step + 180000, true)]
  }

  lemma SilenceStep(step: int)
    requires 0 < step < 60000
    ensures Step(Silence(step)) == step as real
  {
    var samples := Silence(step);
    var two := [Sample(0, true), Sample(step, true)];
    var three := two + [Sample(2 * step, true)];
    assert two[..1] == [Sample(0, true)];
    assert Deltas(two) == [step];
    assert three[..2] == two;
    assert Deltas(three) == [step, step];
    assert samples[..3] == three;
    assert Deltas(samples) == [step, step, 180000];
    assert [step, step, 180000][1..] == [step, 180000];
    assert [step, 180000][1..] == [180000];
    assert Medians.Sort([180000]) == [180000];
    assert Medians.Sort([step, 180000]) == [step, 180000];
    assert Medians.Sort([step, step, 180000]) == [step, step, 180000];
  }

  lemma SilenceParts(step: int)
    requires 0 < step < 60000
    ensures !Agree(Silence(step), step as real)
  {
    var samples := Silence(step);
    SilenceStep(step);
    var a, b := RollupLimit(step as real), GapLimit(step as real);
    assert a == 180000.0 && b == step as real + 120000.0;
    WholeTallies(samples, a, 4, 0);
    BatchTallies(samples, 0, 0);
    SilenceUp(samples, a, step);
    SilenceUp(samples, b, step);
    assert !SameUpAndDown(RowOf(Whole(samples, a, 4), 0), RowOf(DaysOf(samples, 0), 0));
  }

  lemma SilenceUp(samples: seq<Sample>, limit: real, step: int)
    requires 0 < step < 60000 && samples == Silence(step) && limit >= step as real
    ensures Tally(samples, limit, 4, 0, Up) == 2 * step + if limit >= 180000.0 then 180000 else 0
  {
    assert forall i | 0 <= i < 4 :: DayOf(samples[i].at) == 0;
    assert Tally(samples, limit, 1, 0, Up) == 0;
    assert Tally(samples, limit, 2, 0, Up) == step;
    assert Tally(samples, limit, 3, 0, Up) == 2 * step;
  }

  ghost predicate AlwaysAgree(step: int) {
    forall samples: seq<Sample> | |samples| >= 2 && InOrder(samples) && Step(samples) == step as real :: Agree(samples, step as real)
  }

  // For a spacing of whole milliseconds the two agree on every series, day and clock exactly
  // when the spacing is a minute or more.
  lemma AgreeIffMinute(step: int)
    requires step > 0
    ensures AlwaysAgree(step) <==> step >= 60000
  {
    if step >= 60000 {
      forall samples: seq<Sample> | |samples| >= 2 && InOrder(samples) && Step(samples) == step as real
        ensures Agree(samples, step as real)
      {
        IncrementalIsBatch(samples, step as real);
      }
    } else {
      SilenceStep(step);
      SilenceParts(step);
    }
  }

  // ---------- the counts part beside blind stretches ----------

  // A run of down samples on this day that begins the series or follows a blind stretch, from a
  // sample that was down already.
  predicate UnseenStart(samples: seq<Sample>, limit: real, day: int, i: nat) {
    0 < i < |samples| && DayOf(samples[i].at) == day && Share(samples, limit, i, Unseen) == 1
  }

  lemma {:induction false} UnseenIsNone(samples: seq<Sample>, limit: real, n: nat, day: int)
    requires 1 <= n <= |samples|
    ensures Tally(samples, limit, n, day, Unseen) >= 0
    ensures Tally(samples, limit, n, day, Unseen) == 0 <==> forall i | 0 < i < n :: !UnseenStart(samples, limit, day, i)
  {
    if n > 1 {
      UnseenIsNone(samples, limit, n - 1, day);
      assert UnseenStart(samples, limit, day, n - 1) <==>
        DayOf(samples[n - 1].at) == day && Share(samples, limit, n - 1, Unseen) == 1;
    }
  }

  // Both count the falls of a day as outages; the batch fold adds the runs whose beginning the meter
  // did not see, so the counts are the same exactly on days without one.  It never counts a turn.
  lemma OutagesAgreeIff(samples: seq<Sample>, now: int, day: int)
    requires |samples| >= 2 && Step(samples) >= 60000.0
    ensures var n, limit := |samples|, GapLimit(Step(samples));
      var kept, batch := RowOf(Whole(samples, RollupLimit(Step(samples)), n), day), RowOf(DaysOf(samples, now), day);
      && batch.transitions == 0
      && batch.outages >= kept.outages
      && (batch.outages == kept.outages <==> forall i | 0 < i < n :: !UnseenStart(samples, limit, day, i))
  {
    LimitsAgreeIff(Step(samples));
    WholeTallies(samples, RollupLimit(Step(samples)), |samples|, day);
    BatchTallies(samples, now, day);
    UnseenIsNone(samples, GapLimit(Step(samples)), |samples|, day);
  }

  // ---------- no time is lost ----------

  lemma {:induction false} TotalUpdate(rows: seq<Row>, i: nat, row: Row)
    requires i < |rows|
    ensures Total(rows[i := row]) == Total(rows) - rows[i].Ms() + row.Ms()
  {
    if i > 0 {
      TotalUpdate(rows[1..], i - 1, row);
      assert rows[i := row][1..] == rows[1..][i - 1 := row];
    }
  }

  lemma {:induction false} TotalAppend(rows: seq<Row>, row: Row)
    ensures Total(rows + [row]) == Total(rows) + row.Ms()
  {
    if rows != [] {
      TotalAppend(rows[1..], row);
      assert (rows + [row])[1..] == rows[1..] + [row];
    }
  }

  lemma {:induction false} TotalPlace(rows: seq<Row>, row: Row)
    ensures Total(PlaceRow(rows, row)) == Total(rows) + row.Ms()
  {
    if rows != [] && row.day >= rows[0].day {
      TotalPlace(rows[1..], row);
    }
  }

  lemma {:induction false} TotalSort(rows: seq<Row>)
    ensures Total(SortRows(rows)) == Total(rows)
    decreases |rows|
  {
    if rows != [] {
      var n := |rows| - 1;
      TotalSort(rows[..n]);
      TotalPlace(SortRows(rows[..n]), rows[n]);
      TotalAppend(rows[..n], rows[n]);
      assert rows[..n] + [rows[n]] == rows;
    }
  }

  lemma PutTotal(rows: seq<Row>, row: Row)
    ensures Total(Put(rows, row)) == Total(rows) - RowOf(rows, row.day).Ms() + row.Ms()
  {
    var i := Find(rows, row.day);
    if i < |rows| {
      TotalUpdate(rows, i, row);
    } else {
      TotalAppend(rows, row);
    }
  }

  lemma BookedMs(rows: seq<Row>, prev: Option<Sample>, cur: Sample, limit: real)
    ensures var row, day := Booked(rows, prev, cur, limit), DayOf(cur.at);
      row.day == day && row.Ms() == RowOf(rows, day).Ms() + if prev.Some? then cur.at - prev.value.at else 0
  {
  }

  lemma EnteredTotal(rows: seq<Row>, prev: Option<Sample>, cur: Sample, limit: real)
    ensures Total(Entered(rows, prev, cur, limit)) == Total(rows) + if prev.Some? then cur.at - prev.value.at else 0
  {
    var row := Booked(rows, prev, cur, limit);
    TotalSort(Put(rows, row));
    PutTotal(rows, row);
    BookedMs(rows, prev, cur, limit);
  }

  // Up, down and unknown time add up to the whole span.
  lemma {:induction false} WholeTotal(samples: seq<Sample>, limit: real, n: nat)
    requires 1 <= n <= |samples|
    ensures Total(Whole(samples, limit, n)) == samples[n - 1].at - samples[0].at
  {
    if n == 1 {
      EnteredTotal([], None, samples[0], limit);
    } else {
      WholeTotal(samples, limit, n - 1);
      EnteredTotal(Whole(samples, limit, n - 1), Some(samples[n - 2]), samples[n - 1], limit);
    }
  }

  // ---------- cutting on every write ----------

  predicate Rising(rows: seq<Row>) {
    forall i, j | 0 <= i < j < |rows| :: rows[i].day < rows[j].day
  }

  lemma {:induction false} PlaceLast(rows: seq<Row>, row: Row)
    requires forall i | 0 <= i < |rows| :: rows[i].day < row.day
    ensures PlaceRow(rows, row) == rows + [row]
  {
    if rows != [] {
      PlaceLast(rows[1..], row);
    }
  }

  lemma {:induction false} SortRising(rows: seq<Row>)
    requires Rising(rows)
    ensures SortRows(rows) == rows
    decreases |rows|
  {
    if rows != [] {
      var n := |rows| - 1;
      SortRising(rows[..n]);
      PlaceLast(rows[..n], rows[n]);
    }
  }

  predicate UpTo(rows: seq<Row>, day: int) {
    Rising(rows) && (rows != [] ==> rows[|rows| - 1].day <= day)
  }

  // The rows before the day's own.
  function Before(rows: seq<Row>, day: int): seq<Row> {
    if rows != [] && rows[|rows| - 1].day == day then rows[..|rows| - 1] else rows
  }

  lemma FindAtEnd(rows: seq<Row>, day: int)
    requires UpTo(rows, day)
    ensures Find(rows, day) == |Before(rows, day)|
  {
  }

  lemma PutAtEnd(rows: seq<Row>, row: Row, day: int)
    requires UpTo(rows, day) && row.day == day
    ensures Put(rows, row) == Before(rows, day) + [row]
    ensures UpTo(Put(rows, row), day)
  {
    FindAtEnd(rows, day);
  }

  // In order, only the last row can change.
  lemma EnteredAtEnd(rows: seq<Row>, prev: Option<Sample>, cur: Sample, limit: real)
    requires UpTo(rows, DayOf(cur.at))
    ensures Entered(rows, prev, cur, limit) == Before(rows, DayOf(cur.at)) + [Booked(rows, prev, cur, limit)]
    ensures UpTo(Entered(rows, prev, cur, limit), DayOf(cur.at))
  {
    var row := Booked(rows, prev, cur, limit);
    PutAtEnd(rows, row, DayOf(cur.at));
    SortRising(Put(rows, row));
  }

  lemma SuffixTail(a: seq<Row>, b: seq<Row>, row: Row, kept: nat)
    requires kept > 0 && (a == b || (kept - 1 <= |b| <= |a| && b == a[|a| - |b|..]))
    ensures LastRows(b + [row], kept) == LastRows(a + [row], kept)
  {
  }

  lemma TailRises(rows: seq<Row>, day: int, kept: nat)
    requires UpTo(rows, day) && kept > 0
    ensures UpTo(LastRows(rows, kept), day)
  {
  }

  // What the cut leaves of the rows before the day's own.
  lemma TailBefore(rows: seq<Row>, day: int, kept: nat)
    requires UpTo(rows, day) && kept > 0
    ensures var a, b := Before(rows, day), Before(LastRows(rows, kept), day);
      a == b || (kept - 1 <= |b| <= |a| && b == a[|a| - |b|..])
  {
  }

  // The day's own row is the last one.
  lemma RowAtEnd(rows: seq<Row>, day: int)
    requires UpTo(rows, day)
    ensures RowOf(rows, day) == if rows != [] && rows[|rows| - 1].day == day then rows[|rows| - 1] else Fresh(day)
  {
    FindAtEnd(rows, day);
  }

  lemma TailReads(rows: seq<Row>, day: int, kept: nat)
    requires UpTo(rows, day) && kept > 0
    ensures RowOf(LastRows(rows, kept), day) == RowOf(rows, day)
  {
    TailRises(rows, day, kept);
    RowAtEnd(rows, day);
    RowAtEnd(LastRows(rows, kept), day);
    LastIsKept(rows, kept);
  }

  lemma LastIsKept(rows: seq<Row>, kept: nat)
    requires kept > 0
    ensures var tail := LastRows(rows, kept); (tail == [] <==> rows == []) && (rows != [] ==> tail[|tail| - 1] == rows[|rows| - 1])
  {
  }

  lemma TailEntered(rows: seq<Row>, prev: Option<Sample>, cur: Sample, limit: real, kept: nat)
    requires UpTo(rows, DayOf(cur.at)) && kept > 0
    ensures LastRows(Entered(LastRows(rows, kept), prev, cur, limit), kept) == LastRows(Entered(rows, prev, cur, limit), kept)
  {
    var tail, day, row := LastRows(rows, kept), DayOf(cur.at), Booked(rows, prev, cur, limit);
    TailRises(rows, day, kept);
    TailReads(rows, day, kept);
    assert Booked(tail, prev, cur, limit) == row;
    EnteredAtEnd(rows, prev, cur, limit);
    EnteredAtEnd(tail, prev, cur, limit);
    TailBefore(rows, day, kept);
    SuffixTail(Before(rows, day), Before(tail, day), row, kept);
  }

  lemma UpToLater(rows: seq<Row>, from: int, to: int)
    requires UpTo(rows, DayOf(from)) && from <= to
    ensures UpTo(rows, DayOf(to))
  {
  }

  // One more write: the file stays the end of what it would be with every day kept.
  lemma WriteKeepsTail(file: seq<Row>, rows: seq<Row>, prev: Option<Sample>, cur: Sample, limit: real)
    requires UpTo(rows, DayOf(cur.at)) && file == LastRows(rows, KEPT_DAYS)
    ensures Recorded(file, prev, cur, limit) == LastRows(Entered(rows, prev, cur, limit), KEPT_DAYS)
    ensures UpTo(Entered(rows, prev, cur, limit), DayOf(cur.at))
  {
    EnteredAtEnd(rows, prev, cur, limit);
    TailEntered(rows, prev, cur, limit, KEPT_DAYS);
  }

  lemma {:induction false} StoredIsTail(samples: seq<Sample>, limit: real, n: nat)
    requires 1 <= n <= |samples| && InOrder(samples)
    ensures UpTo(Whole(samples, limit, n), DayOf(samples[n - 1].at))
    ensures Stored(samples, limit, n) == LastRows(Whole(samples, limit, n), KEPT_DAYS)
  {
    if n == 1 {
      WriteKeepsTail([], [], None, samples[0], limit);
    } else {
      StoredIsTail(samples, limit, n - 1);
      UpToLater(Whole(samples, limit, n - 1), samples[n - 2].at, samples[n - 1].at);
      WriteKeepsTail(Stored(samples, limit, n - 1), Whole(samples, limit, n - 1), Some(samples[n - 2]), samples[n - 1], limit);
    }
  }

  // What is on disk after a series fed in order: its last 400 days exactly, and for a series of
  // no more days than that, all of its time.
  lemma StoredIsExact(samples: seq<Sample>, limit: real)
    requires samples != [] && InOrder(samples)
    ensures var stored, whole, n := Stored(samples, limit, |samples|), Whole(samples, limit, |samples|), |samples|;
      && Rising(whole)
      && stored == LastRows(whole, 400)
      && (forall i | 0 <= i < |whole| :: whole[i] == DayRow(samples, limit, n, whole[i].day))
      && (|whole| <= 400 ==> Total(stored) == samples[n - 1].at - samples[0].at)
  {
    var n, whole := |samples|, Whole(samples, limit, |samples|);
    StoredIsTail(samples, limit, n);
    WholeTotal(samples, limit, n);
    forall i | 0 <= i < |whole|
      ensures whole[i] == DayRow(samples, limit, n, whole[i].day)
    {
      WholeTallies(samples, limit, n, whole[i].day);
      FindIs(whole, whole[i].day, i);
    }
  }
}
