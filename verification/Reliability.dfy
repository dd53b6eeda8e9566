/** The uptime percentage of a window of samples. */
module Reliability {
  import opened Outcomes
  import opened HealthSeries
  import Medians

  // A stored row: its time when that can be read at all.
  datatype Row = Row(at: Option<int>, up: bool)

  // ---------- rows to samples ----------

  function Readable(rows: seq<Row>): seq<Sample> {
    if rows == [] then []
    else (if rows[0].at.Some? then [Sample(rows[0].at.value, rows[0].up)] else []) + Readable(rows[1..])
  }

  // Before the first later sample, so after every sample of the same time.
  function Place(samples: seq<Sample>, s: Sample): (r: seq<Sample>)
    ensures |r| == |samples| + 1
  {
    if samples == [] || s.at < samples[0].at then [s] + samples else [samples[0]] + Place(samples[1..], s)
  }

  function StableSort(samples: seq<Sample>): seq<Sample> {
    if samples == [] then [] else Place(StableSort(samples[..|samples| - 1]), samples[|samples| - 1])
  }

  function Normalized(rows: seq<Row>): seq<Sample> {
    StableSort(Readable(rows))
  }

  // The samples of one instant, in the order given.
  function At(samples: seq<Sample>, t: int): seq<Sample> {
    if samples == [] then []
    else if samples[0].at == t then [samples[0]] + At(samples[1..], t)
    else At(samples[1..], t)
  }

  lemma {:induction false} AtAppend(a: seq<Sample>, b: seq<Sample>, t: int)
    ensures At(a + b, t) == At(a, t) + At(b, t)
  {
    if a == [] {
      assert a + b == b;
    } else {
      var s, rest := a[0], a[1..];
      AtAppend(rest, b, t);
      assert (a + b)[0] == s && (a + b)[1..] == rest + b;
      assert [s] + (At(rest, t) + At(b, t)) == [s] + At(rest, t) + At(b, t);
    }
  }

  lemma InOrderCons(s: Sample, rest: seq<Sample>)
    requires InOrder(rest) && (rest == [] || s.at <= rest[0].at)
    ensures InOrder([s] + rest)
  {
  }

  lemma {:induction false} NoneAt(samples: seq<Sample>, t: int)
    requires InOrder(samples) && (samples == [] || t < samples[0].at)
    ensures At(samples, t) == []
  {
    if samples != [] {
      NoneAt(samples[1..], t);
    }
  }

  lemma {:induction false} PlaceKeepsOrder(samples: seq<Sample>, s: Sample)
    requires InOrder(samples)
    ensures InOrder(Place(samples, s))
    ensures samples != [] ==> Place(samples, s)[0].at == (if s.at < samples[0].at then s.at else samples[0].at)
  {
    if samples == [] || s.at < samples[0].at {
      InOrderCons(s, samples);
    } else {
      PlaceKeepsOrder(samples[1..], s);
      InOrderCons(samples[0], Place(samples[1..], s));
    }
  }

  lemma {:induction false} PlaceAt(samples: seq<Sample>, s: Sample, t: int)
    requires InOrder(samples)
    ensures At(Place(samples, s), t) == At(samples, t) + At([s], t)
  {
    if samples == [] || s.at < samples[0].at {
      AtAppend([s], samples, t);
      if t == s.at {
        NoneAt(samples, t);
      }
    } else {
      PlaceAt(samples[1..], s, t);
      AtAppend([samples[0]], Place(samples[1..], s), t);
      AtAppend([samples[0]], samples[1..], t);
      assert [samples[0]] + samples[1..] == samples;
    }
  }

  lemma {:induction false} StableSortSorts(samples: seq<Sample>)
    ensures InOrder(StableSort(samples))
    decreases |samples|
  {
    if samples != [] {
      var n := |samples| - 1;
      StableSortSorts(samples[..n]);
      PlaceKeepsOrder(StableSort(samples[..n]), samples[n]);
    }
  }

  lemma {:induction false} StableSortAt(samples: seq<Sample>, t: int)
    ensures At(StableSort(samples), t) == At(samples, t)
    decreases |samples|
  {
    if samples != [] {
      var n := |samples| - 1;
      StableSortSorts(samples[..n]);
      StableSortAt(samples[..n], t);
      PlaceAt(StableSort(samples[..n]), samples[n], t);
      AtAppend(samples[..n], [samples[n]], t);
      assert samples[..n] + [samples[n]] == samples;
    }
  }

  // What the rows say of one instant, in the order they are stored.
  function Instant(rows: seq<Row>, t: int): seq<Sample> {
    if rows == [] then []
    else (if rows[0].at == Some(t) then [Sample(t, rows[0].up)] else []) + Instant(rows[1..], t)
  }

  lemma {:induction false} ReadableAt(rows: seq<Row>, t: int)
    ensures At(Readable(rows), t) == Instant(rows, t)
  {
    if rows != [] {
      ReadableAt(rows[1..], t);
      var first := if rows[0].at.Some? then [Sample(rows[0].at.value, rows[0].up)] else [];
      AtAppend(first, Readable(rows[1..]), t);
    }
  }

  // Normalised samples are in order of time, and each instant keeps exactly its readable rows,
  // in the order they were stored.
  lemma NormalizedIsOrdered(rows: seq<Row>)
    ensures InOrder(Normalized(rows))
    ensures forall t :: At(Normalized(rows), t) == Instant(rows, t)
  {
    StableSortSorts(Readable(rows));
    forall t
      ensures At(Normalized(rows), t) == Instant(rows, t)
    {
      StableSortAt(Readable(rows), t);
      ReadableAt(rows, t);
    }
  }

  // ---------- the percentage ----------

  function InWindow(samples: seq<Sample>, cutoff: int): seq<Sample> {
    if samples == [] then []
    else (if samples[0].at >= cutoff then [samples[0]] else []) + InWindow(samples[1..], cutoff)
  }

  // A share as a percentage to one decimal, halves up.
  function RoundPercent(share: real): real {
    (share * 1000.0 + 0.5).Floor as real / 10.0
  }

  function MaxInt(a: int, b: int): int {
    if a >= b then a else b
  }

  function Percent(coveredMs: int, downMs: int): Option<real> {
    if coveredMs > 0 then Some(RoundPercent(MaxInt(0, coveredMs - downMs) as real / coveredMs as real)) else None
  }

  function Uptime(samples: seq<Sample>, now: int, windowMs: int): Option<real> {
    var series := Segmented(InWindow(samples, now - windowMs), now);
    Percent(series.coveredMs, TotalMs(series.outages))
  }

  method SumOutages(outages: seq<Outage>) returns (downMs: int)
    ensures downMs == TotalMs(outages)
  {
    downMs := 0;
    var i := 0;
    while i < |outages|
      invariant 0 <= i <= |outages| && downMs == TotalMs(outages[..i])
    {
      TotalMsAppend(outages[..i], outages[i]);
      assert outages[..i + 1] == outages[..i] + [outages[i]];
      downMs := downMs + outages[i].Ms();
      i := i + 1;
    }
    assert outages[..i] == outages;
  }

  method UptimeFrom(samples: seq<Sample>, now: int, windowMs: int) returns (r: Option<real>)
    ensures r == Uptime(samples, now, windowMs)
  {
    var series := SegmentSeries(InWindow(samples, now - windowMs), now);
    var downMs := SumOutages(series.outages);
    r := Percent(series.coveredMs, downMs);
  }

  // ---------- what it says ----------

  // To one decimal: within a twentieth of the share in percent.
  predicate IsPercent(r: real, up: int, covered: int)
    requires covered > 0
  {
    -1 as real <= 20.0 * (r - 100.0 * (up as real / covered as real)) <= 1 as real
  }

  lemma RoundsToPercent(up: int, covered: int)
    requires covered > 0
    ensures IsPercent(RoundPercent(up as real / covered as real), up, covered)
  {
    var share := up as real / covered as real;
    var floor := (share * 1000.0 + 0.5).Floor as real;
    assert share * 1000.0 - 0.5 <= floor <= share * 1000.0 + 0.5;
  }

  // The samples from the cutoff on, which of an ordered series are its end.
  lemma {:induction false} WindowIsEnd(samples: seq<Sample>, cutoff: int) returns (k: nat)
    requires InOrder(samples)
    ensures k <= |samples| && InWindow(samples, cutoff) == samples[k..]
    ensures forall i | 0 <= i < |samples| :: samples[i].at >= cutoff <==> k <= i
  {
    if samples == [] {
      k := 0;
    } else if samples[0].at >= cutoff {
      k := 0;
      AllInWindow(samples, cutoff);
    } else {
      k := WindowIsEnd(samples[1..], cutoff);
      k := k + 1;
      assert samples[1..][k - 1..] == samples[k..];
      assert forall i | 0 < i < |samples| :: samples[i] == samples[1..][i - 1];
    }
  }

  // Of the covered time, the part that is not in outages; nothing when none was covered.
  predicate IsUptime(r: Option<real>, coveredMs: int, downMs: int) {
    var up := coveredMs - downMs;
    && (r.Some? <==> coveredMs > 0)
    && (r.Some? ==> IsPercent(r.value, if up > 0 then up else 0, coveredMs))
  }

  lemma PercentIs(coveredMs: int, downMs: int)
    ensures IsUptime(Percent(coveredMs, downMs), coveredMs, downMs)
  {
    if coveredMs > 0 {
      RoundsToPercent(MaxInt(0, coveredMs - downMs), coveredMs);
    }
  }

  lemma UptimeOfEnd(samples: seq<Sample>, now: int, windowMs: int, end: seq<Sample>)
    requires InWindow(samples, now - windowMs) == end
    ensures var series := Segmented(end, now);
      IsUptime(Uptime(samples, now, windowMs), series.coveredMs, TotalMs(series.outages))
  {
    var series := Segmented(end, now);
    PercentIs(series.coveredMs, TotalMs(series.outages));
  }

  // The uptime is that of the samples from the start of the window on.
  lemma UptimeIs(samples: seq<Sample>, now: int, windowMs: int) returns (k: nat)
    requires InOrder(samples)
    ensures k <= |samples| && forall i | 0 <= i < |samples| :: samples[i].at >= now - windowMs <==> k <= i
    ensures var series := Segmented(samples[k..], now);
      IsUptime(Uptime(samples, now, windowMs), series.coveredMs, TotalMs(series.outages))
  {
    k := WindowIsEnd(samples, now - windowMs);
    UptimeOfEnd(samples, now, windowMs, samples[k..]);
  }

  // ---------- it is a percentage ----------

  predicate Sensible(r: Option<real>) {
    r.Some? ==> 0.0 <= r.value <= 100.0
  }

  lemma ShareIsSensible(up: int, covered: int)
    requires 0 <= up <= covered && covered > 0
    ensures 0.0 <= RoundPercent(up as real / covered as real) <= 100.0
  {
    var x := up as real / covered as real;
    assert 0.0 <= x <= 1.0;
    assert 0.0 <= x * 1000.0 <= 1000.0;
  }

  lemma {:induction false} AllInWindow(samples: seq<Sample>, cutoff: int)
    requires InOrder(samples) && (samples == [] || samples[0].at >= cutoff)
    ensures InWindow(samples, cutoff) == samples
  {
    if samples != [] {
      AllInWindow(samples[1..], cutoff);
    }
  }

  lemma {:induction false} WindowKeepsOrder(samples: seq<Sample>, cutoff: int)
    requires InOrder(samples)
    ensures var w := InWindow(samples, cutoff);
      InOrder(w) && (w != [] ==> samples != [] && w[|w| - 1] == samples[|samples| - 1])
  {
    if samples != [] {
      if samples[0].at >= cutoff {
        AllInWindow(samples, cutoff);
      } else {
        WindowKeepsOrder(samples[1..], cutoff);
      }
    }
  }

  // With the clock not behind the last sample the outages are never negative.
  lemma DownIsNotNegative(samples: seq<Sample>, now: int)
    requires |samples| >= 2 && InOrder(samples) && samples[|samples| - 1].at <= now
    ensures var r := Segmented(samples, now); r.coveredMs >= 0 && TotalMs(r.outages) >= 0
  {
    OutageTimeIsDownTime(samples, now);
    DownTimeCovered(samples, GapLimit(Step(samples)), |samples|);
  }

  lemma UptimeIsSensible(samples: seq<Sample>, now: int, windowMs: int)
    requires InOrder(samples) && (samples != [] ==> samples[|samples| - 1].at <= now)
    ensures Sensible(Uptime(samples, now, windowMs))
  {
    var window := InWindow(samples, now - windowMs);
    WindowKeepsOrder(samples, now - windowMs);
    if |window| >= 2 {
      DownIsNotNegative(window, now);
      var r := Segmented(window, now);
      if r.coveredMs > 0 {
        ShareIsSensible(MaxInt(0, r.coveredMs - TotalMs(r.outages)), r.coveredMs);
      }
    }
  }

  function Dropped(last: int): seq<Sample> {
    [Sample(last - 1, true), Sample(last, false)]
  }

  lemma DroppedLimit(last: int)
    ensures GapLimit(Step(Dropped(last))) == 120001.0
  {
    var samples := Dropped(last);
    assert samples[..1] == [samples[0]];
    assert Deltas(samples) == [1];
    assert Medians.Sort([1]) == [1];
  }

  lemma DroppedOutage(last: int, now: int)
    requires now < last
    ensures var r := Segmented(Dropped(last), now); r.coveredMs == 1 && r.outages == [Outage(last, now, true, false)]
  {
    var samples, limit := Dropped(last), GapLimit(Step(Dropped(last)));
    DroppedLimit(last);
    assert Scanned(samples, limit, 1) == EMPTY;
    assert Scanned(samples, limit, 2) == Scan([Interval(last - 1, last, false)], [], 1, 0, 1, Some(last));
  }

  // A clock behind the last sample turns the open outage's length negative, and the app is
  // reported up for more than all of the time.
  lemma ClockBehindOverflows(last: int, now: int)
    requires now < last
    ensures InOrder(Dropped(last)) && !Sensible(Uptime(Dropped(last), now, 1))
  {
    AllInWindow(Dropped(last), now - 1);
    DroppedOutage(last, now);
    TotalMsAppend([], Outage(last, now, true, false));
    assert [] + [Outage(last, now, true, false)] == [Outage(last, now, true, false)];
    RoundsUpward(1 + last - now);
  }

  lemma RoundsUpward(up: int)
    requires up >= 2
    ensures RoundPercent(up as real) > 100.0
  {
    assert up as real * 1000.0 + 0.5 >= 2000.0;
  }

  ghost predicate AlwaysSensible(last: int, now: int) {
    forall samples: seq<Sample>, windowMs: int | samples != [] && InOrder(samples) && samples[|samples| - 1].at == last ::
      Sensible(Uptime(samples, now, windowMs))
  }

  // Uptime lies within 0..100 for every series that ends at a given time, whatever the window,
  // exactly when the clock has reached that time.
  lemma SensibleIffClockNotBehind(last: int, now: int)
    ensures AlwaysSensible(last, now) <==> last <= now
  {
    if last <= now {
      forall samples: seq<Sample>, windowMs: int | samples != [] && InOrder(samples) && samples[|samples| - 1].at == last
        ensures Sensible(Uptime(samples, now, windowMs))
      {
        UptimeIsSensible(samples, now, windowMs);
      }
    } else {
      ClockBehindOverflows(last, now);
    }
  }
}
