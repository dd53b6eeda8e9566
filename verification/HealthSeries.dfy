/** One pass over a health series: how much time was covered, where the meter was blind, and
    when the app was down.  Times are integer milliseconds; the median step may be a half. */
module HealthSeries {
  import opened Outcomes
  import opened Medians

  datatype Sample = Sample(at: int, up: bool)

  datatype Interval = Interval(from: int, to: int, up: bool)

  datatype Outage = Outage(from: int, to: int, ongoing: bool, endedByGap: bool) {
    function Ms(): int { to - from }
  }

  datatype Series = Series(
    intervals: seq<Interval>, outages: seq<Outage>, coveredMs: int, gapMs: int, transitions: nat, step: Option<real>)

  // ---------- the median spacing ----------

  function Deltas(samples: seq<Sample>): seq<int> {
    if |samples| < 2 then []
    else Deltas(samples[..|samples| - 1]) + [samples[|samples| - 1].at - samples[|samples| - 2].at]
  }

  // The spacing of the series; a zero median counts as one minute.
  function Step(samples: seq<Sample>): real
    requires |samples| >= 2
  {
    var m := Median(Deltas(samples));
    if m == 0.0 then 60000.0 else m
  }

  function Max(a: real, b: real): real {
    if a >= b then a else b
  }

  function GapLimit(step: real): real {
    Max(3.0 * step, step + 120000.0)
  }

  // ---------- the pass ----------

  datatype Scan = Scan(
    intervals: seq<Interval>, outages: seq<Outage>, coveredMs: int, gapMs: int, transitions: nat, open: Option<int>)

  predicate Covered(samples: seq<Sample>, limit: real, i: nat)
    requires 0 < i < |samples|
  {
    (samples[i].at - samples[i - 1].at) as real <= limit
  }

  // Takes in sample i.
  function Advance(s: Scan, prev: Sample, cur: Sample, limit: real): Scan {
    var dt := cur.at - prev.at;
    if dt as real > limit then
      var closed := if s.open.Some? then s.outages + [Outage(s.open.value, prev.at, false, true)] else s.outages;
      s.(gapMs := s.gapMs + dt, outages := closed, open := None)
    else
      var t := s.(coveredMs := s.coveredMs + dt,
                  intervals := s.intervals + [Interval(prev.at, cur.at, cur.up)],
                  transitions := s.transitions + if cur.up != prev.up then 1 else 0);
      if !cur.up then (if s.open.None? then t.(open := Some(cur.at)) else t)
      else if s.open.Some? then t.(outages := s.outages + [Outage(s.open.value, cur.at, false, false)], open := None)
      else t
  }

  const EMPTY := Scan([], [], 0, 0, 0, None)

  // After the first n samples.
  function Scanned(samples: seq<Sample>, limit: real, n: nat): Scan
    requires 1 <= n <= |samples|
  {
    if n == 1 then EMPTY
    else Advance(Scanned(samples, limit, n - 1), samples[n - 2], samples[n - 1], limit)
  }

  // An outage still open at the end runs to now, unless the meter has been silent too long.
  function Finish(s: Scan, last: Sample, limit: real, now: int): seq<Outage> {
    if s.open.None? then s.outages
    else if !last.up && (now - last.at) as real <= limit then s.outages + [Outage(s.open.value, now, true, false)]
    else s.outages + [Outage(s.open.value, last.at, false, false)]
  }

  function Segmented(samples: seq<Sample>, now: int): Series {
    if |samples| < 2 then Series([], [], 0, 0, 0, None)
    else
      var step := Step(samples);
      var limit := GapLimit(step);
      var s := Scanned(samples, limit, |samples|);
      Series(s.intervals, Finish(s, samples[|samples| - 1], limit, now), s.coveredMs, s.gapMs, s.transitions, Some(step))
  }

  method Spacing(samples: seq<Sample>) returns (step: real)
    requires |samples| >= 2
    ensures step == Step(samples)
  {
    var deltas := [];
    var i := 1;
    while i < |samples|
      invariant 1 <= i <= |samples| && deltas == Deltas(samples[..i])
    {
      assert samples[..i + 1][..i] == samples[..i];
      deltas := deltas + [samples[i].at - samples[i - 1].at];
      i := i + 1;
    }
    assert samples[..i] == samples;
    var median := Median(deltas);
    step := if median == 0.0 then 60000.0 else median;
  }

  method Walk(samples: seq<Sample>, limit: real) returns (r: Scan)
    requires |samples| >= 2
    ensures r == Scanned(samples, limit, |samples|)
  {
    var intervals, outages: seq<Outage> := [], [];
    var coveredMs, gapMs, transitions: nat := 0, 0, 0;
    var open: Option<int> := None;
    var i := 1;
    while i < |samples|
      invariant 1 <= i <= |samples|
      invariant Scanned(samples, limit, i) == Scan(intervals, outages, coveredMs, gapMs, transitions, open)
    {
      var prev, cur := samples[i - 1], samples[i];
      var dt := cur.at - prev.at;
      i := i + 1;
      if dt as real > limit {
        gapMs := gapMs + dt;
        if open.Some? {
          outages, open := outages + [Outage(open.value, prev.at, false, true)], None;
        }
        continue;
      }
      coveredMs := coveredMs + dt;
      intervals := intervals + [Interval(prev.at, cur.at, cur.up)];
      if cur.up != prev.up {
        transitions := transitions + 1;
      }
      if !cur.up {
        if open.None? {
          open := Some(cur.at);
        }
      } else if open.Some? {
        outages, open := outages + [Outage(open.value, cur.at, false, false)], None;
      }
    }
    return Scan(intervals, outages, coveredMs, gapMs, transitions, open);
  }

  method CloseOpenOutage(s: Scan, last: Sample, limit: real, now: int) returns (outages: seq<Outage>)
    ensures outages == Finish(s, last, limit, now)
  {
    outages := s.outages;
    if s.open.Some? {
      if !last.up && (now - last.at) as real <= limit {
        outages := outages + [Outage(s.open.value, now, true, false)];
      } else {
        outages := outages + [Outage(s.open.value, last.at, false, false)];
      }
    }
  }

  method SegmentSeries(samples: seq<Sample>, now: int) returns (r: Series)
    ensures r == Segmented(samples, now)
  {
    if |samples| < 2 {
      return Series([], [], 0, 0, 0, None);
    }
    var step := Spacing(samples);
    var limit := GapLimit(step);
    var s := Walk(samples, limit);
    var outages := CloseOpenOutage(s, samples[|samples| - 1], limit, now);
    return Series(s.intervals, outages, s.coveredMs, s.gapMs, s.transitions, Some(step));
  }

  // ---------- all time is accounted for ----------

  lemma {:induction false} ScanAccounts(samples: seq<Sample>, limit: real, n: nat)
    requires 1 <= n <= |samples|
    ensures var s := Scanned(samples, limit, n);
      s.coveredMs + s.gapMs == samples[n - 1].at - samples[0].at
  {
    if n > 1 {
      ScanAccounts(samples, limit, n - 1);
    }
  }

  // Covered plus blind time is the whole span, whatever order the samples come in.
  lemma TimeIsAccountedFor(samples: seq<Sample>, now: int)
    requires |samples| >= 2
    ensures var r := Segmented(samples, now);
      r.coveredMs + r.gapMs == samples[|samples| - 1].at - samples[0].at
  {
    ScanAccounts(samples, GapLimit(Step(samples)), |samples|);
  }

  // ---------- what is measured, and what is not ----------

  // Each delta is the time from one sample to the next.
  lemma {:induction false} DeltasAre(samples: seq<Sample>)
    ensures |Deltas(samples)| == if |samples| < 2 then 0 else |samples| - 1
    ensures forall i | 0 <= i < |Deltas(samples)| :: Deltas(samples)[i] == samples[i + 1].at - samples[i].at
    decreases |samples|
  {
    if |samples| >= 2 {
      DeltasAre(samples[..|samples| - 1]);
    }
  }

  // The time of the intervals that are covered, or of those that are not.
  function MsWhere(samples: seq<Sample>, limit: real, n: nat, covered: bool): int
    requires 1 <= n <= |samples|
  {
    if n == 1 then 0
    else
      MsWhere(samples, limit, n - 1, covered) +
      if Covered(samples, limit, n - 1) == covered then samples[n - 1].at - samples[n - 2].at else 0
  }

  // The covered intervals across which the app went up or down.
  function Turns(samples: seq<Sample>, limit: real, n: nat): set<nat>
    requires n <= |samples|
  {
    set i: nat | 0 < i < n && Covered(samples, limit, i) && samples[i].up != samples[i - 1].up
  }

  lemma {:induction false} ScanMeasures(samples: seq<Sample>, limit: real, n: nat)
    requires 1 <= n <= |samples|
    ensures var s := Scanned(samples, limit, n);
      && s.coveredMs == MsWhere(samples, limit, n, true) && s.gapMs == MsWhere(samples, limit, n, false)
      && s.transitions == |Turns(samples, limit, n)|
  {
    if n > 1 {
      ScanMeasures(samples, limit, n - 1);
      TurnsGrow(samples, limit, n);
    } else {
      assert Turns(samples, limit, 1) == {};
    }
  }

  lemma TurnsGrow(samples: seq<Sample>, limit: real, n: nat)
    requires 1 < n <= |samples|
    ensures |Turns(samples, limit, n)| == |Turns(samples, limit, n - 1)| +
      if Covered(samples, limit, n - 1) && samples[n - 1].up != samples[n - 2].up then 1 else 0
  {
    var before := Turns(samples, limit, n - 1);
    if Covered(samples, limit, n - 1) && samples[n - 1].up != samples[n - 2].up {
      assert Turns(samples, limit, n) == before + {n - 1};
    } else {
      assert Turns(samples, limit, n) == before;
    }
  }

  // Covered time is that of the covered intervals, blind time that of the others, and the
  // transitions are the turns the meter saw.
  lemma SeriesMeasures(samples: seq<Sample>, now: int)
    requires |samples| >= 2
    ensures var r, limit, n := Segmented(samples, now), GapLimit(Step(samples)), |samples|;
      && r.coveredMs == MsWhere(samples, limit, n, true) && r.gapMs == MsWhere(samples, limit, n, false)
      && r.transitions == |Turns(samples, limit, n)|
  {
    ScanMeasures(samples, GapLimit(Step(samples)), |samples|);
  }

  // The step is the middle of the spacings, and a minute when that is zero.
  lemma StepIsMiddle(samples: seq<Sample>)
    requires |samples| >= 2
    ensures var deltas := Deltas(samples);
      && |deltas| == |samples| - 1
      && (forall i | 0 <= i < |deltas| :: deltas[i] == samples[i + 1].at - samples[i].at)
      && exists m: real | IsMiddle(deltas, m) :: Step(samples) == if m == 0.0 then 60000.0 else m
  {
    DeltasAre(samples);
    MedianIsMiddle(Deltas(samples));
  }

  // ---------- how much time is counted as down ----------

  // The time of covered interval i when the interval before it was covered too and ended down.
  function DownAt(samples: seq<Sample>, limit: real, i: nat): int
    requires 0 < i < |samples|
  {
    if i >= 2 && Covered(samples, limit, i) && Covered(samples, limit, i - 1) && !samples[i - 1].up
    then samples[i].at - samples[i - 1].at else 0
  }

  function DownTime(samples: seq<Sample>, limit: real, n: nat): int
    requires 1 <= n <= |samples|
  {
    if n == 1 then 0 else DownTime(samples, limit, n - 1) + DownAt(samples, limit, n - 1)
  }

  function TotalMs(outages: seq<Outage>): int {
    if outages == [] then 0 else TotalMs(outages[..|outages| - 1]) + outages[|outages| - 1].Ms()
  }

  lemma TotalMsAppend(outages: seq<Outage>, o: Outage)
    ensures TotalMs(outages + [o]) == TotalMs(outages) + o.Ms()
  {
    assert (outages + [o])[..|outages|] == outages;
  }

  // The time in the outages found so far, with the open one up to a given time.
  function OutageMs(s: Scan, at: int): int {
    TotalMs(s.outages) + if s.open.Some? then at - s.open.value else 0
  }

  lemma AdvanceOutageMs(s: Scan, prev: Sample, cur: Sample, limit: real)
    ensures var t, covered := Advance(s, prev, cur, limit), (cur.at - prev.at) as real <= limit;
      && (t.open.Some? <==> covered && !cur.up)
      && OutageMs(t, cur.at) == OutageMs(s, prev.at) + if covered && s.open.Some? then cur.at - prev.at else 0
  {
    if s.open.Some? {
      TotalMsAppend(s.outages, Outage(s.open.value, prev.at, false, true));
      TotalMsAppend(s.outages, Outage(s.open.value, cur.at, false, false));
    }
  }

  // The outages found so far, with the open one up to the last sample, are exactly that time;
  // an outage is open exactly when the last interval was covered and ended down.
  lemma {:induction false} ScanDownTime(samples: seq<Sample>, limit: real, n: nat)
    requires 1 <= n <= |samples|
    ensures var s := Scanned(samples, limit, n);
      && (s.open.Some? <==> n >= 2 && Covered(samples, limit, n - 1) && !samples[n - 1].up)
      && OutageMs(s, samples[n - 1].at) == DownTime(samples, limit, n)
  {
    if n > 1 {
      ScanDownTime(samples, limit, n - 1);
      AdvanceOutageMs(Scanned(samples, limit, n - 1), samples[n - 2], samples[n - 1], limit);
    }
  }

  predicate InOrder(samples: seq<Sample>) {
    forall i, j | 0 <= i < j < |samples| :: samples[i].at <= samples[j].at
  }

  lemma {:induction false} DownTimeCovered(samples: seq<Sample>, limit: real, n: nat)
    requires 1 <= n <= |samples| && InOrder(samples)
    ensures 0 <= DownTime(samples, limit, n) <= Scanned(samples, limit, n).coveredMs
  {
    if n > 1 {
      DownTimeCovered(samples, limit, n - 1);
    }
  }

  predicate Ongoing(outages: seq<Outage>) {
    outages != [] && outages[|outages| - 1].ongoing
  }

  predicate AllClosed(outages: seq<Outage>) {
    forall o | o in outages :: !o.ongoing
  }

  lemma {:induction false} NoneOngoing(samples: seq<Sample>, limit: real, n: nat)
    requires 1 <= n <= |samples|
    ensures AllClosed(Scanned(samples, limit, n).outages)
  {
    if n > 1 {
      NoneOngoing(samples, limit, n - 1);
    }
  }

  // Only the last outage can be ongoing, and then the last sample is down and not stale.  The
  // outages last exactly the covered time spent after a down sample, plus what has passed since
  // the last sample when one is ongoing.
  predicate LastAsDownTime(samples: seq<Sample>, limit: real, now: int, outages: seq<Outage>)
    requires |samples| >= 2
  {
    var last := samples[|samples| - 1];
    && (forall i | 0 <= i < |outages| - 1 :: !outages[i].ongoing)
    && (Ongoing(outages) ==> !last.up && (now - last.at) as real <= limit && outages[|outages| - 1].to == now)
    && TotalMs(outages) == DownTime(samples, limit, |samples|) + if Ongoing(outages) then now - last.at else 0
  }

  lemma FinishTotals(samples: seq<Sample>, s: Scan, limit: real, now: int)
    requires |samples| >= 2 && AllClosed(s.outages)
    requires s.open.Some? ==> !samples[|samples| - 1].up
    requires OutageMs(s, samples[|samples| - 1].at) == DownTime(samples, limit, |samples|)
    ensures LastAsDownTime(samples, limit, now, Finish(s, samples[|samples| - 1], limit, now))
  {
    var last := samples[|samples| - 1];
    if s.open.Some? {
      TotalMsAppend(s.outages, Outage(s.open.value, now, true, false));
      TotalMsAppend(s.outages, Outage(s.open.value, last.at, false, false));
    }
  }

  lemma FinishedAsDownTime(samples: seq<Sample>, limit: real, now: int)
    requires |samples| >= 2
    ensures LastAsDownTime(samples, limit, now,
              Finish(Scanned(samples, limit, |samples|), samples[|samples| - 1], limit, now))
  {
    var n := |samples|;
    ScanDownTime(samples, limit, n);
    NoneOngoing(samples, limit, n);
    FinishTotals(samples, Scanned(samples, limit, n), limit, now);
  }

  lemma OutageTimeIsDownTime(samples: seq<Sample>, now: int)
    requires |samples| >= 2
    ensures LastAsDownTime(samples, GapLimit(Step(samples)), now, Segmented(samples, now).outages)
  {
    FinishedAsDownTime(samples, GapLimit(Step(samples)), now);
  }
}
