/** What the reported outages are: the runs of down samples the meter really saw, each once, in
    order, and none reaching across a stretch in which the meter was blind. */
module HealthOutages {
  import opened Outcomes
  import opened HealthSeries

  // Samples first..last of a series, by index.
  datatype Span = Span(first: nat, last: nat)

  predicate Within(samples: seq<Sample>, s: Span) {
    0 < s.first <= s.last < |samples|
  }

  // Seen without a break from a first down sample on, and down until the last sample at least.
  predicate DownRun(samples: seq<Sample>, limit: real, s: Span)
    requires Within(samples, s)
  {
    && !samples[s.first].up
    && (samples[s.first - 1].up || s.first == 1 || !Covered(samples, limit, s.first - 1))
    && (forall k | s.first <= k <= s.last :: Covered(samples, limit, k))
    && (forall k | s.first <= k < s.last :: !samples[k].up)
  }

  // A run ends with the app's recovery, or because the meter went blind after it.
  predicate Reports(samples: seq<Sample>, limit: real, o: Outage, s: Span)
    requires Within(samples, s)
  {
    && DownRun(samples, limit, s)
    && o == Outage(samples[s.first].at, samples[s.last].at, false, !samples[s.last].up)
    && (o.endedByGap ==> s.last + 1 < |samples| && !Covered(samples, limit, s.last + 1))
  }

  predicate Reported(samples: seq<Sample>, limit: real, outages: seq<Outage>, spans: seq<Span>) {
    && |spans| == |outages|
    && (forall i | 0 <= i < |spans| :: Within(samples, spans[i]) && Reports(samples, limit, outages[i], spans[i]))
  }

  predicate Apart(spans: seq<Span>, bound: nat) {
    && (forall i | 0 <= i < |spans| :: spans[i].last < bound)
    && (forall i, j | 0 <= i < j < |spans| :: spans[i].last < spans[j].first)
  }

  predicate Includes(s: Span, k: nat) {
    s.first <= k <= s.last
  }

  // Sample k is a down sample the meter saw.
  predicate SeenDown(samples: seq<Sample>, limit: real, k: nat) {
    0 < k < |samples| && Covered(samples, limit, k) && !samples[k].up
  }

  predicate Complete(samples: seq<Sample>, limit: real, spans: seq<Span>, from: nat, n: nat) {
    forall k | 0 < k < n && SeenDown(samples, limit, k) :: k >= from || exists i :: 0 <= i < |spans| && Includes(spans[i], k)
  }

  // What the pass knows after n samples; a run that is still open starts at open.
  predicate Knows(samples: seq<Sample>, limit: real, n: nat, spans: seq<Span>, open: Option<nat>)
    requires 1 <= n <= |samples|
  {
    var s := Scanned(samples, limit, n);
    var start := if open.Some? then open.value else n;
    && Reported(samples, limit, s.outages, spans)
    && Apart(spans, start)
    && Complete(samples, limit, spans, start, n)
    && (open.Some? <==> s.open.Some?)
    && (open.Some? ==>
          && 0 < start < n && s.open == Some(samples[start].at)
          && DownRun(samples, limit, Span(start, n - 1)) && !samples[n - 1].up)
  }

  lemma CompleteGrows(samples: seq<Sample>, limit: real, spans: seq<Span>, s: Span, from: nat, n: nat)
    requires Complete(samples, limit, spans, s.first, n)
    requires forall k | n <= k < from && SeenDown(samples, limit, k) :: Includes(s, k)
    requires forall k | s.first <= k < n && SeenDown(samples, limit, k) :: Includes(s, k)
    ensures Complete(samples, limit, spans + [s], from, from)
  {
    var more := spans + [s];
    forall k | 0 < k < from && SeenDown(samples, limit, k)
      ensures exists i :: 0 <= i < |more| && Includes(more[i], k)
    {
      if k < n && k < s.first {
        var i :| 0 <= i < |spans| && Includes(spans[i], k);
        assert more[i] == spans[i];
      } else {
        assert more[|spans|] == s;
      }
    }
  }

  // A run that ends with sample last: the meter went blind after it, or it is the recovery.
  lemma RunEnds(samples: seq<Sample>, limit: real, n: nat, spans: seq<Span>, open: Option<nat>, last: nat)
      returns (spans': seq<Span>)
    requires 1 <= n < |samples| && Knows(samples, limit, n, spans, open) && open.Some?
    requires last == if Covered(samples, limit, n) then n else n - 1
    requires Covered(samples, limit, n) ==> samples[n].up
    ensures Knows(samples, limit, n + 1, spans', None)
  {
    var s := Span(open.value, last);
    spans' := spans + [s];
    CompleteGrows(samples, limit, spans, s, n + 1, n);
  }

  // A run starts, goes on, or there is none.
  lemma RunContinues(samples: seq<Sample>, limit: real, n: nat, spans: seq<Span>, open: Option<nat>, open': Option<nat>)
    requires 1 <= n < |samples| && Knows(samples, limit, n, spans, open)
    requires open.Some? ==> Covered(samples, limit, n) && !samples[n].up
    requires open' == if open.None? && Covered(samples, limit, n) && !samples[n].up then Some(n) else open
    ensures Knows(samples, limit, n + 1, spans, open')
  {
  }

  // One more sample.
  lemma ScanKnows(samples: seq<Sample>, limit: real, n: nat, spans: seq<Span>, open: Option<nat>)
      returns (spans': seq<Span>, open': Option<nat>)
    requires 1 <= n < |samples| && Knows(samples, limit, n, spans, open)
    ensures Knows(samples, limit, n + 1, spans', open')
  {
    if open.Some? && !(Covered(samples, limit, n) && !samples[n].up) {
      open' := None;
      spans' := RunEnds(samples, limit, n, spans, open, if Covered(samples, limit, n) then n else n - 1);
    } else {
      spans' := spans;
      open' := if open.None? && Covered(samples, limit, n) && !samples[n].up then Some(n) else open;
      RunContinues(samples, limit, n, spans, open, open');
    }
  }

  lemma {:induction false} Known(samples: seq<Sample>, limit: real, n: nat) returns (spans: seq<Span>, open: Option<nat>)
    requires 1 <= n <= |samples|
    ensures Knows(samples, limit, n, spans, open)
  {
    if n == 1 {
      spans, open := [], None;
    } else {
      spans, open := Known(samples, limit, n - 1);
      spans, open := ScanKnows(samples, limit, n - 1, spans, open);
    }
  }

  // ---------- the result ----------

  // The last run reaches the last sample and the app is not back: ongoing up to now when the
  // meter is still live, else cut off at that sample.
  predicate StillDown(samples: seq<Sample>, limit: real, now: int, o: Outage, s: Span)
    requires Within(samples, s)
  {
    var last := samples[|samples| - 1];
    var live := (now - last.at) as real <= limit;
    && DownRun(samples, limit, s) && s.last == |samples| - 1 && !last.up
    && o == Outage(samples[s.first].at, if live then now else last.at, live, false)
  }

  predicate AllReported(samples: seq<Sample>, limit: real, now: int, outages: seq<Outage>, spans: seq<Span>) {
    && |spans| == |outages|
    && (forall i | 0 <= i < |spans| :: Within(samples, spans[i]))
    && (forall i | 0 <= i < |spans| - 1 :: Reports(samples, limit, outages[i], spans[i]))
    && (spans != [] ==>
          var i := |spans| - 1;
          Reports(samples, limit, outages[i], spans[i]) || StillDown(samples, limit, now, outages[i], spans[i]))
  }

  predicate Explains(samples: seq<Sample>, limit: real, now: int, outages: seq<Outage>, spans: seq<Span>) {
    && AllReported(samples, limit, now, outages, spans)
    && Apart(spans, |samples|)
    && Complete(samples, limit, spans, |samples|, |samples|)
  }

  lemma Explanation(samples: seq<Sample>, now: int) returns (spans: seq<Span>)
    requires |samples| >= 2
    ensures Explains(samples, GapLimit(Step(samples)), now, Segmented(samples, now).outages, spans)
  {
    var limit, n := GapLimit(Step(samples)), |samples|;
    var closed, open := Known(samples, limit, n);
    spans := closed;
    if open.Some? {
      var s := Span(open.value, n - 1);
      spans := closed + [s];
      CompleteGrows(samples, limit, closed, s, n, n);
    }
  }

  // The outages are exactly the runs of down samples the meter saw: every such sample is in a
  // run, and runs neither touch nor overlap.
  lemma OutagesAreDownRuns(samples: seq<Sample>, now: int)
    requires |samples| >= 2
    ensures exists spans :: Explains(samples, GapLimit(Step(samples)), now, Segmented(samples, now).outages, spans)
  {
    var spans := Explanation(samples, now);
  }

  // Neither outage nor blind stretch k reaches into the other.
  predicate ClearOfGap(o: Outage, from: int, to: int) {
    to <= o.from || (o.to <= from && !o.ongoing)
  }

  lemma RunClearOfGap(samples: seq<Sample>, limit: real, now: int, o: Outage, s: Span, k: nat)
    requires InOrder(samples) && Within(samples, s) && 0 < k < |samples| && !Covered(samples, limit, k)
    requires Reports(samples, limit, o, s) || StillDown(samples, limit, now, o, s)
    ensures ClearOfGap(o, samples[k - 1].at, samples[k].at)
  {
    assert k < s.first || k > s.last;
  }

  predicate Ordered(outages: seq<Outage>, now: int) {
    && (forall i, j | 0 <= i < j < |outages| :: outages[i].to <= outages[j].from)
    && (forall i | 0 <= i < |outages| :: outages[i].from <= outages[i].to || (outages[i].ongoing && now < outages[i].from))
  }

  predicate ClearOfGaps(samples: seq<Sample>, limit: real, o: Outage) {
    forall k | 0 < k < |samples| && !Covered(samples, limit, k) :: ClearOfGap(o, samples[k - 1].at, samples[k].at)
  }

  lemma ExplainedAreOrdered(samples: seq<Sample>, limit: real, now: int, outages: seq<Outage>, spans: seq<Span>)
    requires InOrder(samples) && Explains(samples, limit, now, outages, spans)
    ensures Ordered(outages, now)
  {
    forall i, j | 0 <= i < j < |outages|
      ensures outages[i].to <= outages[j].from
    {
      assert spans[i].last < spans[j].first;
    }
    forall i | 0 <= i < |outages|
      ensures outages[i].from <= outages[i].to || (outages[i].ongoing && now < outages[i].from)
    {
      assert spans[i].first <= spans[i].last;
    }
  }

  lemma ExplainedAreClear(samples: seq<Sample>, limit: real, now: int, outages: seq<Outage>, spans: seq<Span>)
    requires InOrder(samples) && Explains(samples, limit, now, outages, spans)
    ensures forall i | 0 <= i < |outages| :: ClearOfGaps(samples, limit, outages[i])
  {
    forall i, k | 0 <= i < |outages| && 0 < k < |samples| && !Covered(samples, limit, k)
      ensures ClearOfGap(outages[i], samples[k - 1].at, samples[k].at)
    {
      RunClearOfGap(samples, limit, now, outages[i], spans[i], k);
    }
  }

  // Ordered and disjoint in time, and clear of every stretch in which the meter was blind.
  lemma OutagesInOrder(samples: seq<Sample>, now: int)
    requires |samples| >= 2 && InOrder(samples)
    ensures Ordered(Segmented(samples, now).outages, now)
    ensures forall o | o in Segmented(samples, now).outages :: ClearOfGaps(samples, GapLimit(Step(samples)), o)
  {
    var limit, outages := GapLimit(Step(samples)), Segmented(samples, now).outages;
    var spans := Explanation(samples, now);
    ExplainedAreOrdered(samples, limit, now, outages, spans);
    ExplainedAreClear(samples, limit, now, outages, spans);
  }

  // ---------- closed outages last no longer than what was covered ----------

  function Closed(outages: seq<Outage>): seq<Outage> {
    if Ongoing(outages) then outages[..|outages| - 1] else outages
  }

  lemma {:induction false} TotalIsNotNegative(outages: seq<Outage>)
    requires forall o | o in outages :: o.Ms() >= 0
    ensures TotalMs(outages) >= 0
    decreases |outages|
  {
    if outages != [] {
      TotalIsNotNegative(outages[..|outages| - 1]);
    }
  }

  lemma RunLasts(samples: seq<Sample>, limit: real, now: int, o: Outage, s: Span)
    requires InOrder(samples) && Within(samples, s)
    requires Reports(samples, limit, o, s) || StillDown(samples, limit, now, o, s)
    ensures o.from <= samples[|samples| - 1].at && (o.ongoing || o.Ms() >= 0)
  {
  }

  lemma RunCloses(samples: seq<Sample>, limit: real, now: int, outages: seq<Outage>, spans: seq<Span>, i: nat)
    requires InOrder(samples) && AllReported(samples, limit, now, outages, spans) && i < |outages|
    ensures outages[i].from <= samples[|samples| - 1].at && (outages[i].ongoing || outages[i].Ms() >= 0)
    ensures outages[i].ongoing ==> i == |outages| - 1
  {
    RunLasts(samples, limit, now, outages[i], spans[i]);
  }

  lemma ExplainedClosed(samples: seq<Sample>, limit: real, now: int, outages: seq<Outage>, spans: seq<Span>)
    requires |samples| >= 2 && InOrder(samples) && Explains(samples, limit, now, outages, spans)
    ensures forall i | 0 <= i < |Closed(outages)| :: Closed(outages)[i].Ms() >= 0
    ensures Ongoing(outages) ==> outages[|outages| - 1].from <= samples[|samples| - 1].at
  {
    forall i | 0 <= i < |outages|
      ensures outages[i].from <= samples[|samples| - 1].at && (outages[i].ongoing || outages[i].Ms() >= 0)
      ensures outages[i].ongoing ==> i == |outages| - 1
    {
      RunCloses(samples, limit, now, outages, spans, i);
    }
  }

  lemma ClosedOutagesAreCovered(samples: seq<Sample>, now: int)
    requires |samples| >= 2 && InOrder(samples)
    ensures var r := Segmented(samples, now); 0 <= TotalMs(Closed(r.outages)) <= r.coveredMs
  {
    var limit, r := GapLimit(Step(samples)), Segmented(samples, now);
    var spans := Explanation(samples, now);
    ExplainedClosed(samples, limit, now, r.outages, spans);
    TotalIsNotNegative(Closed(r.outages));
    OutageTimeIsDownTime(samples, now);
    DownTimeCovered(samples, limit, |samples|);
  }
}
