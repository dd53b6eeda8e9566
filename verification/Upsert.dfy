/** Optimistic concurrency on one file of a remote repository: read the document, compute
    the next one, and write it only if the file still has the content that was read; on a
    conflict, read again, at most `retries` times.  The file's sha is derived from its
    content, so comparing shas is comparing contents. */
module Upsert {
  import opened Outcomes

  // A mutation of a document that may not exist yet; None means there is nothing to write.
  type Mutation<!T> = Option<T> -> Option<T>

  datatype Failure = Conflict | Unreachable

  datatype Writer<T> =
    | Reading(attempt: nat)
    | Writing(attempt: nat, seen: Option<T>, at: nat)     // `at`: how many commits the read came after
    | Done(result: Option<T>, at: nat, wrote: bool)
    | Failed(failure: Failure)

  // The file, the writers, and the history of commits as the writers' numbers.
  datatype State<T> = State(initial: Option<T>, content: Option<T>, writers: seq<Writer<T>>, log: seq<nat>)

  datatype Step = Read(i: nat) | Write(i: nat) | Fault(i: nat, applied: bool)

  predicate Enabled<T>(s: State<T>, step: Step) {
    && step.i < |s.writers|
    && match step
       case Read(i) => s.writers[i].Reading?
       case Write(i) => s.writers[i].Writing?
       // A request that fails for another reason than a conflict; the write may have landed.
       case Fault(i, applied) => (s.writers[i].Reading? && !applied) || s.writers[i].Writing?
  }

  function Next<T(==)>(f: seq<Mutation<T>>, retries: nat, s: State<T>, step: Step): State<T>
    requires |f| == |s.writers| && Enabled(s, step)
  {
    var w := s.writers[step.i];
    match step
    case Read(i) =>
      var next := f[i](s.content);
      s.(writers := s.writers[i :=
        if next.None? then Done(s.content, |s.log|, false) else Writing(w.attempt, s.content, |s.log|)])
    case Write(i) =>
      if s.content == w.seen then
        s.(content := f[i](w.seen), log := s.log + [i], writers := s.writers[i := Done(f[i](w.seen), |s.log|, true)])
      else
        s.(writers := s.writers[i := if w.attempt < retries then Reading(w.attempt + 1) else Failed(Conflict)])
    case Fault(i, applied) =>
      if applied && s.content == w.seen then
        s.(content := f[i](w.seen), log := s.log + [i], writers := s.writers[i := Failed(Unreachable)])
      else
        s.(writers := s.writers[i := Failed(Unreachable)])
  }

  // The document after the commits in the log, each mutation applied to what it found.
  function Fold<T>(f: seq<Mutation<T>>, initial: Option<T>, log: seq<nat>): Option<T>
    requires forall k | 0 <= k < |log| :: log[k] < |f|
  {
    if log == [] then initial
    else f[log[|log| - 1]](Fold(f, initial, log[..|log| - 1]))
  }

  ghost predicate LogOk<T>(f: seq<Mutation<T>>, s: State<T>) {
    && |f| == |s.writers|
    && (forall k | 0 <= k < |s.log| :: s.log[k] < |f|)
    && (forall j, k | 0 <= j < k < |s.log| :: s.log[j] != s.log[k])
    && s.content == Fold(f, s.initial, s.log)
  }

  ghost predicate WriterOk<T>(f: seq<Mutation<T>>, s: State<T>, i: nat)
    requires LogOk(f, s) && i < |f|
  {
    match s.writers[i]
    case Reading(attempt) => i !in s.log && attempt <= |s.log|
    case Writing(attempt, seen, at) =>
      && i !in s.log && attempt <= at <= |s.log|
      && seen == Fold(f, s.initial, s.log[..at]) && f[i](seen).Some?
    case Done(result, at, wrote) =>
      && at <= |s.log|
      && (wrote ==> at < |s.log| && s.log[at] == i && result == f[i](Fold(f, s.initial, s.log[..at])))
      && (!wrote ==> i !in s.log && result == Fold(f, s.initial, s.log[..at]) && f[i](result).None?)
    case Failed(failure) => true
  }

  // The k-th commit did have something to write.
  ghost predicate WroteAt<T>(f: seq<Mutation<T>>, initial: Option<T>, log: seq<nat>, k: nat) {
    k < |log| && (forall j | 0 <= j < |log| :: log[j] < |f|) && f[log[k]](Fold(f, initial, log[..k])).Some?
  }

  ghost predicate EachWrote<T>(f: seq<Mutation<T>>, initial: Option<T>, log: seq<nat>) {
    forall k: nat {:trigger WroteAt(f, initial, log, k)} | k < |log| :: WroteAt(f, initial, log, k)
  }

  ghost predicate Inv<T>(f: seq<Mutation<T>>, s: State<T>) {
    LogOk(f, s) && EachWrote(f, s.initial, s.log) && forall i | 0 <= i < |f| :: WriterOk(f, s, i)
  }

  ghost predicate CanRun<T>(f: seq<Mutation<T>>, retries: nat, s: State<T>, steps: seq<Step>)
    decreases |steps|
  {
    steps == [] ||
    (|f| == |s.writers| && Enabled(s, steps[0]) && CanRun(f, retries, Next(f, retries, s, steps[0]), steps[1..]))
  }

  ghost function Run<T>(f: seq<Mutation<T>>, retries: nat, s: State<T>, steps: seq<Step>): State<T>
    requires CanRun(f, retries, s, steps)
    decreases |steps|
  {
    if steps == [] then s else Run(f, retries, Next(f, retries, s, steps[0]), steps[1..])
  }

  function Start<T>(n: nat, initial: Option<T>): State<T> {
    State(initial, initial, seq(n, i => Reading(0)), [])
  }

  // ---------- every commit is an atomic read-modify-write ----------

  lemma OtherWriters<T>(f: seq<Mutation<T>>, s: State<T>, t: State<T>, i: nat, j: nat)
    requires LogOk(f, s) && LogOk(f, t) && i < |f| && j < |f| && i != j
    requires t.initial == s.initial && t.writers[j] == s.writers[j]
    requires t.log == s.log || t.log == s.log + [i]
    requires WriterOk(f, s, j)
    ensures WriterOk(f, t, j)
  {
    if t.log == s.log + [i] {
      assert forall k | 0 <= k <= |s.log| :: t.log[..k] == s.log[..k];
    }
  }

  lemma CommitKeepsLog<T>(f: seq<Mutation<T>>, s: State<T>, t: State<T>, i: nat)
    requires LogOk(f, s) && i < |f| && i !in s.log
    requires t.log == s.log + [i] && t.content == f[i](s.content)
    requires t.initial == s.initial && |t.writers| == |s.writers|
    ensures LogOk(f, t)
  {
    assert t.log[..|t.log| - 1] == s.log;
  }

  lemma CommitWrote<T>(f: seq<Mutation<T>>, s: State<T>, i: nat)
    requires LogOk(f, s) && EachWrote(f, s.initial, s.log)
    requires i < |f| && f[i](s.content).Some?
    ensures EachWrote(f, s.initial, s.log + [i])
  {
    var log := s.log + [i];
    forall k: nat | k < |log| ensures WroteAt(f, s.initial, log, k) {
      assert log[..k] == s.log[..k];
      if k < |s.log| {
        assert WroteAt(f, s.initial, s.log, k);
      } else {
        assert s.log[..k] == s.log;
      }
    }
  }

  lemma NextKeepsLog<T>(f: seq<Mutation<T>>, retries: nat, s: State<T>, step: Step)
    requires Inv(f, s) && Enabled(s, step)
    ensures var t := Next(f, retries, s, step);
      && LogOk(f, t) && EachWrote(f, t.initial, t.log) && t.initial == s.initial
      && (t.log == s.log || t.log == s.log + [step.i])
  {
    var t, i := Next(f, retries, s, step), step.i;
    assert WriterOk(f, s, i);
    if t.log != s.log {
      CommitKeepsLog(f, s, t, i);
      CommitWrote(f, s, i);
    }
  }

  lemma OwnWriter<T>(f: seq<Mutation<T>>, retries: nat, s: State<T>, step: Step)
    requires Inv(f, s) && Enabled(s, step) && LogOk(f, Next(f, retries, s, step))
    ensures WriterOk(f, Next(f, retries, s, step), step.i)
  {
    var t := Next(f, retries, s, step);
    assert WriterOk(f, s, step.i);
    assert s.log[..|s.log|] == s.log;
    assert t.log != s.log ==> t.log[..|s.log|] == s.log;
  }

  lemma NextKeepsInv<T>(f: seq<Mutation<T>>, retries: nat, s: State<T>, step: Step)
    requires Inv(f, s) && Enabled(s, step)
    ensures Inv(f, Next(f, retries, s, step))
  {
    var t, i := Next(f, retries, s, step), step.i;
    NextKeepsLog(f, retries, s, step);
    OwnWriter(f, retries, s, step);
    forall j | 0 <= j < |f| ensures WriterOk(f, t, j) {
      if j != i {
        OtherWriters(f, s, t, i, j);
      }
    }
  }

  lemma {:induction false} RunKeepsInv<T>(f: seq<Mutation<T>>, retries: nat, s: State<T>, steps: seq<Step>)
    requires Inv(f, s) && CanRun(f, retries, s, steps)
    ensures Inv(f, Run(f, retries, s, steps))
    decreases |steps|
  {
    if steps != [] {
      NextKeepsInv(f, retries, s, steps[0]);
      RunKeepsInv(f, retries, Next(f, retries, s, steps[0]), steps[1..]);
    }
  }

  // Under every interleaving, with faults: the file is the fold of the committed mutations
  // in commit order, each writer commits at most once, a writer that wrote returns its
  // mutation of the very document its commit replaced, and one that wrote nothing returns a
  // document that was in place and that its mutation leaves alone.
  lemma CommitsAreAtomic<T>(f: seq<Mutation<T>>, retries: nat, initial: Option<T>, steps: seq<Step>)
    requires CanRun(f, retries, Start(|f|, initial), steps)
    ensures var t := Run(f, retries, Start(|f|, initial), steps);
      && t.initial == initial
      && LogOk(f, t) && EachWrote(f, initial, t.log)
      && forall i | 0 <= i < |f| :: WriterOk(f, t, i)
  {
    RunKeepsInv(f, retries, Start(|f|, initial), steps);
    RunKeepsInitial(f, retries, Start(|f|, initial), steps);
  }

  lemma {:induction false} RunKeepsInitial<T>(f: seq<Mutation<T>>, retries: nat, s: State<T>, steps: seq<Step>)
    requires CanRun(f, retries, s, steps)
    ensures Run(f, retries, s, steps).initial == s.initial && |Run(f, retries, s, steps).writers| == |s.writers|
    decreases |steps|
  {
    if steps != [] {
      RunKeepsInitial(f, retries, Next(f, retries, s, steps[0]), steps[1..]);
    }
  }

  // ---------- retries are enough for retries + 1 writers, and for no more ----------

  lemma {:induction false} DistinctBound(log: seq<nat>, n: nat)
    requires forall k | 0 <= k < |log| :: log[k] < n
    requires forall j, k | 0 <= j < k < |log| :: log[j] != log[k]
    ensures |log| <= n
    decreases n
  {
    assert log != [] ==> log[0] < n;
    if n > 0 {
      if k :| 0 <= k < |log| && log[k] == n - 1 {
        var rest := log[..k] + log[k + 1..];
        forall i | 0 <= i < |rest| ensures rest[i] < n - 1 {
          assert rest[i] == log[if i < k then i else i + 1];
        }
        DistinctBound(rest, n - 1);
      } else {
        DistinctBound(log, n - 1);
      }
    }
  }

  ghost predicate NoConflict<T>(s: State<T>) {
    forall i | 0 <= i < |s.writers| :: s.writers[i] != Failed(Conflict)
  }

  // Each conflict is charged to a commit of another writer since the last read.
  lemma NextNeverConflicts<T>(f: seq<Mutation<T>>, retries: nat, s: State<T>, step: Step)
    requires Inv(f, s) && NoConflict(s) && Enabled(s, step) && |f| <= retries + 1
    ensures NoConflict(Next(f, retries, s, step))
  {
    var i := step.i;
    if step.Write? && s.content != s.writers[i].seen && s.writers[i].attempt >= retries {
      assert WriterOk(f, s, i);
      assert s.log[..|s.log|] == s.log;
      DistinctBound(s.log + [i], |f|);
    }
  }

  lemma {:induction false} NeverExhausted<T>(f: seq<Mutation<T>>, retries: nat, s: State<T>, steps: seq<Step>)
    requires Inv(f, s) && NoConflict(s) && CanRun(f, retries, s, steps) && |f| <= retries + 1
    ensures NoConflict(Run(f, retries, s, steps))
    decreases |steps|
  {
    if steps != [] {
      NextNeverConflicts(f, retries, s, steps[0]);
      NextKeepsInv(f, retries, s, steps[0]);
      NeverExhausted(f, retries, Next(f, retries, s, steps[0]), steps[1..]);
    }
  }

  // A counter that every writer increments.
  function Increment(): Mutation<nat> {
    (c: Option<nat>) => Some(if c.None? then 1 else c.value + 1)
  }

  function Increments(n: nat): (f: seq<Mutation<nat>>)
    ensures |f| == n && forall i | 0 <= i < n :: f[i] == Increment()
  {
    seq(n, i => Increment())
  }

  lemma {:induction false} RunConcat<T>(f: seq<Mutation<T>>, retries: nat, s: State<T>, a: seq<Step>, b: seq<Step>)
    requires CanRun(f, retries, s, a) && CanRun(f, retries, Run(f, retries, s, a), b)
    ensures CanRun(f, retries, s, a + b)
    ensures Run(f, retries, s, a + b) == Run(f, retries, Run(f, retries, s, a), b)
    decreases |a|
  {
    if a == [] {
      assert a + b == b;
    } else {
      assert (a + b)[1..] == a[1..] + b;
      RunConcat(f, retries, Next(f, retries, s, a[0]), a[1..], b);
    }
  }

  lemma RunCons<T>(f: seq<Mutation<T>>, retries: nat, s: State<T>, step: Step, rest: seq<Step>)
    requires |f| == |s.writers| && Enabled(s, step) && CanRun(f, retries, Next(f, retries, s, step), rest)
    ensures CanRun(f, retries, s, [step] + rest)
    ensures Run(f, retries, s, [step] + rest) == Run(f, retries, Next(f, retries, s, step), rest)
  {
    assert ([step] + rest)[1..] == rest;
  }

  // Writer 0 reads, writer k gets in between, and writer 0's write conflicts.
  lemma Overtake(s: State<nat>, retries: nat, k: nat) returns (t: State<nat>)
    requires 0 < k < |s.writers| && s.writers[0].Reading? && s.writers[k] == Reading(0)
    ensures var f, steps := Increments(|s.writers|), [Read(0), Read(k), Write(k), Write(0)];
      CanRun(f, retries, s, steps) && t == Run(f, retries, s, steps)
    ensures |t.writers| == |s.writers|
    ensures forall j | 0 < j < |s.writers| && j != k :: t.writers[j] == s.writers[j]
    ensures t.writers[0] == if s.writers[0].attempt < retries then Reading(s.writers[0].attempt + 1) else Failed(Conflict)
  {
    var f := Increments(|s.writers|);
    var s1 := Next(f, retries, s, Read(0));
    var s2 := Next(f, retries, s1, Read(k));
    var s3 := Next(f, retries, s2, Write(k));
    t := Next(f, retries, s3, Write(0));
    RunCons(f, retries, s3, Write(0), []);
    RunCons(f, retries, s2, Write(k), [Write(0)]);
    RunCons(f, retries, s1, Read(k), [Write(k), Write(0)]);
    RunCons(f, retries, s, Read(0), [Read(k), Write(k), Write(0)]);
  }

  // With enough other writers, each of the first k overtakes writer 0 once.
  lemma {:induction false} OvertakenTimes(n: nat, retries: nat, k: nat) returns (steps: seq<Step>, t: State<nat>)
    requires k < n && k <= retries
    ensures CanRun(Increments(n), retries, Start(n, None), steps) && t == Run(Increments(n), retries, Start(n, None), steps)
    ensures |t.writers| == n && t.writers[0] == Reading(k)
    ensures forall j | k < j < n :: t.writers[j] == Reading(0)
    decreases k
  {
    if k == 0 {
      steps, t := [], Start(n, None);
    } else {
      var before, s := OvertakenTimes(n, retries, k - 1);
      t := Overtake(s, retries, k);
      steps := before + [Read(0), Read(k), Write(k), Write(0)];
      RunConcat(Increments(n), retries, Start(n, None), before, [Read(0), Read(k), Write(k), Write(0)]);
    }
  }

  // `retries` retries protect every schedule of n writers exactly when n <= retries + 1: with
  // the default of six, seven writers.
  lemma RetriesAreExact(n: nat, retries: nat)
    ensures (forall steps | CanRun(Increments(n), retries, Start(n, None), steps) ::
               NoConflict(Run(Increments(n), retries, Start(n, None), steps)))
       <==> n <= retries + 1
  {
    var f := Increments(n);
    if n <= retries + 1 {
      forall steps | CanRun(f, retries, Start(n, None), steps) ensures NoConflict(Run(f, retries, Start(n, None), steps)) {
        NeverExhausted(f, retries, Start(n, None), steps);
      }
    } else {
      var before, s := OvertakenTimes(n, retries, retries);
      var t := Overtake(s, retries, retries + 1);
      var last := [Read(0), Read(retries + 1), Write(retries + 1), Write(0)];
      RunConcat(f, retries, Start(n, None), before, last);
      assert t.writers[0] == Failed(Conflict);
    }
  }
}
