/** Many clients changing the shared storage index at once: the index keeps, for every key,
    exactly the last committed change of that key, so changes of different keys never undo
    each other. */
module ConcurrentIndex {
  import opened Outcomes
  import opened Text
  import opened GithubRepo
  import opened Upsert

  type Index = map<Str, Meta>

  datatype Change = Set(key: Str, meta: Meta) | Drop(key: Str)

  function Entries(index: Option<Index>): Index {
    if index.None? then map[] else index.value
  }

  function Applied(change: Change, current: Option<Index>): Option<Index> {
    match change
    case Set(key, meta) => Some(Entries(current)[key := meta])
    case Drop(key) => if key !in Entries(current) then None else Some(Entries(current) - {key})
  }

  // The mutation a put or a delete hands to the loop.
  function MutationOf(change: Change): Mutation<Index> {
    (current: Option<Index>) => Applied(change, current)
  }

  function Mutations(changes: seq<Change>): (f: seq<Mutation<Index>>)
    ensures |f| == |changes| && forall i | 0 <= i < |f| :: f[i] == MutationOf(changes[i])
  {
    seq(|changes|, i requires 0 <= i < |changes| => MutationOf(changes[i]))
  }

  // The entry of a key after the committed changes: the last one that names it decides.
  function Latest(changes: seq<Change>, before: Option<Meta>, log: seq<nat>, key: Str): Option<Meta>
    requires forall k | 0 <= k < |log| :: log[k] < |changes|
  {
    if log == [] then before
    else
      var change := changes[log[|log| - 1]];
      if change.key != key then Latest(changes, before, log[..|log| - 1], key)
      else if change.Set? then Some(change.meta)
      else None
  }

  function EntryAt(index: Option<Index>, key: Str): Option<Meta> {
    if key in Entries(index) then Some(Entries(index)[key]) else None
  }

  lemma {:induction false} FoldIsLatest(changes: seq<Change>, initial: Option<Index>, log: seq<nat>, key: Str)
    requires forall k | 0 <= k < |log| :: log[k] < |changes|
    requires EachWrote(Mutations(changes), initial, log)
    ensures EntryAt(Fold(Mutations(changes), initial, log), key) == Latest(changes, EntryAt(initial, key), log, key)
  {
    if log != [] {
      var shorter := log[..|log| - 1];
      forall k: nat | k < |shorter| ensures WroteAt(Mutations(changes), initial, shorter, k) {
        assert WroteAt(Mutations(changes), initial, log, k);
        assert shorter[..k] == log[..k];
      }
      assert WroteAt(Mutations(changes), initial, log, |shorter|);
      FoldIsLatest(changes, initial, shorter, key);
    }
  }

  // Under every schedule, with faults, the index holds for each key what the last commit that
  // changed the key left there, and its initial entry if none did.
  lemma IndexIsLatest(changes: seq<Change>, retries: nat, initial: Option<Index>, steps: seq<Step>, key: Str)
    requires CanRun(Mutations(changes), retries, Start(|changes|, initial), steps)
    ensures var t := Run(Mutations(changes), retries, Start(|changes|, initial), steps);
      && (forall k | 0 <= k < |t.log| :: t.log[k] < |changes|)
      && EntryAt(t.content, key) == Latest(changes, EntryAt(initial, key), t.log, key)
  {
    CommitsAreAtomic(Mutations(changes), retries, initial, steps);
    var t := Run(Mutations(changes), retries, Start(|changes|, initial), steps);
    FoldIsLatest(changes, initial, t.log, key);
  }

  lemma {:induction false} LatestOfOnlyChange(changes: seq<Change>, before: Option<Meta>, log: seq<nat>, at: nat)
    requires forall k | 0 <= k < |log| :: log[k] < |changes|
    requires at < |log|
    requires forall k | 0 <= k < |log| && k != at :: changes[log[k]].key != changes[log[at]].key
    ensures var change := changes[log[at]];
      Latest(changes, before, log, change.key) == if change.Set? then Some(change.meta) else None
  {
    if at < |log| - 1 {
      LatestOfOnlyChange(changes, before, log[..|log| - 1], at);
    }
  }

  predicate NoneChanges(changes: seq<Change>, log: seq<nat>, key: Str) {
    forall k | 0 <= k < |log| :: log[k] < |changes| && changes[log[k]].key != key
  }

  lemma {:induction false} LatestOfNoChange(changes: seq<Change>, before: Option<Meta>, log: seq<nat>, key: Str)
    requires NoneChanges(changes, log, key)
    ensures Latest(changes, before, log, key) == before
  {
    if log != [] {
      LatestOfNoChange(changes, before, log[..|log| - 1], key);
    }
  }

  lemma EachWroteBefore(f: seq<Mutation<Index>>, initial: Option<Index>, log: seq<nat>, n: nat)
    requires EachWrote(f, initial, log) && n <= |log|
    ensures EachWrote(f, initial, log[..n])
  {
    forall k: nat | k < n ensures WroteAt(f, initial, log[..n], k) {
      assert WroteAt(f, initial, log, k);
      assert log[..n][..k] == log[..k];
    }
  }

  // What a change leaves at its key.
  function Left(change: Change): Option<Meta> {
    if change.Set? then Some(change.meta) else None
  }

  // A client that has nothing to write is dropping a key that is not there.
  lemma NothingToDrop(change: Change, current: Option<Index>)
    requires MutationOf(change)(current).None?
    ensures EntryAt(current, change.key) == Left(change)
  {
  }

  lemma FoldOfNoChange(changes: seq<Change>, initial: Option<Index>, log: seq<nat>, key: Str)
    requires EachWrote(Mutations(changes), initial, log) && NoneChanges(changes, log, key)
    ensures EntryAt(Fold(Mutations(changes), initial, log), key) == EntryAt(initial, key)
  {
    FoldIsLatest(changes, initial, log, key);
    LatestOfNoChange(changes, EntryAt(initial, key), log, key);
  }

  predicate DifferentKeys(changes: seq<Change>) {
    forall i, j | 0 <= i < j < |changes| :: changes[i].key != changes[j].key
  }

  lemma NobodyElse(changes: seq<Change>, log: seq<nat>, i: nat)
    requires DifferentKeys(changes) && i < |changes| && i !in log
    requires forall k | 0 <= k < |log| :: log[k] < |changes|
    ensures NoneChanges(changes, log, changes[i].key)
  {
    forall k | 0 <= k < |log| ensures changes[log[k]].key != changes[i].key {
      assert log[k] in log;
    }
  }

  // Nobody else changes the key of a client that had nothing to write.
  lemma NothingWritten(changes: seq<Change>, s: State<Index>, i: nat)
    requires DifferentKeys(changes) && Inv(Mutations(changes), s) && i < |changes|
    requires s.writers[i].Done? && !s.writers[i].wrote
    ensures Latest(changes, EntryAt(s.initial, changes[i].key), s.log, changes[i].key) == Left(changes[i])
  {
    var key, at := changes[i].key, s.writers[i].at;
    assert WriterOk(Mutations(changes), s, i);
    NobodyElse(changes, s.log, i);
    LatestOfNoChange(changes, EntryAt(s.initial, key), s.log, key);
    EachWroteBefore(Mutations(changes), s.initial, s.log, at);
    assert NoneChanges(changes, s.log[..at], key);
    FoldOfNoChange(changes, s.initial, s.log[..at], key);
    NothingToDrop(changes[i], Fold(Mutations(changes), s.initial, s.log[..at]));
  }

  lemma Written(changes: seq<Change>, s: State<Index>, i: nat)
    requires DifferentKeys(changes) && Inv(Mutations(changes), s) && i < |changes|
    requires s.writers[i].Done? && s.writers[i].wrote
    ensures Latest(changes, EntryAt(s.initial, changes[i].key), s.log, changes[i].key) == Left(changes[i])
  {
    assert WriterOk(Mutations(changes), s, i);
    var at := s.writers[i].at;
    forall k | 0 <= k < |s.log| && k != at ensures changes[s.log[k]].key != changes[i].key {
      assert s.log[k] != s.log[at];
    }
    LatestOfOnlyChange(changes, EntryAt(s.initial, changes[i].key), s.log, at);
  }

  // Up to seven clients changing pairwise different keys: none fails for a conflict, and every
  // change that returned is in the index, a key set with its entry and one dropped gone, whatever
  // the others did.
  lemma DifferentKeysAllPresent(changes: seq<Change>, initial: Option<Index>, steps: seq<Step>)
    requires |changes| <= 7 && DifferentKeys(changes)
    requires CanRun(Mutations(changes), 6, Start(|changes|, initial), steps)
    ensures var t := Run(Mutations(changes), 6, Start(|changes|, initial), steps);
      NoConflict(t) && |t.writers| == |changes| &&
      (forall i | 0 <= i < |changes| && t.writers[i].Done? :: EntryAt(t.content, changes[i].key) == Left(changes[i]))
  {
    var f := Mutations(changes);
    var t := Run(f, 6, Start(|changes|, initial), steps);
    CommitsAreAtomic(f, 6, initial, steps);
    NeverExhausted(f, 6, Start(|changes|, initial), steps);
    forall i | 0 <= i < |changes| && t.writers[i].Done?
      ensures EntryAt(t.content, changes[i].key) == Left(changes[i])
    {
      IndexIsLatest(changes, 6, initial, steps, changes[i].key);
      if t.writers[i].wrote {
        Written(changes, t, i);
      } else {
        NothingWritten(changes, t, i);
      }
    }
  }
}
