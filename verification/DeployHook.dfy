/** The deploy hook as it runs on a host: a shell script changing files and processes statement by
    statement.  Every run of it, cut short anywhere, is a path of the deploy model. */
module DeployHook {
  import opened Outcomes
  import opened ActiveSlot
  import opened BlueGreen
  import opened BlueGreenSafety
  import opened BlueGreenRuns

  // What a statement meets: what the processes did meanwhile, what git and the build left in the
  // slot's directory, and whether the gate passed, the check was answered or a file written.
  datatype Event = Exits(pid: nat) | Binds(pid: nat)
  datatype Input = Input(meanwhile: seq<Event>, got: int, ok: bool)

  function NextStep(w: World, input: Input): Step
    requires w.hook.Running?
  {
    match w.hook.stage
    case Choice => Checkout(input.got)
    case CheckedOut => Gate(input.ok)
    case Gated => Build(input.got)
    case Built => Spawn
    case Spawned => TruncatePidFile
    case Truncated => WritePidFile
    case Checking(_) => Check(input.ok && w.listener.Get(w.hook.slot).Some?)
    case Healthy => if input.ok then WriteTmp else SwitchFails
    case TmpWritten => if input.ok then Switch else SwitchFails
    case Switched => KillOld
    case OldStopped => RemoveOld
    case Unhealthy => KillNew
    case NewStopped => RemoveNew
  }

  // Where the hook is after its first statements, whatever they met, short of its first check.
  function StageAfter(n: nat): Stage
    requires n <= 6
  {
    if n == 0 then Choice else if n == 1 then CheckedOut else if n == 2 then Gated
    else if n == 3 then Built else if n == 4 then Spawned else if n == 5 then Truncated else Checking(0)
  }

  class Host {
    var active: Option<string>
    var tmp: Option<string>
    var files: Pair<int>
    var pidFile: Pair<PidFile>
    var procs: map<nat, Proc>
    var listener: Pair<Option<nat>>
    var nextPid: nat
    var hook: Hook
    ghost var live: Option<nat>
    ghost var exited: set<nat>

    ghost function Now(): World
      reads this
    {
      World(active, tmp, files, pidFile, procs, listener, nextPid, hook, live, exited)
    }

    constructor ()
      ensures Now() == Initial()
    {
      active, tmp, files := Some("A"), None, Pair(0, 0);
      pidFile, procs, listener, nextPid := Pair(Absent, Absent), map[], Pair(None, None), 1;
      hook, live, exited := Idle, None, {};
    }

    method Stop(pid: nat)
      modifies `procs, `listener
      ensures Now() == Killed(old(Now()), pid)
    {
      if pid in procs {
        procs := map p | p in procs && p != pid :: procs[p];
        listener := Pair(if listener.a == Some(pid) then None else listener.a,
                         if listener.b == Some(pid) then None else listener.b);
      }
    }

    method Statement(input: Input)
      requires hook.Running?
      modifies this
      ensures Enabled(old(Now()), NextStep(old(Now()), input))
      ensures Now() == Do(old(Now()), NextStep(old(Now()), input))
    {
      var slot := hook.slot;
      match hook.stage {
        case Choice =>
          files, hook := files.Set(slot, input.got), hook.(stage := CheckedOut);
        case CheckedOut =>
          hook := if input.ok then hook.(stage := Gated) else Idle;
        case Gated =>
          files, hook := files.Set(slot, input.got), hook.(stage := Built);
        case Built =>
          procs := procs[nextPid := Proc(slot, files.Get(slot))];
          hook := hook.(stage := Spawned, pid := nextPid);
          nextPid := nextPid + 1;
        case Spawned =>
          pidFile, hook := pidFile.Set(slot, Empty), hook.(stage := Truncated);
        case Truncated =>
          pidFile, hook := pidFile.Set(slot, Names(hook.pid)), hook.(stage := Checking(0));
        case Checking(tries) =>
          if input.ok && listener.Get(slot).Some? {
            hook := hook.(stage := Healthy, answered := listener.Get(slot).value);
          } else {
            hook := hook.(stage := if tries + 1 < ATTEMPTS then Checking(tries + 1) else Unhealthy);
          }
        case Healthy =>
          if input.ok {
            tmp := Some(Written(slot));
          }
          hook := hook.(stage := if input.ok then TmpWritten else Switched);
        case TmpWritten =>
          if input.ok {
            active, tmp, live := tmp, None, Some(hook.answered);
          }
          hook := hook.(stage := Switched);
        case Switched =>
          var named := pidFile.Get(Other(slot));
          if named.Names? {
            Stop(named.pid);
          }
          hook := hook.(stage := OldStopped);
        case OldStopped =>
          pidFile, hook := pidFile.Set(Other(slot), Absent), Idle;
        case Unhealthy =>
          Stop(hook.pid);
          hook := hook.(stage := NewStopped);
        case NewStopped =>
          pidFile, hook := pidFile.Set(slot, Absent), Idle;
      }
    }

    // The processes' own doings; an event that cannot happen does not.
    method Meanwhile(events: seq<Event>, ghost start: World, ghost before: seq<Step>) returns (ghost steps: seq<Step>)
      requires Path(start, before) && Now() == After(start, before)
      requires before != [] && before[0] == Start && Start !in before[1..]
      modifies `procs, `listener, `exited
      ensures Path(start, steps) && Now() == After(start, steps)
      ensures steps != [] && steps[0] == Start && Start !in steps[1..]
      ensures forall step | step in steps && step !in before :: step.Exit? || step.Bind?
    {
      steps := before;
      var i := 0;
      while i < |events|
        invariant 0 <= i <= |events|
        invariant Path(start, steps) && Now() == After(start, steps)
        invariant steps != [] && steps[0] == Start && Start !in steps[1..]
        invariant hook == old(hook)
        invariant forall step | step in steps && step !in before :: step.Exit? || step.Bind?
      {
        match events[i] {
          case Exits(pid) =>
            if pid in procs {
              PathAppend(start, steps, Exit(pid));
              Stop(pid);
              exited := exited + {pid};
              steps := steps + [Exit(pid)];
            }
          case Binds(pid) =>
            if pid in procs && listener.Get(procs[pid].slot).None? {
              PathAppend(start, steps, Bind(pid));
              listener := listener.Set(procs[pid].slot, Some(pid));
              steps := steps + [Bind(pid)];
            }
        }
        i := i + 1;
      }
    }

    static predicate NoneAnswered(inputs: seq<Input>) {
      forall k | 6 <= k < |inputs| :: !inputs[k].ok
    }

    // What happens meanwhile, and then one statement.
    method Turn(input: Input, ghost start: World, ghost before: seq<Step>) returns (ghost steps: seq<Step>)
      requires hook.Running? && OneRun(start, before) && Now() == After(start, before)
      modifies this
      ensures OneRun(start, steps) && Now() == After(start, steps)
      ensures Gate(true) in steps ==> Gate(true) in before || (old(hook.stage) == CheckedOut && input.ok)
      ensures Check(true) in steps ==> Check(true) in before || (old(hook.stage).Checking? && input.ok)
      ensures old(hook.stage) == CheckedOut && !input.ok ==> hook.Idle?
      ensures forall k | 0 <= k < 6 && old(hook.stage) == StageAfter(k) && hook.Running? :: hook.stage == StageAfter(k + 1)
    {
      steps := Meanwhile(input.meanwhile, start, before);
      ghost var step := NextStep(Now(), input);
      Statement(input);
      PathAppend(start, steps, step);
      steps := steps + [step];
    }

    // One push: the hook runs until it is done or dies for want of further inputs.
    method Push(inputs: seq<Input>) returns (ghost steps: seq<Step>)
      requires hook.Idle?
      modifies this
      ensures OneRun(old(Now()), steps) && Now() == After(old(Now()), steps)
      ensures hook.Idle?
      // What it started runs what it had built.
      ensures RunsBuilt(old(Now()), Now(), Got(steps))
      // When the gate refuses, nothing but the other slot's checked out files has changed.
      ensures |inputs| > 1 && !inputs[1].ok ==> OldUntouched(old(Now()), Now(), steps) && NothingStarted(old(Now()), Now())
      // When no check is answered, the previous version is as it was.
      ensures PidsFresh(old(Now())) && NoneAnswered(inputs) ==> OldUntouched(old(Now()), Now(), steps)
    {
      ghost var start := Now();
      PathAppend(start, [], Start);
      hook := Running(Choice, Chosen(active), 0, 0);
      steps := [Start];
      assert [] + [Start] == steps;
      var i := 0;
      while i < |inputs| && hook.Running?
        invariant 0 <= i <= |inputs|
        invariant OneRun(start, steps) && Now() == After(start, steps)
        invariant i <= 6 && hook.Running? ==> hook.stage == StageAfter(i)
        invariant i <= 1 || !inputs[1].ok ==> Gate(true) !in steps
        invariant i > 1 && !inputs[1].ok ==> hook.Idle?
        invariant NoneAnswered(inputs) ==> Check(true) !in steps
      {
        steps := Turn(inputs[i], start, steps);
        i := i + 1;
      }
      if hook.Running? {
        PathAppend(start, steps, Die);
        hook := Idle;
        steps := steps + [Die];
      }
      StartsWhatItBuilt(start, steps);
      if |inputs| > 1 && !inputs[1].ok {
        RefusedAtGate(start, steps);
      }
      if PidsFresh(start) && NoneAnswered(inputs) {
        NoAnswerNoChange(start, steps);
      }
    }
  }
}
