/** A blue-green deploy, one shell statement at a time, with the app's processes exiting and
    binding their ports in between and the hook dying anywhere. */
module BlueGreen {
  import opened Outcomes
  import opened ActiveSlot

  datatype Pair<T> = Pair(a: T, b: T) {
    function Get(s: Slot): T { if s == A then a else b }
    function Set(s: Slot, x: T): Pair<T> { if s == A then this.(a := x) else this.(b := x) }
  }

  // A live process: the slot it was started in and the files it was started from.
  datatype Proc = Proc(slot: Slot, files: int)

  // A pid file caught between being truncated and written is empty.
  datatype PidFile = Absent | Empty | Names(pid: nat)

  datatype Stage =
    | Choice | CheckedOut | Gated | Built | Spawned | Truncated | Checking(tries: nat)
    | Healthy | TmpWritten | Switched | OldStopped
    | Unhealthy | NewStopped

  // The hook's variables; answered is whoever answered the health check.
  datatype Hook = Idle | Running(stage: Stage, slot: Slot, pid: nat, answered: nat)

  // live and exited are history: the process that answered for the slot switched to, and the
  // processes that ended by themselves.
  datatype World = World(
    active: Option<string>, tmp: Option<string>, files: Pair<int>, pidFile: Pair<PidFile>,
    procs: map<nat, Proc>, listener: Pair<Option<nat>>, nextPid: nat, hook: Hook,
    live: Option<nat>, exited: set<nat>)

  datatype Step =
    // the hook's statements, in order
    | Start | Checkout(got: int) | Gate(ok: bool) | Build(got: int) | Spawn | TruncatePidFile | WritePidFile
    | Check(ok: bool) | WriteTmp | Switch | SwitchFails | KillOld | RemoveOld | KillNew | RemoveNew
    // the rest of the world
    | Die | Exit(pid: nat) | Bind(pid: nat)

  const ATTEMPTS := 20

  function Initial(): World {
    World(Some("A"), None, Pair(0, 0), Pair(Absent, Absent), map[], Pair(None, None), 1, Idle, None, {})
  }

  predicate At(w: World, stage: Stage) {
    w.hook.Running? && w.hook.stage == stage
  }

  function Advance(w: World, stage: Stage): World
    requires w.hook.Running?
  {
    w.(hook := w.hook.(stage := stage))
  }

  // The process is gone and its port is free again.
  function Without(w: World, pid: nat): World {
    w.(procs := map p | p in w.procs && p != pid :: w.procs[p],
       listener := Pair(if w.listener.a == Some(pid) then None else w.listener.a,
                        if w.listener.b == Some(pid) then None else w.listener.b))
  }

  predicate Enabled(w: World, step: Step) {
    match step
    case Start => w.hook.Idle?
    case Checkout(_) => At(w, Choice)
    case Gate(_) => At(w, CheckedOut)
    case Build(_) => At(w, Gated)
    case Spawn => At(w, Built)
    case TruncatePidFile => At(w, Spawned)
    case WritePidFile => At(w, Truncated)
    case Check(ok) => w.hook.Running? && w.hook.stage.Checking? && (ok ==> w.listener.Get(w.hook.slot).Some?)
    case WriteTmp => At(w, Healthy)
    case Switch => At(w, TmpWritten)
    case SwitchFails => At(w, Healthy) || At(w, TmpWritten)
    case KillOld => At(w, Switched)
    case RemoveOld => At(w, OldStopped)
    case KillNew => At(w, Unhealthy)
    case RemoveNew => At(w, NewStopped)
    case Die => w.hook.Running?
    case Exit(pid) => pid in w.procs
    case Bind(pid) => pid in w.procs && w.listener.Get(w.procs[pid].slot).None?
  }

  function Killed(w: World, pid: nat): World {
    if pid in w.procs then Without(w, pid) else w
  }

  function Do(w: World, step: Step): World
    requires Enabled(w, step)
  {
    match step
    case Start => w.(hook := Running(Choice, Chosen(w.active), 0, 0))
    case Checkout(got) => Advance(w, CheckedOut).(files := w.files.Set(w.hook.slot, got))
    case Gate(ok) => if ok then Advance(w, Gated) else w.(hook := Idle)
    case Build(got) => Advance(w, Built).(files := w.files.Set(w.hook.slot, got))
    case Spawn =>
      var pid := w.nextPid;
      w.(procs := w.procs[pid := Proc(w.hook.slot, w.files.Get(w.hook.slot))], nextPid := pid + 1,
         hook := w.hook.(stage := Spawned, pid := pid))
    case TruncatePidFile => Advance(w, Truncated).(pidFile := w.pidFile.Set(w.hook.slot, Empty))
    case WritePidFile => Advance(w, Checking(0)).(pidFile := w.pidFile.Set(w.hook.slot, Names(w.hook.pid)))
    case Check(ok) =>
      if ok then w.(hook := w.hook.(stage := Healthy, answered := w.listener.Get(w.hook.slot).value))
      else Advance(w, if w.hook.stage.tries + 1 < ATTEMPTS then Checking(w.hook.stage.tries + 1) else Unhealthy)
    case WriteTmp => Advance(w, TmpWritten).(tmp := Some(Written(w.hook.slot)))
    case Switch => Advance(w, Switched).(active := w.tmp, tmp := None, live := Some(w.hook.answered))
    // The file could not be written or renamed; the script goes on all the same.
    case SwitchFails => Advance(w, Switched)
    case KillOld =>
      var named := w.pidFile.Get(Other(w.hook.slot));
      Advance(if named.Names? then Killed(w, named.pid) else w, OldStopped)
    case RemoveOld => w.(pidFile := w.pidFile.Set(Other(w.hook.slot), Absent), hook := Idle)
    case KillNew => Advance(Killed(w, w.hook.pid), NewStopped)
    case RemoveNew => w.(pidFile := w.pidFile.Set(w.hook.slot, Absent), hook := Idle)
    case Die => w.(hook := Idle)
    case Exit(pid) => Without(w, pid).(exited := w.exited + {pid})
    case Bind(pid) => w.(listener := w.listener.Set(w.procs[pid].slot, Some(pid)))
  }

  predicate Path(w: World, steps: seq<Step>)
    decreases |steps|
  {
    steps != [] ==> Enabled(w, steps[0]) && Path(Do(w, steps[0]), steps[1..])
  }

  function After(w: World, steps: seq<Step>): World
    requires Path(w, steps)
    decreases |steps|
  {
    if steps == [] then w else After(Do(w, steps[0]), steps[1..])
  }

  lemma {:induction false} PathAppend(w: World, steps: seq<Step>, step: Step)
    requires Path(w, steps) && Enabled(After(w, steps), step)
    ensures Path(w, steps + [step]) && After(w, steps + [step]) == Do(After(w, steps), step)
    decreases |steps|
  {
    if steps == [] {
      assert [step][1..] == [];
    } else {
      PathAppend(Do(w, steps[0]), steps[1..], step);
      assert (steps + [step])[1..] == steps[1..] + [step];
    }
  }
}
