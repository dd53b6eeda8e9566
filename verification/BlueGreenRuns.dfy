/** What one run of the hook does, by how far it got: the order of its statements, what a refused
    gate leaves, and what a deploy that is never answered leaves. */
module BlueGreenRuns {
  import opened Outcomes
  import opened ActiveSlot
  import opened BlueGreen
  import opened BlueGreenSafety

  // A run of one hook, cut short anywhere, with processes exiting and taking ports in between.
  predicate OneRun(w: World, steps: seq<Step>) {
    w.hook.Idle? && Path(w, steps) && steps != [] && steps[0] == Start && Start !in steps[1..]
  }

  lemma Shorter(w: World, steps: seq<Step>)
    requires OneRun(w, steps) && |steps| > 1
    ensures var n := |steps| - 1;
      && OneRun(w, steps[..n]) && Enabled(After(w, steps[..n]), steps[n])
      && After(w, steps) == Do(After(w, steps[..n]), steps[n])
      && steps[n] != Start && steps == steps[..n] + [steps[n]]
  {
    var n := |steps| - 1;
    assert steps == steps[..n] + [steps[n]];
    assert steps[n] in steps[1..];
    assert forall x | x in steps[..n][1..] :: x in steps[1..];
    PathPrefix(w, steps[..n], steps[n]);
    PathAppend(w, steps[..n], steps[n]);
  }

  // ---------- the order of the statements ----------

  // What the hook does up to and with its gate.
  predicate UpToGate(step: Step) {
    step.Start? || step.Checkout? || step.Gate? || step.Exit? || step.Bind? || step.Die?
  }

  predicate PastGate(stage: Stage) {
    stage != Choice && stage != CheckedOut
  }

  // A hook decides at its gate once.
  lemma {:induction false} OneGate(w: World, steps: seq<Step>)
    requires OneRun(w, steps)
    ensures var r := After(w, steps);
      && (Gate(false) in steps ==> Gate(true) !in steps && r.hook.Idle?)
      && (r.hook.Running? && !PastGate(r.hook.stage) ==> Gate(true) !in steps && Gate(false) !in steps)
      && (r.hook.Running? && PastGate(r.hook.stage) ==> Gate(true) in steps)
    decreases |steps|
  {
    if |steps| > 1 {
      Shorter(w, steps);
      OneGate(w, steps[..|steps| - 1]);
    }
  }

  // Everything else comes after a gate that passed, in this very run.
  lemma GateComesFirst(w: World, steps: seq<Step>, step: Step)
    requires OneRun(w, steps) && Enabled(After(w, steps), step) && !UpToGate(step)
    ensures Gate(true) in steps && Gate(false) !in steps
  {
    OneGate(w, steps);
  }

  // Health checks that got no answer.
  function Misses(steps: seq<Step>): nat {
    if steps == [] then 0 else Misses(steps[..|steps| - 1]) + if steps[|steps| - 1] == Check(false) then 1 else 0
  }

  predicate Answering(stage: Stage) {
    stage == Healthy || stage == TmpWritten || PastSwitch(stage)
  }

  predicate Failing(stage: Stage) {
    stage == Unhealthy || stage == NewStopped
  }

  // How the checks went, by stage.
  predicate ChecksSoFar(hook: Hook, misses: nat, answered: bool) {
    hook.Running? ==>
      && (answered <==> Answering(hook.stage))
      && misses <= 20 && (answered ==> misses < 20)
      && (hook.stage.Checking? ==> misses == hook.stage.tries < 20)
      && (Failing(hook.stage) ==> misses == 20)
      && (!hook.stage.Checking? && !Answering(hook.stage) && !Failing(hook.stage) ==> misses == 0)
  }

  lemma CheckCounts(w: World, step: Step, misses: nat, answered: bool)
    requires ChecksSoFar(w.hook, misses, answered) && Enabled(w, step) && step != Start
    ensures ChecksSoFar(Do(w, step).hook, misses + if step == Check(false) then 1 else 0, answered || step == Check(true))
  {
  }

  lemma {:induction false} Counted(w: World, steps: seq<Step>)
    requires OneRun(w, steps)
    ensures ChecksSoFar(After(w, steps).hook, Misses(steps), Check(true) in steps)
    decreases |steps|
  {
    var n := |steps| - 1;
    if n == 0 {
      assert steps == [Start] && Misses([]) == 0;
    } else {
      Shorter(w, steps);
      Counted(w, steps[..n]);
      CheckCounts(After(w, steps[..n]), steps[n], Misses(steps[..n]), Check(true) in steps[..n]);
    }
  }

  // Traffic is changed over and the old instance stopped only after an answer within twenty checks;
  // the new instance is given up only after exactly twenty without one.
  lemma TwentyChecks(w: World, steps: seq<Step>, step: Step)
    requires OneRun(w, steps) && Enabled(After(w, steps), step)
    ensures step in {WriteTmp, Switch, SwitchFails, KillOld, RemoveOld} ==> Check(true) in steps && Misses(steps) < 20
    ensures step in {KillNew, RemoveNew} ==> Check(true) !in steps && Misses(steps) == 20
    ensures step.Check? ==> Check(true) !in steps && Misses(steps) < 20
  {
    Counted(w, steps);
  }

  // ---------- what a run leaves alone ----------

  // The slot that is not built into, the file that names the live one and the numbering are as they
  // were, and whatever ran still runs unless it ended by itself.
  predicate OldUntouched(w: World, r: World, steps: seq<Step>) {
    && r.active == w.active && r.tmp == w.tmp && r.live == w.live
    && r.files.Get(Other(Chosen(w.active))) == w.files.Get(Other(Chosen(w.active)))
    && r.pidFile.Get(Other(Chosen(w.active))) == w.pidFile.Get(Other(Chosen(w.active)))
    && (forall p | p in w.procs :: (p in r.procs && r.procs[p] == w.procs[p]) || Exit(p) in steps)
  }

  // Besides, nothing was started and no pid file was touched.
  predicate NothingStarted(w: World, r: World) {
    r.pidFile == w.pidFile && r.nextPid == w.nextPid && r.procs.Keys <= w.procs.Keys
  }

  predicate Own(w: World, r: World) {
    r.hook.Running? ==> r.hook.slot == Chosen(w.active) && (r.hook.pid == 0 || r.hook.pid >= w.nextPid)
  }

  lemma ProcsStay(w: World, before: World, step: Step, steps: seq<Step>)
    requires PidsFresh(w) && Enabled(before, step) && before.nextPid >= w.nextPid && Own(w, before)
    requires OldUntouched(w, before, steps)
    requires step != KillOld
    ensures forall p | p in w.procs ::
      (p in Do(before, step).procs && Do(before, step).procs[p] == w.procs[p]) || Exit(p) in steps + [step]
  {
  }

  // A run that does not get past its gate: the hook ends there, and nothing but the checked out
  // files of the other slot has changed.
  lemma {:induction false} RefusedAtGate(w: World, steps: seq<Step>)
    requires OneRun(w, steps) && Gate(true) !in steps
    ensures var r := After(w, steps);
      && OldUntouched(w, r, steps) && NothingStarted(w, r) && Own(w, r)
      && (r.hook.Running? ==> !PastGate(r.hook.stage))
      && (Gate(false) in steps ==> r.hook.Idle?)
    decreases |steps|
  {
    if |steps| > 1 {
      var n := |steps| - 1;
      Shorter(w, steps);
      RefusedAtGate(w, steps[..n]);
    }
  }

  // A deploy that got no answer, however far it came: the previous version is as it was.
  lemma {:induction false} NoAnswerNoChange(w: World, steps: seq<Step>)
    requires PidsFresh(w) && OneRun(w, steps) && Check(true) !in steps
    ensures var r := After(w, steps);
      && OldUntouched(w, r, steps) && Own(w, r) && r.nextPid >= w.nextPid
      && (r.hook.Running? ==> !Answering(r.hook.stage))
    decreases |steps|
  {
    if |steps| > 1 {
      var n := |steps| - 1;
      Shorter(w, steps);
      NoAnswerNoChange(w, steps[..n]);
      ProcsStay(w, After(w, steps[..n]), steps[n], steps[..n]);
    }
  }

  // ---------- what a finished run leaves ----------

  predicate Started(stage: Stage) {
    PastGate(stage) && stage != Gated && stage != Built
  }

  predicate Named(stage: Stage) {
    Started(stage) && stage != Spawned && stage != Truncated
  }

  // The hook's own process is the only new one, and its slot's pid file names it; the other slot's
  // file is as it was, and what it named is gone once the old instance is stopped.
  predicate Midway(w: World, r: World, switched: bool) {
    var s, hook := Chosen(w.active), r.hook;
    hook.Running? ==>
      && hook.slot == s && r.nextPid >= w.nextPid
      && (Started(hook.stage) ==> w.nextPid <= hook.pid < r.nextPid)
      && (forall p | p in r.procs :: p in w.procs || (Started(hook.stage) && hook.stage != NewStopped && p == hook.pid))
      && (Named(hook.stage) ==> r.pidFile.Get(s) == Names(hook.pid))
      && r.pidFile.Get(Other(s)) == w.pidFile.Get(Other(s))
      && (hook.stage == TmpWritten ==> r.tmp == Some(Written(s)))
      && r.active == (if switched then Some(Written(s)) else w.active)
      && (switched ==> PastSwitch(hook.stage))
      && (hook.stage == OldStopped ==> OldGone(w, r))
  }

  predicate OldGone(w: World, r: World) {
    var named := w.pidFile.Get(Other(Chosen(w.active)));
    named.Names? ==> named.pid !in r.procs
  }

  predicate Deployed(w: World, r: World, switched: bool) {
    var s := Chosen(w.active);
    && r.active == (if switched then Some(Written(s)) else w.active)
    && r.pidFile.Get(s).Names? && r.pidFile.Get(s).pid >= w.nextPid && r.pidFile.Get(Other(s)) == Absent
    && OldGone(w, r)
    && (forall p | p in r.procs :: p in w.procs || p == r.pidFile.Get(s).pid)
  }

  predicate RolledBack(w: World, r: World) {
    var s := Chosen(w.active);
    && r.active == w.active && r.pidFile == w.pidFile.Set(s, Absent)
    && (forall p | p in r.procs :: p in w.procs)
  }

  lemma BuildSteps(w: World, r: World, step: Step, switched: bool)
    requires PidsFresh(w) && Midway(w, r, switched) && r.hook.Running? && Enabled(r, step)
    requires step.Checkout? || step.Gate? || step.Build? || step.Spawn?
    ensures Midway(w, Do(r, step), switched || step == Switch)
  {
  }

  lemma PidFileSteps(w: World, r: World, step: Step, switched: bool)
    requires PidsFresh(w) && Midway(w, r, switched) && r.hook.Running? && Enabled(r, step)
    requires step.TruncatePidFile? || step.WritePidFile? || step.Check?
    ensures Midway(w, Do(r, step), switched || step == Switch)
  {
  }

  lemma SwitchSteps(w: World, r: World, step: Step, switched: bool)
    requires PidsFresh(w) && Midway(w, r, switched) && r.hook.Running? && Enabled(r, step)
    requires step.WriteTmp? || step.Switch? || step.SwitchFails?
    ensures Midway(w, Do(r, step), switched || step == Switch)
  {
  }

  lemma KillSteps(w: World, r: World, step: Step, switched: bool)
    requires PidsFresh(w) && Midway(w, r, switched) && r.hook.Running? && Enabled(r, step)
    requires step.KillOld? || step.KillNew?
    ensures Midway(w, Do(r, step), switched || step == Switch)
  {
  }

  lemma OtherSteps(w: World, r: World, step: Step, switched: bool)
    requires PidsFresh(w) && Midway(w, r, switched) && r.hook.Running? && Enabled(r, step)
    requires step.Exit? || step.Bind? || step.Die? || step.RemoveOld? || step.RemoveNew?
    ensures Midway(w, Do(r, step), switched || step == Switch)
  {
  }

  lemma LastSteps(w: World, r: World, step: Step, switched: bool)
    requires PidsFresh(w) && Midway(w, r, switched) && r.hook.Running? && Enabled(r, step)
    ensures step == RemoveOld ==> Deployed(w, Do(r, step), switched)
    ensures step == RemoveNew ==> RolledBack(w, Do(r, step))
  {
  }

  lemma MidwayStep(w: World, r: World, step: Step, switched: bool)
    requires PidsFresh(w) && Midway(w, r, switched) && r.hook.Running? && Enabled(r, step)
    ensures Midway(w, Do(r, step), switched || step == Switch)
    ensures step == RemoveOld ==> Deployed(w, Do(r, step), switched)
    ensures step == RemoveNew ==> RolledBack(w, Do(r, step))
  {
    LastSteps(w, r, step, switched);
    match step
    case Checkout(_) => BuildSteps(w, r, step, switched);
    case Gate(_) => BuildSteps(w, r, step, switched);
    case Build(_) => BuildSteps(w, r, step, switched);
    case Spawn => BuildSteps(w, r, step, switched);
    case TruncatePidFile => PidFileSteps(w, r, step, switched);
    case WritePidFile => PidFileSteps(w, r, step, switched);
    case Check(_) => PidFileSteps(w, r, step, switched);
    case WriteTmp => SwitchSteps(w, r, step, switched);
    case Switch => SwitchSteps(w, r, step, switched);
    case SwitchFails => SwitchSteps(w, r, step, switched);
    case KillOld => KillSteps(w, r, step, switched);
    case KillNew => KillSteps(w, r, step, switched);
    case _ => OtherSteps(w, r, step, switched);
  }

  lemma RestStep(w: World, r: World, step: Step)
    requires r.hook.Idle? && Enabled(r, step) && step != Start
    ensures Do(r, step).hook.Idle?
    ensures forall switched | Deployed(w, r, switched) :: Deployed(w, Do(r, step), switched)
    ensures RolledBack(w, r) ==> RolledBack(w, Do(r, step))
  {
  }

  // A deploy that went through has the new instance in the file if the file could be written, its
  // process named and the old one gone; one given up leaves no process and no pid file of its own.
  lemma {:induction false} RunsToItsEnd(w: World, steps: seq<Step>)
    requires PidsFresh(w) && OneRun(w, steps)
    ensures Midway(w, After(w, steps), Switch in steps)
    ensures RemoveOld in steps ==> Deployed(w, After(w, steps), Switch in steps) && After(w, steps).hook.Idle?
    ensures RemoveNew in steps ==> RolledBack(w, After(w, steps)) && After(w, steps).hook.Idle?
    decreases |steps|
  {
    var n := |steps| - 1;
    if n == 0 {
      assert steps == [Start];
    } else {
      Shorter(w, steps);
      RunsToItsEnd(w, steps[..n]);
      var before := After(w, steps[..n]);
      if before.hook.Running? {
        MidwayStep(w, before, steps[n], Switch in steps[..n]);
      } else {
        RestStep(w, before, steps[n]);
      }
    }
  }

  // ---------- what it starts ----------

  // What the build left in the slot's directory, if there was one.
  function Got(steps: seq<Step>): Option<int> {
    if steps == [] then None
    else if steps[|steps| - 1].Build? then Some(steps[|steps| - 1].got)
    else Got(steps[..|steps| - 1])
  }

  // Whatever is new runs in the other slot, from what was built.
  predicate RunsBuilt(w: World, r: World, got: Option<int>) {
    forall p | p in r.procs && p !in w.procs :: got.Some? && r.procs[p] == Proc(Chosen(w.active), got.value)
  }

  predicate BuiltSoFar(w: World, r: World, got: Option<int>) {
    && RunsBuilt(w, r, got)
    && (r.hook.Running? ==>
          var s, stage := Chosen(w.active), r.hook.stage;
          && r.hook.slot == s
          && (stage == Built ==> got == Some(r.files.Get(s)))
          && (Started(stage) ==> got.Some?)
          && (!Started(stage) ==> r.procs.Keys <= w.procs.Keys))
  }

  // No other statement starts a process or builds.
  lemma OnlySpawnStarts(r: World, step: Step)
    requires Enabled(r, step) && !step.Start? && !step.Spawn? && !step.Build?
    ensures var t := Do(r, step);
      && (forall p | p in t.procs :: p in r.procs && t.procs[p] == r.procs[p])
      && (t.hook.Running? ==>
            && r.hook.Running? && t.hook.slot == r.hook.slot && (Started(t.hook.stage) <==> Started(r.hook.stage))
            && (t.hook.stage == Built <==> r.hook.stage == Built) && (t.hook.stage == Built ==> t.files == r.files))
  {
  }

  lemma BuiltStep(w: World, r: World, step: Step, got: Option<int>)
    requires BuiltSoFar(w, r, got) && Enabled(r, step) && step != Start
    ensures BuiltSoFar(w, Do(r, step), if step.Build? then Some(step.got) else got)
  {
    if !step.Spawn? && !step.Build? {
      OnlySpawnStarts(r, step);
    }
  }

  // A deploy starts nothing but what it has built itself, in the slot that was not live.
  lemma {:induction false} StartsWhatItBuilt(w: World, steps: seq<Step>)
    requires OneRun(w, steps)
    ensures RunsBuilt(w, After(w, steps), Got(steps))
    ensures BuiltSoFar(w, After(w, steps), Got(steps))
    decreases |steps|
  {
    var n := |steps| - 1;
    if n == 0 {
      assert steps == [Start] && Got([]) == None;
    } else {
      Shorter(w, steps);
      StartsWhatItBuilt(w, steps[..n]);
      BuiltStep(w, After(w, steps[..n]), steps[n], Got(steps[..n]));
    }
  }
}
