/** What every run of deploys keeps: the slot the proxy reads was vouched for by a health check,
    is never built into, and nothing running in it is killed. */
module BlueGreenSafety {
  import opened Outcomes
  import opened ActiveSlot
  import opened BlueGreen

  predicate FileWhole(w: World) {
    w.active == Some("A") || w.active == Some(Written(A)) || w.active == Some(Written(B))
  }

  predicate Known(w: World, file: PidFile) {
    file.Names? ==> file.pid < w.nextPid
  }

  // A number is used for one process only; 0 is none.
  predicate PidsFresh(w: World) {
    && 0 < w.nextPid && 0 !in w.procs
    && (forall p | p in w.procs :: p < w.nextPid && p !in w.exited)
    && (forall p | p in w.exited :: p < w.nextPid)
    && Known(w, w.pidFile.a) && Known(w, w.pidFile.b)
    && (w.hook.Running? ==> w.hook.pid < w.nextPid)
  }

  predicate OfSlot(w: World, pid: nat, s: Slot) {
    pid in w.procs ==> w.procs[pid].slot == s
  }

  predicate ListensIn(w: World, listener: Option<nat>, s: Slot) {
    listener.Some? ==> listener.value in w.procs && w.procs[listener.value].slot == s
  }

  // Ports and pid files of a slot concern only processes of that slot.
  predicate SlotsApart(w: World) {
    && ListensIn(w, w.listener.a, A) && ListensIn(w, w.listener.b, B)
    && (w.pidFile.a.Names? ==> OfSlot(w, w.pidFile.a.pid, A))
    && (w.pidFile.b.Names? ==> OfSlot(w, w.pidFile.b.pid, B))
    && (w.hook.Running? ==> OfSlot(w, w.hook.pid, w.hook.slot))
  }

  predicate PastSwitch(stage: Stage) {
    stage == Switched || stage == OldStopped
  }

  predicate HookApart(w: World) {
    w.hook.Running? ==>
      && (!PastSwitch(w.hook.stage) ==> w.hook.slot == Other(Live(w.active)))
      && (w.hook.stage == TmpWritten ==> w.tmp == Some(Written(w.hook.slot)))
  }

  // Still answering for the slot unless it ended by itself.
  predicate Serves(w: World, s: Slot, pid: nat) {
    pid in w.exited || w.listener.Get(s) == Some(pid)
  }

  predicate Vouched(w: World) {
    && (w.live.Some? ==> Serves(w, Live(w.active), w.live.value))
    && (w.hook.Running? && w.hook.stage in {Healthy, TmpWritten} ==> Serves(w, w.hook.slot, w.hook.answered))
  }

  predicate Inv(w: World) {
    FileWhole(w) && PidsFresh(w) && SlotsApart(w) && HookApart(w) && Vouched(w)
  }

  lemma InitialInv()
    ensures Inv(Initial()) && Initial().hook.Idle?
  {
  }

  lemma FileReads(w: World)
    requires FileWhole(w)
    ensures Chosen(w.active) == Other(Live(w.active)) && Untouched(w.active) == Live(w.active)
  {
    WrittenReads(A);
    WrittenReads(B);
    ReadersAgreeIff(w.active);
  }

  // One step: the slot the proxy reads is not built into, nothing of it is stopped but by its own
  // exit, and the proxy changes over only at the switch, to a slot whose check was answered.
  predicate Safe(w: World, step: Step, w': World) {
    && w'.files.Get(Live(w.active)) == w.files.Get(Live(w.active))
    && w'.files.Get(Live(w'.active)) == w.files.Get(Live(w'.active))
    && (forall p | p in w.procs && p !in w'.procs :: step == Exit(p) || w.procs[p].slot != Live(w'.active))
    && (w'.active != w.active ==>
          step == Switch && w.hook.Running? && Live(w'.active) == w.hook.slot && w'.live == Some(w.hook.answered))
    && (w'.live != w.live ==> step == Switch)
  }

  lemma KillIsSafe(w: World, pid: nat, s: Slot)
    requires PidsFresh(w) && SlotsApart(w) && (pid in w.procs ==> w.procs[pid].slot != s)
    ensures PidsFresh(Killed(w, pid)) && SlotsApart(Killed(w, pid))
    ensures Killed(w, pid).listener.Get(s) == w.listener.Get(s)
    ensures forall p | p in w.procs && p !in Killed(w, pid).procs :: w.procs[p].slot != s
  {
  }

  // The hook is about to stop the old instance although its slot is still the live one, which
  // is so after a switch that failed, and that slot's pid file names a live process.
  predicate KillsLive(w: World, step: Step) {
    && step == KillOld && At(w, Switched) && w.hook.slot == Other(Live(w.active))
    && var named := w.pidFile.Get(Live(w.active)); named.Names? && named.pid in w.procs
  }

  lemma KillOldStep(w: World)
    requires Inv(w) && Enabled(w, KillOld)
    ensures Safe(w, KillOld, Do(w, KillOld)) <==> !KillsLive(w, KillOld)
    ensures !KillsLive(w, KillOld) ==> Inv(Do(w, KillOld))
  {
    var named := w.pidFile.Get(Other(w.hook.slot));
    if KillsLive(w, KillOld) {
      assert OfSlot(w, named.pid, Live(w.active));
      assert named.pid !in Do(w, KillOld).procs;
    } else if named.Names? {
      KillIsSafe(w, named.pid, Live(w.active));
    }
  }

  lemma KillNewStep(w: World)
    requires Inv(w) && Enabled(w, KillNew)
    ensures Inv(Do(w, KillNew)) && Safe(w, KillNew, Do(w, KillNew))
  {
    KillIsSafe(w, w.hook.pid, Live(w.active));
  }

  lemma ExitStep(w: World, pid: nat)
    requires Inv(w) && Enabled(w, Exit(pid))
    ensures Inv(Do(w, Exit(pid))) && Safe(w, Exit(pid), Do(w, Exit(pid)))
  {
  }

  lemma BindStep(w: World, pid: nat)
    requires Inv(w) && Enabled(w, Bind(pid))
    ensures Inv(Do(w, Bind(pid))) && Safe(w, Bind(pid), Do(w, Bind(pid)))
  {
  }

  lemma StartStep(w: World)
    requires Inv(w) && Enabled(w, Start)
    ensures Inv(Do(w, Start)) && Safe(w, Start, Do(w, Start))
  {
    FileReads(w);
  }

  lemma SwitchStep(w: World)
    requires Inv(w) && Enabled(w, Switch)
    ensures Inv(Do(w, Switch)) && Safe(w, Switch, Do(w, Switch))
  {
    WrittenReads(w.hook.slot);
  }

  lemma SpawnStep(w: World)
    requires Inv(w) && Enabled(w, Spawn)
    ensures Inv(Do(w, Spawn)) && Safe(w, Spawn, Do(w, Spawn))
  {
  }

  lemma FileSteps(w: World, step: Step)
    requires Inv(w) && Enabled(w, step) && (step.Checkout? || step.Build?)
    ensures Inv(Do(w, step)) && Safe(w, step, Do(w, step))
  {
  }

  lemma PidFileSteps(w: World, step: Step)
    requires Inv(w) && Enabled(w, step)
    requires step.TruncatePidFile? || step.WritePidFile? || step.RemoveOld? || step.RemoveNew?
    ensures Inv(Do(w, step)) && Safe(w, step, Do(w, step))
  {
  }

  lemma HookSteps(w: World, step: Step)
    requires Inv(w) && Enabled(w, step)
    requires step.Gate? || step.Check? || step.WriteTmp? || step.SwitchFails? || step.Die?
    ensures Inv(Do(w, step)) && Safe(w, step, Do(w, step))
  {
  }

  // A step, a failed switch included, is safe exactly when it does not stop the live slot.
  lemma StepIsSafe(w: World, step: Step)
    requires Inv(w) && Enabled(w, step)
    ensures Safe(w, step, Do(w, step)) <==> !KillsLive(w, step)
    ensures !KillsLive(w, step) ==> Inv(Do(w, step))
  {
    match step
    case KillOld => KillOldStep(w);
    case KillNew => KillNewStep(w);
    case Exit(pid) => ExitStep(w, pid);
    case Bind(pid) => BindStep(w, pid);
    case Start => StartStep(w);
    case Switch => SwitchStep(w);
    case Spawn => SpawnStep(w);
    case Checkout(_) => FileSteps(w, step);
    case Build(_) => FileSteps(w, step);
    case Gate(_) => HookSteps(w, step);
    case Check(_) => HookSteps(w, step);
    case WriteTmp => HookSteps(w, step);
    case SwitchFails => HookSteps(w, step);
    case Die => HookSteps(w, step);
    case _ => PidFileSteps(w, step);
  }

  // ---------- whole runs ----------

  predicate SafeThroughout(w: World, steps: seq<Step>)
    requires Path(w, steps)
    decreases |steps|
  {
    steps != [] ==> Safe(w, steps[0], Do(w, steps[0])) && SafeThroughout(Do(w, steps[0]), steps[1..])
  }

  predicate NeverKillsLive(w: World, steps: seq<Step>)
    requires Path(w, steps)
    decreases |steps|
  {
    steps != [] ==> !KillsLive(w, steps[0]) && NeverKillsLive(Do(w, steps[0]), steps[1..])
  }

  // A whole run, writes of the active-slot file failing in it or not, is safe at every step
  // exactly when no hook goes on, after such a failure, to a live pid in the live slot's file.
  lemma {:induction false} RunIsSafeIff(w: World, steps: seq<Step>)
    requires Inv(w) && Path(w, steps)
    ensures SafeThroughout(w, steps) <==> NeverKillsLive(w, steps)
    ensures NeverKillsLive(w, steps) ==> Inv(After(w, steps))
    decreases |steps|
  {
    if steps != [] {
      StepIsSafe(w, steps[0]);
      if !KillsLive(w, steps[0]) {
        RunIsSafeIff(Do(w, steps[0]), steps[1..]);
      }
    }
  }

  // ---------- runs in which every write succeeds ----------

  // Past the switch the hook's slot is the live one.
  predicate Landed(w: World) {
    w.hook.Running? && PastSwitch(w.hook.stage) ==> w.hook.slot == Live(w.active)
  }

  predicate Clean(w: World) {
    Inv(w) && Landed(w)
  }

  lemma CleanStep(w: World, step: Step)
    requires Clean(w) && Enabled(w, step) && step != SwitchFails
    ensures !KillsLive(w, step) && Clean(Do(w, step))
  {
    StepIsSafe(w, step);
    if step == Switch {
      WrittenReads(w.hook.slot);
    }
  }

  // Then no run stops its live slot.
  lemma {:induction false} CleanRun(w: World, steps: seq<Step>)
    requires Clean(w) && Path(w, steps) && SwitchFails !in steps
    ensures NeverKillsLive(w, steps) && Clean(After(w, steps))
    decreases |steps|
  {
    if steps != [] {
      CleanStep(w, steps[0]);
      CleanRun(Do(w, steps[0]), steps[1..]);
    }
  }

  lemma StepHistory(w: World, step: Step, pid: nat)
    requires Enabled(w, step)
    ensures Do(w, step).live.Some? <==> w.live.Some? || step == Switch
    ensures pid in Do(w, step).exited <==> pid in w.exited || step == Exit(pid)
  {
  }

  lemma {:induction false} RunHistory(w: World, steps: seq<Step>, pid: nat)
    requires Path(w, steps)
    ensures After(w, steps).live.Some? <==> w.live.Some? || Switch in steps
    ensures pid in After(w, steps).exited <==> pid in w.exited || Exit(pid) in steps
    decreases |steps|
  {
    if steps != [] {
      StepHistory(w, steps[0], pid);
      RunHistory(Do(w, steps[0]), steps[1..], pid);
      assert steps == [steps[0]] + steps[1..];
    }
  }

  // Once a deploy has switched, in whatever way later ones go, fail to write or die, short of
  // stopping the live slot: the process that answered the last health check answers on the port
  // the proxy forwards to, unless it ended by itself.
  lemma AlwaysServed(steps: seq<Step>)
    requires Path(Initial(), steps) && Switch in steps && NeverKillsLive(Initial(), steps)
    ensures var w := After(Initial(), steps);
      && w.live.Some?
      && (w.listener.Get(Live(w.active)) == w.live || Exit(w.live.value) in steps)
      && SafeThroughout(Initial(), steps)
  {
    InitialInv();
    RunIsSafeIff(Initial(), steps);
    var w := After(Initial(), steps);
    RunHistory(Initial(), steps, 0);
    RunHistory(Initial(), steps, w.live.value);
  }

  // In particular when every write of the active-slot file succeeds.
  lemma WritesSucceed(steps: seq<Step>)
    requires Path(Initial(), steps) && SwitchFails !in steps
    ensures NeverKillsLive(Initial(), steps) && SafeThroughout(Initial(), steps)
  {
    InitialInv();
    CleanRun(Initial(), steps);
    RunIsSafeIff(Initial(), steps);
  }

  // ---------- a switch follows an answered check ----------

  lemma {:induction false} PathPrefix(w: World, steps: seq<Step>, step: Step)
    requires Path(w, steps + [step])
    ensures Path(w, steps) && Enabled(After(w, steps), step)
    decreases |steps|
  {
    assert (steps + [step])[0] == if steps == [] then step else steps[0];
    if steps != [] {
      assert (steps + [step])[1..] == steps[1..] + [step];
      PathPrefix(Do(w, steps[0]), steps[1..], step);
    }
  }

  predicate Quiet(step: Step) {
    step.WriteTmp? || step.Exit? || step.Bind?
  }

  // At j the new slot answered, and from then on nothing was built, started or stopped by the hook.
  predicate AnsweredAt(w: World, steps: seq<Step>, j: nat, hook: Hook)
    requires hook.Running?
  {
    && j < |steps| && steps[j] == Check(true) && Path(w, steps[..j])
    && After(w, steps[..j]).listener.Get(hook.slot) == Some(hook.answered)
    && (forall k | j < k < |steps| :: Quiet(steps[k]))
  }

  lemma StepTowardsSwitch(w: World, step: Step)
    requires Enabled(w, step) && Do(w, step).hook.Running? && Do(w, step).hook.stage in {Healthy, TmpWritten}
    ensures w.hook.Running? && Do(w, step).hook.slot == w.hook.slot
    ensures step == Check(true) ==> w.listener.Get(w.hook.slot) == Some(Do(w, step).hook.answered)
    ensures step != Check(true) ==>
              Quiet(step) && w.hook.stage in {Healthy, TmpWritten} && Do(w, step).hook.answered == w.hook.answered
  {
  }

  lemma {:induction false} SwitchWasAnswered(w: World, steps: seq<Step>) returns (j: nat)
    requires w.hook.Idle? && Path(w, steps)
    requires After(w, steps).hook.Running? && After(w, steps).hook.stage in {Healthy, TmpWritten}
    ensures AnsweredAt(w, steps, j, After(w, steps).hook)
    decreases |steps|
  {
    var n := |steps| - 1;
    assert steps == steps[..n] + [steps[n]];
    PathPrefix(w, steps[..n], steps[n]);
    PathAppend(w, steps[..n], steps[n]);
    var before := After(w, steps[..n]);
    StepTowardsSwitch(before, steps[n]);
    if steps[n] == Check(true) {
      j := n;
    } else {
      j := SwitchWasAnswered(w, steps[..n]);
      assert steps[..n][..j] == steps[..j];
    }
  }

  // Whenever a hook is about to switch, the slot it switches to answered its health check in this
  // very run.
  lemma ChecksComeFirst(w: World, steps: seq<Step>)
    requires w.hook.Idle? && Path(w, steps) && Enabled(After(w, steps), Switch)
    ensures exists j :: AnsweredAt(w, steps, j, After(w, steps).hook)
  {
    var j := SwitchWasAnswered(w, steps);
  }
}
