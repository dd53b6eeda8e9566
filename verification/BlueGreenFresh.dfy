/** Whether a successful deploy serves the process it started: exactly when nothing of an earlier
    deploy is left alive in the slot it builds into. */
module BlueGreenFresh {
  import opened Outcomes
  import opened ActiveSlot
  import opened BlueGreen
  import opened BlueGreenSafety

  predicate NothingLeft(w: World, s: Slot) {
    forall p | p in w.procs :: w.procs[p].slot != s
  }

  predicate OnlyProcess(w: World, s: Slot, pid: nat) {
    forall p | p in w.procs && w.procs[p].slot == s :: p == pid
  }

  predicate Unspawned(stage: Stage) {
    stage in {Choice, CheckedOut, Gated, Built}
  }

  // This deploy's process is the only one in its slot, runs the files just built, and is the one
  // that answers.
  predicate Own(w: World) {
    w.hook.Running? ==>
      && (Unspawned(w.hook.stage) ==> w.hook.pid == 0)
      && OnlyProcess(w, w.hook.slot, w.hook.pid)
      && (w.hook.pid in w.procs ==> w.procs[w.hook.pid].files == w.files.Get(w.hook.slot))
      && (w.hook.stage in {Healthy, TmpWritten} ==> w.hook.answered == w.hook.pid)
      && (PastSwitch(w.hook.stage) ==> w.live == Some(w.hook.pid))
  }

  lemma OwnSpawn(w: World)
    requires Clean(w) && Own(w) && Enabled(w, Spawn)
    ensures Own(Do(w, Spawn))
  {
  }

  lemma OwnBuild(w: World, step: Step)
    requires Clean(w) && Own(w) && Enabled(w, step) && (step.Checkout? || step.Build?)
    ensures Own(Do(w, step))
  {
  }

  lemma OwnKill(w: World, step: Step)
    requires Clean(w) && Own(w) && Enabled(w, step) && (step.KillOld? || step.KillNew? || step.Exit? || step.Bind?)
    ensures Own(Do(w, step))
  {
  }

  lemma OwnRest(w: World, step: Step)
    requires Clean(w) && Own(w) && Enabled(w, step) && !step.Start? && !step.SwitchFails?
    requires !step.Spawn? && !step.Checkout? && !step.Build?
    requires !step.KillOld? && !step.KillNew? && !step.Exit? && !step.Bind?
    ensures Own(Do(w, step))
  {
  }

  lemma OwnStep(w: World, step: Step)
    requires Clean(w) && Own(w) && Enabled(w, step) && step != Start && step != SwitchFails
    ensures Own(Do(w, step))
  {
    match step
    case Spawn => OwnSpawn(w);
    case Checkout(_) => OwnBuild(w, step);
    case Build(_) => OwnBuild(w, step);
    case KillOld => OwnKill(w, step);
    case KillNew => OwnKill(w, step);
    case Exit(_) => OwnKill(w, step);
    case Bind(_) => OwnKill(w, step);
    case _ => OwnRest(w, step);
  }

  lemma {:induction false} OwnRun(w: World, steps: seq<Step>)
    requires Clean(w) && Own(w) && Path(w, steps) && Start !in steps && SwitchFails !in steps
    ensures Own(After(w, steps))
    decreases |steps|
  {
    if steps != [] {
      OwnStep(w, steps[0]);
      CleanStep(w, steps[0]);
      OwnRun(Do(w, steps[0]), steps[1..]);
    }
  }

  // A deploy begun here that gets as far as the switch.
  predicate Deploys(w: World, steps: seq<Step>) {
    && steps != [] && steps[0] == Start && Start !in steps[1..] && SwitchFails !in steps
    && Path(w, steps) && At(After(w, steps), Switched)
  }

  predicate ServesItsOwn(w: World) {
    w.hook.Running? && w.live == Some(w.hook.pid)
  }

  ghost predicate EveryDeployServesItsOwn(w: World) {
    forall steps | Deploys(w, steps) :: ServesItsOwn(After(w, steps))
  }

  lemma NothingLeftSuffices(w: World, steps: seq<Step>)
    requires Inv(w) && w.hook.Idle? && NothingLeft(w, Chosen(w.active)) && Deploys(w, steps)
    ensures ServesItsOwn(After(w, steps))
    ensures var r := After(w, steps);
      r.hook.pid in r.procs ==> r.procs[r.hook.pid].files == r.files.Get(Live(r.active))
  {
    CleanStep(w, Start);
    OwnRun(Do(w, Start), steps[1..]);
    CleanRun(Do(w, Start), steps[1..]);
  }

  // ---------- a process left behind can answer in its place ----------

  const PREPARATION := [Start] + ([Checkout(0)] + ([Gate(true)] + ([Build(0)] + [])))
  const LAUNCH := [Spawn] + ([TruncatePidFile] + ([WritePidFile] + []))
  const CHANGEOVER := [Check(true)] + ([WriteTmp] + ([Switch] + []))

  lemma PathCons(w: World, step: Step, rest: seq<Step>)
    requires Enabled(w, step) && Path(Do(w, step), rest)
    ensures Path(w, [step] + rest) && After(w, [step] + rest) == After(Do(w, step), rest)
  {
    assert ([step] + rest)[1..] == rest;
  }

  lemma {:induction false} PathJoin(w: World, first: seq<Step>, second: seq<Step>)
    requires Path(w, first) && Path(After(w, first), second)
    ensures Path(w, first + second) && After(w, first + second) == After(After(w, first), second)
    decreases |first|
  {
    if first == [] {
      assert first + second == second;
    } else {
      PathJoin(Do(w, first[0]), first[1..], second);
      assert (first + second)[1..] == first[1..] + second;
    }
  }

  function Prepared(w: World): World
    requires w.hook.Idle?
  {
    var s := Chosen(w.active);
    w.(files := w.files.Set(s, 0), hook := Running(Built, s, 0, 0))
  }

  lemma Prepare(w: World)
    requires w.hook.Idle?
    ensures Path(w, PREPARATION) && After(w, PREPARATION) == Prepared(w)
  {
    var w1 := Do(w, Start);
    var w2 := Do(w1, Checkout(0));
    var w3 := Do(w2, Gate(true));
    PathCons(w3, Build(0), []);
    PathCons(w2, Gate(true), [Build(0)] + []);
    PathCons(w1, Checkout(0), [Gate(true)] + ([Build(0)] + []));
    PathCons(w, Start, [Checkout(0)] + ([Gate(true)] + ([Build(0)] + [])));
  }

  // After the first three statements of the rollout.
  function Launched(w: World): World
    requires At(w, Built)
  {
    var s, pid := w.hook.slot, w.nextPid;
    w.(procs := w.procs[pid := Proc(s, w.files.Get(s))], nextPid := pid + 1, pidFile := w.pidFile.Set(s, Names(pid)),
       hook := w.hook.(stage := Checking(0), pid := pid))
  }

  lemma Launch(w: World)
    requires At(w, Built)
    ensures Path(w, LAUNCH) && After(w, LAUNCH) == Launched(w)
  {
    var w1 := Do(w, Spawn);
    var w2 := Do(w1, TruncatePidFile);
    PathCons(w2, WritePidFile, []);
    PathCons(w1, TruncatePidFile, [WritePidFile] + []);
    PathCons(w, Spawn, [TruncatePidFile] + ([WritePidFile] + []));
  }

  lemma ChangeOver(w: World, pid: nat)
    requires At(w, Checking(0)) && w.listener.Get(w.hook.slot) == Some(pid)
    ensures Path(w, CHANGEOVER)
    ensures var r := After(w, CHANGEOVER); At(r, Switched) && r.live == Some(pid) && r.hook.pid == w.hook.pid
  {
    var w1 := Do(w, Check(true));
    var w2 := Do(w1, WriteTmp);
    PathCons(w2, Switch, []);
    PathCons(w1, WriteTmp, [Switch] + []);
    PathCons(w, Check(true), [WriteTmp] + ([Switch] + []));
  }

  const ROLLOUT := LAUNCH + CHANGEOVER

  lemma RollOut(w: World, pid: nat)
    requires At(w, Built) && w.listener.Get(w.hook.slot) == Some(pid)
    ensures Path(w, ROLLOUT)
    ensures var r := After(w, ROLLOUT); At(r, Switched) && r.live == Some(pid) && r.hook.pid == w.nextPid
  {
    Launch(w);
    ChangeOver(After(w, LAUNCH), pid);
    PathJoin(w, LAUNCH, CHANGEOVER);
  }

  // The left-behind process has the port, or takes it before the new one is started.
  lemma SomeoneListens(w: World, stale: nat) returns (steps: seq<Step>, pid: nat)
    requires Inv(w) && w.hook.Running? && w.hook.stage == Built && stale in w.procs && w.procs[stale].slot == w.hook.slot
    ensures |steps| <= 1 && Start !in steps && SwitchFails !in steps && Path(w, steps)
    ensures var r := After(w, steps);
      At(r, Built) && r.hook == w.hook && r.nextPid == w.nextPid && r.listener.Get(w.hook.slot) == Some(pid) && pid < w.nextPid
  {
    if w.listener.Get(w.hook.slot).Some? {
      steps, pid := [], w.listener.Get(w.hook.slot).value;
    } else {
      steps, pid := [Bind(stale)], stale;
      assert steps[1..] == [];
    }
  }

  lemma OneStart(taking: seq<Step>)
    requires Start !in taking && SwitchFails !in taking
    ensures var steps := PREPARATION + (taking + ROLLOUT);
      steps[0] == Start && Start !in steps[1..] && SwitchFails !in steps
  {
    var steps := PREPARATION + (taking + ROLLOUT);
    assert Start !in PREPARATION[1..] && Start !in ROLLOUT;
    assert SwitchFails !in PREPARATION && SwitchFails !in ROLLOUT;
    assert steps[1..] == PREPARATION[1..] + (taking + ROLLOUT);
  }

  // The deploy reports success while the process it started serves nothing.
  lemma StaleDeploy(w: World, stale: nat) returns (steps: seq<Step>)
    requires Inv(w) && w.hook.Idle? && stale in w.procs && w.procs[stale].slot == Chosen(w.active)
    ensures Deploys(w, steps) && !ServesItsOwn(After(w, steps))
  {
    Prepare(w);
    CleanRun(w, PREPARATION);
    var taking, pid := SomeoneListens(Prepared(w), stale);
    var ready := After(Prepared(w), taking);
    RollOut(ready, pid);
    PathJoin(Prepared(w), taking, ROLLOUT);
    PathJoin(w, PREPARATION, taking + ROLLOUT);
    steps := PREPARATION + (taking + ROLLOUT);
    OneStart(taking);
  }

  // Every deploy begun here that switches serves the process it started exactly when no process
  // is left in the slot it builds into.
  lemma FreshIffNothingLeft(w: World)
    requires Inv(w) && w.hook.Idle?
    ensures EveryDeployServesItsOwn(w) <==> NothingLeft(w, Chosen(w.active))
  {
    if NothingLeft(w, Chosen(w.active)) {
      forall steps | Deploys(w, steps)
        ensures ServesItsOwn(After(w, steps))
      {
        NothingLeftSuffices(w, steps);
      }
    } else {
      var stale :| stale in w.procs && w.procs[stale].slot == Chosen(w.active);
      var steps := StaleDeploy(w, stale);
    }
  }

  // ---------- while no hook dies, nothing is left ----------

  predicate AllNamed(w: World, s: Slot) {
    forall p | p in w.procs && w.procs[p].slot == s :: w.pidFile.Get(s) == Names(p)
  }

  predicate Filed(stage: Stage) {
    stage.Checking? || stage in {Healthy, TmpWritten, Switched, OldStopped, Unhealthy}
  }

  predicate Tidy(w: World) {
    if w.hook.Idle? then NothingLeft(w, Other(Live(w.active))) && AllNamed(w, Live(w.active))
    else
      && Own(w)
      && (Filed(w.hook.stage) ==> w.pidFile.Get(w.hook.slot) == Names(w.hook.pid))
      && (w.hook.stage == NewStopped ==> NothingLeft(w, w.hook.slot))
      && (if w.hook.stage == OldStopped then NothingLeft(w, Other(w.hook.slot)) else AllNamed(w, Other(w.hook.slot)))
  }

  lemma TidyStart(w: World)
    requires Clean(w) && Tidy(w) && Enabled(w, Start)
    ensures Tidy(Do(w, Start))
  {
    FileReads(w);
  }

  lemma TidySpawn(w: World)
    requires Clean(w) && Tidy(w) && Enabled(w, Spawn)
    ensures Tidy(Do(w, Spawn))
  {
    OwnSpawn(w);
  }

  lemma TidyFiles(w: World, step: Step)
    requires Clean(w) && Tidy(w) && Enabled(w, step)
    requires step.Checkout? || step.Build? || step.TruncatePidFile? || step.WritePidFile?
    ensures Tidy(Do(w, step))
  {
    OwnStep(w, step);
  }

  lemma TidyEnd(w: World, step: Step)
    requires Clean(w) && Tidy(w) && Enabled(w, step) && (step.Gate? || step.RemoveOld? || step.RemoveNew?)
    ensures Tidy(Do(w, step))
  {
    FileReads(w);
  }

  lemma TidyKill(w: World, step: Step)
    requires Clean(w) && Tidy(w) && Enabled(w, step) && (step.KillOld? || step.KillNew?)
    ensures Tidy(Do(w, step))
  {
    OwnStep(w, step);
  }

  lemma TidyWorld(w: World, step: Step)
    requires Clean(w) && Tidy(w) && Enabled(w, step) && (step.Exit? || step.Bind?)
    ensures Tidy(Do(w, step))
  {
    OwnStep(w, step);
  }

  lemma TidyHook(w: World, step: Step)
    requires Clean(w) && Tidy(w) && Enabled(w, step) && (step.Check? || step.WriteTmp? || step.Switch?)
    ensures Tidy(Do(w, step))
  {
    OwnStep(w, step);
  }

  lemma TidyStep(w: World, step: Step)
    requires Clean(w) && Tidy(w) && Enabled(w, step) && step != Die && step != SwitchFails
    ensures Tidy(Do(w, step))
  {
    match step
    case Start => TidyStart(w);
    case Spawn => TidySpawn(w);
    case Checkout(_) => TidyFiles(w, step);
    case Build(_) => TidyFiles(w, step);
    case TruncatePidFile => TidyFiles(w, step);
    case WritePidFile => TidyFiles(w, step);
    case KillOld => TidyKill(w, step);
    case KillNew => TidyKill(w, step);
    case Exit(_) => TidyWorld(w, step);
    case Bind(_) => TidyWorld(w, step);
    case Gate(_) => TidyEnd(w, step);
    case RemoveOld => TidyEnd(w, step);
    case RemoveNew => TidyEnd(w, step);
    case _ => TidyHook(w, step);
  }

  lemma {:induction false} TidyRun(w: World, steps: seq<Step>)
    requires Clean(w) && Tidy(w) && Path(w, steps) && Die !in steps && SwitchFails !in steps
    ensures Clean(After(w, steps)) && Tidy(After(w, steps))
    decreases |steps|
  {
    if steps != [] {
      CleanStep(w, steps[0]);
      TidyStep(w, steps[0]);
      TidyRun(Do(w, steps[0]), steps[1..]);
    }
  }

  // As long as no hook has died, every deploy that succeeds serves the process it started.
  lemma NoDeathNoStaleness(steps: seq<Step>)
    requires Path(Initial(), steps) && Die !in steps && SwitchFails !in steps && After(Initial(), steps).hook.Idle?
    ensures EveryDeployServesItsOwn(After(Initial(), steps))
  {
    InitialInv();
    WrittenReads(A);
    TidyRun(Initial(), steps);
    FileReads(After(Initial(), steps));
    FreshIffNothingLeft(After(Initial(), steps));
  }
}
