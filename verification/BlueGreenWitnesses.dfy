/** The two ways a deploy goes wrong do happen: runs from a fresh installation that end in a slot
    with a process left behind, and in a live slot that the hook itself has stopped. */
module BlueGreenWitnesses {
  import opened Outcomes
  import opened ActiveSlot
  import opened BlueGreen
  import opened BlueGreenSafety
  import opened BlueGreenFresh

  // ---------- a hook dies after starting the new instance ----------

  const DEATH := [Spawn] + ([Die] + [])

  lemma DiesEarly(w: World)
    requires At(w, Built)
    ensures Path(w, DEATH)
    ensures var r := After(w, DEATH);
      r.hook.Idle? && r.active == w.active && w.nextPid in r.procs && r.procs[w.nextPid].slot == w.hook.slot
  {
    PathCons(Do(w, Spawn), Die, []);
    PathCons(w, Spawn, [Die] + []);
  }

  // Then its process is left in the slot the next deploy builds into, so that deploy can report
  // success while serving it.
  lemma LeftoverIsReachable() returns (steps: seq<Step>)
    ensures Path(Initial(), steps) && SwitchFails !in steps
    ensures var w := After(Initial(), steps);
      w.hook.Idle? && !NothingLeft(w, Chosen(w.active)) && !EveryDeployServesItsOwn(w)
  {
    Prepare(Initial());
    DiesEarly(Prepared(Initial()));
    PathJoin(Initial(), PREPARATION, DEATH);
    steps := PREPARATION + DEATH;
    assert SwitchFails !in PREPARATION && SwitchFails !in DEATH;
    InitialInv();
    CleanRun(Initial(), steps);
    FreshIffNothingLeft(After(Initial(), steps));
  }

  // ---------- the state file cannot be written ----------

  // A started process that took its port and is named in its slot's pid file.
  predicate Up(w: World, s: Slot, pid: nat) {
    pid in w.procs && w.procs[pid].slot == s && w.listener.Get(s) == Some(pid) && w.pidFile.Get(s) == Names(pid)
  }

  function Answering(pid: nat): seq<Step> {
    [Bind(pid)] + ([Check(true)] + [])
  }

  function Answered(w: World, pid: nat): World
    requires At(w, Checking(0)) && pid in w.procs
  {
    w.(listener := w.listener.Set(w.procs[pid].slot, Some(pid)), hook := w.hook.(stage := Healthy, answered := pid))
  }

  lemma Answers(w: World, pid: nat)
    requires At(w, Checking(0)) && pid in w.procs && w.procs[pid].slot == w.hook.slot && w.listener.Get(w.hook.slot).None?
    ensures Path(w, Answering(pid)) && After(w, Answering(pid)) == Answered(w, pid)
  {
    var w1 := Do(w, Bind(pid));
    PathCons(w1, Check(true), []);
    PathCons(w, Bind(pid), [Check(true)] + []);
  }

  // The new instance started, its pid filed, its port taken and its health check answered.
  lemma Rises(w: World) returns (steps: seq<Step>)
    requires At(w, Built) && w.listener.Get(w.hook.slot).None?
    ensures Path(w, steps) && After(w, steps) == Answered(Launched(w), w.nextPid)
    ensures Switch !in steps && forall p :: Exit(p) !in steps
  {
    Launch(w);
    Answers(Launched(w), w.nextPid);
    steps := JoinPaths(w, LAUNCH, Answering(w.nextPid));
  }

  const LANDING := [WriteTmp] + ([Switch] + ([KillOld] + ([RemoveOld] + [])))

  lemma Lands(w: World, pid: nat)
    requires At(w, Healthy) && w.hook.slot == B && w.hook.answered == pid && Up(w, B, pid) && w.pidFile.a == Absent
    ensures Path(w, LANDING)
    ensures var r := After(w, LANDING);
      && r.hook.Idle? && r.active == Some(Written(B)) && Up(r, B, pid) && r.live == Some(pid)
      && r.listener == w.listener && r.procs == w.procs && r.nextPid == w.nextPid
  {
    var w1 := Do(w, WriteTmp);
    var w2 := Do(w1, Switch);
    var w3 := Do(w2, KillOld);
    PathCons(w3, RemoveOld, []);
    PathCons(w2, KillOld, [RemoveOld] + []);
    PathCons(w1, Switch, [KillOld] + ([RemoveOld] + []));
    PathCons(w, WriteTmp, [Switch] + ([KillOld] + ([RemoveOld] + [])));
  }

  const FAILURE := [SwitchFails] + ([KillOld] + [])

  lemma Fails(w: World, pid: nat)
    requires At(w, Healthy) && w.active == Some(Written(B)) && w.hook.slot == A && Up(w, B, pid)
    ensures Path(w, FAILURE) && !NeverKillsLive(w, FAILURE)
    ensures var r := After(w, FAILURE); r.active == w.active && r.listener.b.None? && r.live == w.live
  {
    WrittenReads(B);
    var failed := Do(w, SwitchFails);
    PathCons(failed, KillOld, []);
    PathCons(w, SwitchFails, [KillOld] + []);
    assert FAILURE[0] == SwitchFails && FAILURE[1..] == [KillOld] + [];
    assert ([KillOld] + [])[0] == KillOld && KillsLive(failed, KillOld);
  }

  lemma {:induction false} JoinPaths(w: World, first: seq<Step>, second: seq<Step>) returns (both: seq<Step>)
    requires Path(w, first) && Path(After(w, first), second)
    ensures Path(w, both) && After(w, both) == After(After(w, first), second)
    ensures !NeverKillsLive(After(w, first), second) ==> !NeverKillsLive(w, both)
    ensures forall step :: step in both <==> step in first || step in second
    decreases |first|
  {
    if first == [] {
      both := second;
    } else {
      var rest := JoinPaths(Do(w, first[0]), first[1..], second);
      both := [first[0]] + rest;
      assert both[1..] == rest && first == [first[0]] + first[1..];
    }
  }

  // A deploy as far as the answered health check of its own process.
  function Checked(w: World): World
    requires w.hook.Idle?
  {
    Answered(Launched(Prepared(w)), w.nextPid)
  }

  lemma Checks(w: World) returns (steps: seq<Step>)
    requires w.hook.Idle? && w.listener.Get(Chosen(w.active)).None?
    ensures Path(w, steps) && After(w, steps) == Checked(w)
    ensures forall p :: Exit(p) !in steps
  {
    Prepare(w);
    var rise := Rises(Prepared(w));
    steps := JoinPaths(w, PREPARATION, rise);
  }

  lemma FirstChecked(w: World)
    requires w == Checked(Initial())
    ensures At(w, Healthy) && w.hook.slot == B && w.hook.answered == 1 && Up(w, B, 1)
    ensures w.pidFile.a == Absent && w.listener.a.None? && w.nextPid == 2
  {
    WrittenReads(A);
  }

  lemma ChecksAndLands(w: World, checked: World, pid: nat) returns (steps: seq<Step>)
    requires w.hook.Idle? && w.listener.Get(Chosen(w.active)).None? && checked == Checked(w)
    requires At(checked, Healthy) && checked.hook.slot == B && checked.hook.answered == pid && Up(checked, B, pid)
    requires checked.pidFile.a == Absent
    ensures Path(checked, LANDING) && Path(w, steps) && After(w, steps) == After(checked, LANDING)
    ensures Switch in steps && forall p :: Exit(p) !in steps
  {
    var up := Checks(w);
    Lands(checked, pid);
    steps := JoinPaths(w, up, LANDING);
  }

  // The first deploy of a fresh installation, all going well.
  lemma FirstDeploy(w: World) returns (steps: seq<Step>, r: World)
    requires w == Initial()
    ensures Path(w, steps) && After(w, steps) == r && Switch in steps && forall p :: Exit(p) !in steps
    ensures r.hook.Idle? && r.active == Some(Written(B)) && Up(r, B, 1) && r.live == Some(1)
    ensures r.listener.a.None? && r.nextPid == 2
  {
    WrittenReads(A);
    var checked := Checked(w);
    FirstChecked(checked);
    Lands(checked, 1);
    r := After(checked, LANDING);
    steps := ChecksAndLands(w, checked, 1);
  }

  // From a running app, every statement of the next deploy carried out but the write of the state
  // file: the hook stops the live slot, and nobody answers for it.
  lemma FailedWriteStopsLive() returns (steps: seq<Step>)
    ensures Path(Initial(), steps) && !NeverKillsLive(Initial(), steps) && !SafeThroughout(Initial(), steps)
    ensures Switch in steps && forall p :: Exit(p) !in steps
    ensures var w := After(Initial(), steps); w.live.Some? && w.listener.Get(Live(w.active)).None?
  {
    WrittenReads(B);
    var first, up := FirstDeploy(Initial());
    var second := Checks(up);
    Fails(Checked(up), 1);
    second := JoinPaths(up, second, FAILURE);
    steps := JoinPaths(Initial(), first, second);
    InitialInv();
    RunIsSafeIff(Initial(), steps);
  }
}
