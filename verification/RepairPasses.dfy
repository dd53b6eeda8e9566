/** Runs of repair and diagnose passes over the whole ledger: no app is restarted twice within the
    cooldown, nor more often in an hour than its policy allows. */
module RepairPasses {
  import opened Outcomes
  import opened RepairLedger

  const INTERVAL := 5 * 60 * 1000
  const MAX_ACTIONS := 3
  const PER_PASS := 6

  datatype Mode = Off | Watch | Mend

  // An app as listed; connect is one that only forwards to another machine.
  datatype App = App(name: string, connect: bool, down: bool, stoppedByOwner: bool)

  datatype Policy = Policy(mode: Mode, maxActionsPerHour: int)

  datatype Attempt = Refused | Threw | Settled(live: bool)

  function Verified(attempt: Attempt): Option<bool> {
    if attempt.Settled? then Some(attempt.live) else None
  }

  // What a pass meets at one app: the clock when it gets there and when the row is written,
  // whether a maintenance window is open, what becomes of a restart, and the random jitter of the
  // wait after a failed one, from 0 to 1.
  datatype Turn = Turn(app: App, inMaintenance: bool, checkAt: int, rowAt: int, attempt: Attempt, jitter: real)

  datatype Pass = Pass(now: int, deployed: set<string>, repairs: seq<Turn>, diagnoses: seq<Turn>)

  // Escalated: the app needs a person.
  datatype Backoff = Backoff(failures: nat, nextAllowedAt: int, escalated: bool)

  const CLEAR := Backoff(0, 0, false)

  datatype World = World(ledger: seq<Row>, backoff: map<string, Backoff>)

  function BackoffOf(w: World, app: string): Backoff {
    if app in w.backoff then w.backoff[app] else CLEAR
  }

  // The wait after so many failures in a row: five minutes, a quarter, one hour, six hours.
  function Schedule(failures: nat): int
    requires failures > 0
  {
    if failures == 1 then 5 * 60 * 1000 else if failures == 2 then 15 * 60 * 1000
    else if failures == 3 then HOUR else 6 * HOUR
  }

  // A tenth more or less, rounded.
  function Wait(failures: nat, jitter: real): int
    requires failures > 0
  {
    (Schedule(failures) as real * (0.9 + jitter * 0.2) + 0.5).Floor
  }

  function Failed(b: Backoff, at: int, jitter: real): Backoff {
    Backoff(b.failures + 1, at + Wait(b.failures + 1, jitter), b.escalated || b.failures + 1 >= 3)
  }

  function Note(w: World, app: string, ok: bool, at: int, jitter: real): World {
    w.(backoff := w.backoff[app := if ok then CLEAR else Failed(BackoffOf(w, app), at, jitter)])
  }

  function Record(w: World, row: Row): World {
    w.(ledger := w.ledger + [row])
  }

  // ---------- one app ----------

  datatype Move = Skip | Hold | Try

  function RepairMove(w: World, t: Turn, policy: Policy, now: int): Move {
    if t.app.connect || !t.app.down then Skip
    else if t.app.stoppedByOwner then Hold
    else if policy.mode != Mend then Skip
    else if t.inMaintenance then Hold
    else if Hourly(w.ledger, t.app.name, now) >= policy.maxActionsPerHour then Hold
    else if BackoffOf(w, t.app.name).nextAllowedAt > now then Hold
    else if CoolingDown(w.ledger, Repair, t.app.name, t.checkAt) then Skip
    else Try
  }

  function Moved(w: World, t: Turn, move: Move): World {
    match move
    case Skip => w
    case Hold => Record(w, Row(t.rowAt, Repair, Held, t.app.name, t.checkAt, None))
    case Try =>
      var noted := if t.attempt.Settled? then Note(w, t.app.name, t.attempt.live, t.rowAt, t.jitter) else w;
      Record(noted, Row(t.rowAt, Repair, Restart, t.app.name, t.checkAt, Verified(t.attempt)))
  }

  function Repaired(w: World, t: Turn, policy: Policy, now: int): World {
    Moved(w, t, RepairMove(w, t, policy, now))
  }

  predicate DiagnoseSkips(w: World, t: Turn, policy: Policy) {
    t.app.connect || !t.app.down || t.app.stoppedByOwner || policy.mode == Off
    || CoolingDown(w.ledger, Diagnose, t.app.name, t.checkAt)
  }

  function Diagnosed(w: World, t: Turn): World {
    Record(w, Row(t.rowAt, Diagnose, Chain, t.app.name, t.checkAt, None))
  }

  // ---------- one pass, with left actions to go ----------

  function RepairTurns(w: World, turns: seq<Turn>, policy: string -> Policy, now: int, left: nat): World
    decreases |turns|
  {
    if turns == [] || left == 0 then w
    else
      var t := turns[0];
      var acted := RepairMove(w, t, policy(t.app.name), now) != Skip;
      RepairTurns(Repaired(w, t, policy(t.app.name), now), turns[1..], policy, now, if acted then left - 1 else left)
  }

  function DiagnoseTurns(w: World, turns: seq<Turn>, policy: string -> Policy, left: nat): World
    decreases |turns|
  {
    if turns == [] then w
    else if DiagnoseSkips(w, turns[0], policy(turns[0].app.name)) then DiagnoseTurns(w, turns[1..], policy, left)
    else if left == 0 then w
    else DiagnoseTurns(Diagnosed(w, turns[0]), turns[1..], policy, left - 1)
  }

  // A deploy forgets its app's backoff.
  function Forget(w: World, deployed: set<string>): World {
    w.(backoff := map app | app in w.backoff && app !in deployed :: w.backoff[app])
  }

  function Tick(w: World, p: Pass, policy: string -> Policy): World {
    DiagnoseTurns(RepairTurns(Forget(w, p.deployed), p.repairs, policy, p.now, MAX_ACTIONS), p.diagnoses, policy, MAX_ACTIONS)
  }

  // ---------- the clock ----------

  // Read in the order of the turns, never running back.
  predicate Clocked(from: int, turns: seq<Turn>) {
    && (forall i | 0 <= i < |turns| :: from <= turns[i].checkAt <= turns[i].rowAt)
    && (forall i, j | 0 <= i < j < |turns| :: turns[i].rowAt <= turns[j].checkAt)
  }

  function End(from: int, turns: seq<Turn>): int {
    if turns == [] then from else turns[|turns| - 1].rowAt
  }

  predicate PassClocked(p: Pass) {
    Clocked(p.now, p.repairs) && Clocked(End(p.now, p.repairs), p.diagnoses)
  }

  function PassEnd(p: Pass): int {
    End(End(p.now, p.repairs), p.diagnoses)
  }

  // ---------- what the ledger keeps ----------

  predicate Took(r: Row) {
    r.agent == Repair && r.action == Restart
  }

  // A restart comes at least the cooldown after every earlier repair row of its app.
  predicate Spaced(rows: seq<Row>) {
    forall i, j | 0 <= i < j < |rows| && Took(rows[j]) && OnKey(rows[i], Repair, rows[j].app) ::
      rows[j].began - rows[i].at >= COOLDOWN
  }

  // At every restart fewer repair rows than the limit lay within the hour before.
  predicate Limited(rows: seq<Row>, policy: string -> Policy) {
    forall j | 0 <= j < |rows| && Took(rows[j]) ::
      Hourly(rows[..j], rows[j].app, rows[j].began) < policy(rows[j].app).maxActionsPerHour
  }

  predicate Timely(rows: seq<Row>) {
    forall r | r in rows :: r.began <= r.at
  }

  predicate Until(rows: seq<Row>, t: int) {
    forall r | r in rows :: r.at <= t
  }

  predicate Good(rows: seq<Row>, policy: string -> Policy) {
    Dated(rows) && Timely(rows) && Spaced(rows) && Limited(rows, policy)
  }

  lemma {:induction false} HourlyLater(rows: seq<Row>, app: string, now: int, later: int)
    requires now <= later
    ensures Hourly(rows, app, later) <= Hourly(rows, app, now)
    decreases |rows|
  {
    if rows != [] {
      HourlyLater(rows[..|rows| - 1], app, now, later);
    }
  }

  lemma AppendKeeps(rows: seq<Row>, r: Row, policy: string -> Policy)
    requires Good(rows, policy) && Until(rows, r.began) && r.began <= r.at
    requires Took(r) ==>
               && (forall o | o in rows && OnKey(o, Repair, r.app) :: r.began - o.at >= COOLDOWN)
               && Hourly(rows, r.app, r.began) < policy(r.app).maxActionsPerHour
    ensures Good(rows + [r], policy) && Until(rows + [r], r.at)
  {
    var all, n := rows + [r], |rows|;
    assert forall i | 0 <= i < n :: all[i] in rows;
    forall j | 0 <= j < |all| && Took(all[j])
      ensures Hourly(all[..j], all[j].app, all[j].began) < policy(all[j].app).maxActionsPerHour
    {
      assert all[..j] == rows[..j];
      assert rows[..n] == rows;
    }
  }

  lemma RepairedKeeps(w: World, t: Turn, policy: string -> Policy, now: int)
    requires Good(w.ledger, policy) && Until(w.ledger, t.checkAt) && now <= t.checkAt <= t.rowAt
    ensures var r := Repaired(w, t, policy(t.app.name), now); Good(r.ledger, policy) && Until(r.ledger, t.rowAt)
  {
    var rows, app, p := w.ledger, t.app.name, policy(t.app.name);
    match RepairMove(w, t, p, now) {
      case Skip =>
      case Hold =>
        AppendKeeps(rows, Row(t.rowAt, Repair, Held, app, t.checkAt, None), policy);
      case Try =>
        NotCooling(rows, Repair, app, t.checkAt);
        HourlyLater(rows, app, now, t.checkAt);
        AppendKeeps(rows, Row(t.rowAt, Repair, Restart, app, t.checkAt, Verified(t.attempt)), policy);
    }
  }

  lemma ClockedForward(from: int, turns: seq<Turn>)
    requires Clocked(from, turns)
    ensures from <= End(from, turns)
  {
  }

  lemma ClockedRest(from: int, turns: seq<Turn>)
    requires Clocked(from, turns) && turns != []
    ensures Clocked(turns[0].rowAt, turns[1..]) && End(turns[0].rowAt, turns[1..]) == End(from, turns)
    ensures turns[0].rowAt <= End(from, turns)
  {
    var rest := turns[1..];
    forall i | 0 <= i < |rest|
      ensures turns[0].rowAt <= rest[i].checkAt <= rest[i].rowAt
    {
      assert rest[i] == turns[i + 1];
    }
    forall i, j | 0 <= i < j < |rest|
      ensures rest[i].rowAt <= rest[j].checkAt
    {
      assert rest[i] == turns[i + 1] && rest[j] == turns[j + 1];
    }
  }

  lemma {:induction false} RepairTurnsKeep(w: World, turns: seq<Turn>, policy: string -> Policy, now: int, from: int, left: nat)
    requires Good(w.ledger, policy) && Until(w.ledger, from) && now <= from && Clocked(from, turns)
    ensures var r := RepairTurns(w, turns, policy, now, left);
      Good(r.ledger, policy) && Until(r.ledger, End(from, turns)) && |w.ledger| <= |r.ledger| <= |w.ledger| + left
    decreases |turns|
  {
    if turns != [] {
      ClockedRest(from, turns);
      if left > 0 {
        var t := turns[0];
        var acted := RepairMove(w, t, policy(t.app.name), now) != Skip;
        RepairedKeeps(w, t, policy, now);
        RepairTurnsKeep(Repaired(w, t, policy(t.app.name), now), turns[1..], policy, now, t.rowAt,
                        if acted then left - 1 else left);
      }
    }
  }

  lemma DiagnosedKeeps(w: World, t: Turn, policy: string -> Policy)
    requires Good(w.ledger, policy) && Until(w.ledger, t.checkAt) && t.checkAt <= t.rowAt
    ensures Good(Diagnosed(w, t).ledger, policy) && Until(Diagnosed(w, t).ledger, t.rowAt)
  {
    AppendKeeps(w.ledger, Row(t.rowAt, Diagnose, Chain, t.app.name, t.checkAt, None), policy);
  }

  lemma UntilLater(rows: seq<Row>, t: int, later: int)
    requires Until(rows, t) && t <= later
    ensures Until(rows, later)
  {
  }

  lemma {:induction false} DiagnoseTurnsKeep(w: World, turns: seq<Turn>, policy: string -> Policy, from: int, left: nat)
    requires Good(w.ledger, policy) && Until(w.ledger, from) && Clocked(from, turns)
    ensures var r := DiagnoseTurns(w, turns, policy, left);
      Good(r.ledger, policy) && Until(r.ledger, End(from, turns)) && |w.ledger| <= |r.ledger| <= |w.ledger| + left
    decreases |turns|
  {
    if turns != [] {
      ClockedRest(from, turns);
      var t := turns[0];
      if DiagnoseSkips(w, t, policy(t.app.name)) {
        UntilLater(w.ledger, from, t.rowAt);
        DiagnoseTurnsKeep(w, turns[1..], policy, t.rowAt, left);
      } else if left > 0 {
        UntilLater(w.ledger, from, t.checkAt);
        DiagnosedKeeps(w, t, policy);
        DiagnoseTurnsKeep(Diagnosed(w, t), turns[1..], policy, t.rowAt, left - 1);
      }
    }
  }

  lemma TickKeeps(w: World, p: Pass, policy: string -> Policy)
    requires Good(w.ledger, policy) && Until(w.ledger, p.now) && PassClocked(p)
    ensures var r := Tick(w, p, policy);
      Good(r.ledger, policy) && Until(r.ledger, PassEnd(p)) && |w.ledger| <= |r.ledger| <= |w.ledger| + PER_PASS
  {
    var start := Forget(w, p.deployed);
    RepairTurnsKeep(start, p.repairs, policy, p.now, p.now, MAX_ACTIONS);
    DiagnoseTurnsKeep(RepairTurns(start, p.repairs, policy, p.now, MAX_ACTIONS), p.diagnoses, policy,
                      End(p.now, p.repairs), MAX_ACTIONS);
  }

  // ---------- three actions ----------

  lemma {:induction false} RepairsUpTo(w: World, turns: seq<Turn>, policy: string -> Policy, now: int, left: nat, enough: nat)
    requires enough >= |turns|
    ensures var r := RepairTurns(w, turns, policy, now, left);
      && |w.ledger| <= |r.ledger| <= |w.ledger| + left
      && (|r.ledger| < |w.ledger| + left ==> r == RepairTurns(w, turns, policy, now, enough))
    decreases |turns|
  {
    if turns != [] && left > 0 {
      var t := turns[0];
      var acted := RepairMove(w, t, policy(t.app.name), now) != Skip;
      RepairsUpTo(Repaired(w, t, policy(t.app.name), now), turns[1..], policy, now, if acted then left - 1 else left,
                  if acted then enough - 1 else enough);
    }
  }

  lemma {:induction false} DiagnosesUpTo(w: World, turns: seq<Turn>, policy: string -> Policy, left: nat, enough: nat)
    requires enough >= |turns|
    ensures var r := DiagnoseTurns(w, turns, policy, left);
      && |w.ledger| <= |r.ledger| <= |w.ledger| + left
      && (|r.ledger| < |w.ledger| + left ==> r == DiagnoseTurns(w, turns, policy, enough))
    decreases |turns|
  {
    if turns != [] {
      if DiagnoseSkips(w, turns[0], policy(turns[0].app.name)) {
        DiagnosesUpTo(w, turns[1..], policy, left, enough);
      } else if left > 0 {
        DiagnosesUpTo(Diagnosed(w, turns[0]), turns[1..], policy, left - 1, enough - 1);
      }
    }
  }

  // A pass writes at most three repair rows and three diagnoses, and fewer only when it has gone
  // through all of its apps.
  lemma ThreeActions(w: World, p: Pass, policy: string -> Policy)
    ensures var start, r := Forget(w, p.deployed), Tick(w, p, policy);
      exists repaired: World ::
        && |w.ledger| <= |repaired.ledger| <= |w.ledger| + 3
        && (|repaired.ledger| < |w.ledger| + 3 ==> repaired == RepairTurns(start, p.repairs, policy, p.now, |p.repairs|))
        && |repaired.ledger| <= |r.ledger| <= |repaired.ledger| + 3
        && (|r.ledger| < |repaired.ledger| + 3 ==> r == DiagnoseTurns(repaired, p.diagnoses, policy, |p.diagnoses|))
  {
    var start := Forget(w, p.deployed);
    var repaired := RepairTurns(start, p.repairs, policy, p.now, MAX_ACTIONS);
    RepairsUpTo(start, p.repairs, policy, p.now, MAX_ACTIONS, |p.repairs|);
    DiagnosesUpTo(repaired, p.diagnoses, policy, MAX_ACTIONS, |p.diagnoses|);
  }

  // ---------- runs ----------

  // Passes do not overlap.
  predicate InTurn(passes: seq<Pass>) {
    && (forall p | p in passes :: PassClocked(p))
    && (forall i | 0 <= i < |passes| - 1 :: PassEnd(passes[i]) <= passes[i + 1].now)
  }

  function Run(passes: seq<Pass>, policy: string -> Policy): World
    decreases |passes|
  {
    if passes == [] then World([], map[])
    else Tick(Run(passes[..|passes| - 1], policy), passes[|passes| - 1], policy)
  }

  lemma {:induction false} RunKeeps(passes: seq<Pass>, policy: string -> Policy)
    requires InTurn(passes)
    ensures var rows := Run(passes, policy).ledger;
      Good(rows, policy) && (passes != [] ==> Until(rows, PassEnd(passes[|passes| - 1])))
    decreases |passes|
  {
    if passes != [] {
      var n := |passes| - 1;
      var front := passes[..n];
      forall i | 0 <= i < |front| - 1
        ensures PassEnd(front[i]) <= front[i + 1].now
      {
        assert PassEnd(passes[i]) <= passes[i + 1].now;
      }
      RunKeeps(front, policy);
      assert n > 0 ==> PassEnd(passes[n - 1]) <= passes[n - 1 + 1].now;
      TickKeeps(Run(front, policy), passes[n], policy);
    }
  }

  // Two restarts of one app are at least the cooldown apart, by when they were begun.
  lemma RestartsAreApart(passes: seq<Pass>, policy: string -> Policy)
    requires InTurn(passes)
    ensures var rows := Run(passes, policy).ledger;
      forall i, j | 0 <= i < j < |rows| && Took(rows[i]) && Took(rows[j]) && rows[i].app == rows[j].app ::
        rows[j].began - rows[i].began >= 30 * 60 * 1000
  {
    RunKeeps(passes, policy);
    var rows := Run(passes, policy).ledger;
    forall i, j | 0 <= i < j < |rows| && Took(rows[i]) && Took(rows[j]) && rows[i].app == rows[j].app
      ensures rows[j].began - rows[i].began >= COOLDOWN
    {
      assert rows[i] in rows && OnKey(rows[i], Repair, rows[j].app);
    }
  }

  lemma GoodPrefix(rows: seq<Row>, policy: string -> Policy)
    requires Good(rows, policy) && rows != []
    ensures Good(rows[..|rows| - 1], policy)
  {
    var n := |rows| - 1;
    var front := rows[..n];
    assert forall r | r in front :: r in rows;
    forall j | 0 <= j < n && Took(front[j])
      ensures Hourly(front[..j], front[j].app, front[j].began) < policy(front[j].app).maxActionsPerHour
    {
      assert front[..j] == rows[..j];
    }
  }

  lemma {:induction false} HoursAreLimited(rows: seq<Row>, policy: string -> Policy, app: string, from: int, to: int)
    requires Good(rows, policy) && to - from <= HOUR
    ensures Restarts(rows, app, from, to) == 0 || Restarts(rows, app, from, to) <= policy(app).maxActionsPerHour
    decreases |rows|
  {
    if rows != [] {
      var n := |rows| - 1;
      var front, r := rows[..n], rows[n];
      GoodPrefix(rows, policy);
      if r.action == Restart && OnKey(r, Repair, app) && from <= r.began <= to {
        assert forall o | o in front :: o in rows;
        RestartsAreCounted(front, app, from, to, r.began);
      } else {
        HoursAreLimited(front, policy, app, from, to);
      }
    }
  }

  // In no hour is an app restarted more often than its policy allows.
  lemma NeverOverTheLimit(passes: seq<Pass>, policy: string -> Policy, app: string, from: int, to: int)
    requires InTurn(passes) && to - from <= 60 * 60 * 1000
    ensures var k := Restarts(Run(passes, policy).ledger, app, from, to); k == 0 || k <= policy(app).maxActionsPerHour
  {
    RunKeeps(passes, policy);
    HoursAreLimited(Run(passes, policy).ledger, policy, app, from, to);
  }

  // What is restarted: an app that is down, not only forwarding and not stopped by its owner, whose
  // policy allows repairs and has room left this hour, outside maintenance and past its backoff,
  // with no repair row of any kind within the cooldown.
  lemma TriesIff(w: World, t: Turn, policy: Policy, now: int)
    requires Dated(w.ledger)
    ensures RepairMove(w, t, policy, now) == Try <==>
            && t.app.down && !t.app.connect && !t.app.stoppedByOwner
            && policy.mode == Mend && !t.inMaintenance
            && |RowsInHour(w.ledger, t.app.name, now)| < policy.maxActionsPerHour
            && BackoffOf(w, t.app.name).nextAllowedAt <= now
            && (forall r | r in w.ledger && OnKey(r, Repair, t.app.name) :: t.checkAt - r.at >= COOLDOWN)
  {
    HourlyCounts(w.ledger, t.app.name, now);
    CoolingIff(w.ledger, Repair, t.app.name, t.checkAt);
  }

  // What is only written down: an app that is down and that its owner stopped, or that may be
  // repaired but for maintenance, the limit or its backoff.
  lemma HoldsIff(w: World, t: Turn, policy: Policy, now: int)
    ensures RepairMove(w, t, policy, now) == Hold <==>
            && t.app.down && !t.app.connect
            && (t.app.stoppedByOwner
                || (policy.mode == Mend
                    && (t.inMaintenance || |RowsInHour(w.ledger, t.app.name, now)| >= policy.maxActionsPerHour
                        || BackoffOf(w, t.app.name).nextAllowedAt > now)))
  {
    HourlyCounts(w.ledger, t.app.name, now);
  }

  // What is diagnosed: an app that is down, not only forwarding, not stopped by its owner and not
  // switched off, with no diagnosis within the cooldown.
  lemma DiagnosesIff(w: World, t: Turn, policy: Policy)
    requires Dated(w.ledger)
    ensures !DiagnoseSkips(w, t, policy) <==>
            && t.app.down && !t.app.connect && !t.app.stoppedByOwner && policy.mode != Off
            && (forall r | r in w.ledger && OnKey(r, Diagnose, t.app.name) :: t.checkAt - r.at >= COOLDOWN)
  {
    CoolingIff(w.ledger, Diagnose, t.app.name, t.checkAt);
  }

  lemma CoolingIff(rows: seq<Row>, agent: Agent, app: string, t: int)
    requires Dated(rows)
    ensures !CoolingDown(rows, agent, app, t) <==> forall r | r in rows && OnKey(r, agent, app) :: t - r.at >= COOLDOWN
  {
    if CoolingDown(rows, agent, app, t) {
      LastForIsARow(rows, agent, app);
    } else {
      NotCooling(rows, agent, app, t);
    }
  }

  // ---------- every row has its turn ----------

  // The row a repair turn can leave: of an app that is down; a restart only where it is allowed,
  // with how it came out.
  predicate RepairRowOf(row: Row, t: Turn, policy: Policy) {
    && row.agent == Repair && row.app == t.app.name && row.began == t.checkAt && row.at == t.rowAt
    && t.app.down && !t.app.connect
    && (row.action == Held ==> row.verified.None?)
    && (row.action == Restart ==>
          && !t.app.stoppedByOwner && !t.inMaintenance && policy.mode == Mend
          && row.verified == match t.attempt { case Settled(live) => Some(live) case _ => None })
    && row.action != Chain
  }

  predicate DiagnoseRowOf(row: Row, t: Turn, policy: Policy) {
    && row.agent == Diagnose && row.action == Chain && row.app == t.app.name && row.began == t.checkAt && row.at == t.rowAt
    && row.verified.None? && t.app.down && !t.app.connect && !t.app.stoppedByOwner && policy.mode != Off
  }

  predicate HasTurn(row: Row, p: Pass, policy: string -> Policy) {
    || (exists t | t in p.repairs :: RepairRowOf(row, t, policy(t.app.name)))
    || (exists t | t in p.diagnoses :: DiagnoseRowOf(row, t, policy(t.app.name)))
  }

  // What was there before is kept, and every row after it has its turn in this pass.
  predicate Adds(before: seq<Row>, after: seq<Row>, p: Pass, policy: string -> Policy) {
    before <= after && forall i | |before| <= i < |after| :: HasTurn(after[i], p, policy)
  }

  lemma {:induction false} RepairTurnsAdd(w: World, turns: seq<Turn>, policy: string -> Policy, now: int, left: nat, p: Pass)
    requires forall t | t in turns :: t in p.repairs
    ensures Adds(w.ledger, RepairTurns(w, turns, policy, now, left).ledger, p, policy)
    decreases |turns|
  {
    if turns != [] && left > 0 {
      var t := turns[0];
      var r := Repaired(w, t, policy(t.app.name), now);
      var acted := RepairMove(w, t, policy(t.app.name), now) != Skip;
      assert t in p.repairs && forall u | u in turns[1..] :: u in turns;
      assert |r.ledger| > |w.ledger| ==> RepairRowOf(r.ledger[|w.ledger|], t, policy(t.app.name));
      RepairTurnsAdd(r, turns[1..], policy, now, if acted then left - 1 else left, p);
    }
  }

  lemma {:induction false} DiagnoseTurnsAdd(w: World, turns: seq<Turn>, policy: string -> Policy, left: nat, p: Pass)
    requires forall t | t in turns :: t in p.diagnoses
    ensures Adds(w.ledger, DiagnoseTurns(w, turns, policy, left).ledger, p, policy)
    decreases |turns|
  {
    if turns != [] {
      var t := turns[0];
      assert t in p.diagnoses && forall u | u in turns[1..] :: u in turns;
      if DiagnoseSkips(w, t, policy(t.app.name)) {
        DiagnoseTurnsAdd(w, turns[1..], policy, left, p);
      } else if left > 0 {
        var r := Diagnosed(w, t);
        assert DiagnoseRowOf(r.ledger[|w.ledger|], t, policy(t.app.name));
        DiagnoseTurnsAdd(r, turns[1..], policy, left - 1, p);
      }
    }
  }

  lemma PassAdds(w: World, p: Pass, policy: string -> Policy)
    ensures Adds(w.ledger, Tick(w, p, policy).ledger, p, policy)
  {
    var start := Forget(w, p.deployed);
    RepairTurnsAdd(start, p.repairs, policy, p.now, MAX_ACTIONS, p);
    DiagnoseTurnsAdd(RepairTurns(start, p.repairs, policy, p.now, MAX_ACTIONS), p.diagnoses, policy, MAX_ACTIONS, p);
  }

  // Over any run: nothing is written about an app that was not down, none is restarted that its
  // owner stopped, that is in maintenance or that its policy leaves alone, and each restart has
  // its outcome beside it.
  lemma {:induction false} EveryRowHasItsTurn(passes: seq<Pass>, policy: string -> Policy)
    ensures forall row | row in Run(passes, policy).ledger :: exists p | p in passes :: HasTurn(row, p, policy)
    decreases |passes|
  {
    if passes != [] {
      var k := |passes| - 1;
      var before, after := Run(passes[..k], policy).ledger, Run(passes, policy).ledger;
      EveryRowHasItsTurn(passes[..k], policy);
      PassAdds(Run(passes[..k], policy), passes[k], policy);
      forall row | row in after ensures exists p | p in passes :: HasTurn(row, p, policy) {
        var i :| 0 <= i < |after| && after[i] == row;
        if i < |before| {
          assert before[i] in before;
          var p :| p in passes[..k] && HasTurn(row, p, policy);
          assert p in passes;
        } else {
          assert passes[k] in passes && HasTurn(row, passes[k], policy);
        }
      }
    }
  }
}
