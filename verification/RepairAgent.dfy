/** The agents as they run: reading only the end of a ledger file that is cut when it grows, they
    decide at every step as if they had read all of it. */
module RepairAgent {
  import opened Outcomes
  import opened RepairLedger
  import opened RepairPasses

  // ---------- how fast the ledger ages ----------

  const WINDOW := 13

  // Rows m passes back or more are at least m intervals old.
  predicate AgedBy(rows: seq<Row>, base: nat, start: int, m: nat) {
    forall k: nat | k < |rows| && k + PER_PASS * m < base :: rows[k].at + INTERVAL * m <= start
  }

  // base rows were there when the pass began.
  predicate Aged(rows: seq<Row>, base: nat, start: int) {
    base <= |rows| <= base + PER_PASS && forall m: nat | m <= WINDOW :: AgedBy(rows, base, start, m)
  }

  lemma NextPassAges(rows: seq<Row>, base: nat, start: int, next: int)
    requires Aged(rows, base, start) && Until(rows, next) && next >= start + INTERVAL
    ensures Aged(rows, |rows|, next)
  {
    forall m: nat | m <= WINDOW
      ensures AgedBy(rows, |rows|, next, m)
    {
      assert m > 0 ==> AgedBy(rows, base, start, m - 1);
      assert forall k: nat | k < |rows| :: rows[k] in rows;
    }
  }

  lemma GrowthAges(rows: seq<Row>, more: seq<Row>, base: nat, start: int)
    requires Aged(rows, base, start) && |rows| <= |more| <= base + PER_PASS && more[..|rows|] == rows
    ensures Aged(more, base, start)
  {
    forall m: nat | m <= WINDOW
      ensures AgedBy(more, base, start, m)
    {
      assert AgedBy(rows, base, start, m);
      assert forall k: nat | k < base :: more[k] == rows[k];
    }
  }

  lemma OldIsOverAnHour(rows: seq<Row>, base: nat, start: int, t: int)
    requires Aged(rows, base, start) && t >= start && |rows| > READ_ROWS
    ensures AllBefore(rows[..|rows| - READ_ROWS], t - HOUR)
  {
    assert AgedBy(rows, base, start, WINDOW);
  }

  // The world as one sees it who reads only the end of the ledger.
  function Tail(w: World): World {
    w.(ledger := LastRows(w.ledger, READ_ROWS))
  }

  // It is the end of the ledger, 400 rows unless there are fewer.
  lemma TailIs(w: World)
    ensures var rows := Tail(w).ledger;
      && |rows| == (if |w.ledger| < 400 then |w.ledger| else 400)
      && exists front :: w.ledger == front + rows
  {
    var rows := Tail(w).ledger;
    assert w.ledger == w.ledger[..|w.ledger| - |rows|] + rows;
  }

  // Within a pass every decision is the one the whole ledger would give.
  lemma TailDecides(w: World, base: nat, start: int, t: Turn, policy: Policy)
    requires Aged(w.ledger, base, start) && start <= t.checkAt
    ensures RepairMove(Tail(w), t, policy, start) == RepairMove(w, t, policy, start)
    ensures DiagnoseSkips(Tail(w), t, policy) <==> DiagnoseSkips(w, t, policy)
  {
    if |w.ledger| > READ_ROWS {
      OldIsOverAnHour(w.ledger, base, start, start);
      OldIsOverAnHour(w.ledger, base, start, t.checkAt);
    }
    TailIsEnough(w.ledger, READ_ROWS, Repair, t.app.name, start);
    TailIsEnough(w.ledger, READ_ROWS, Repair, t.app.name, t.checkAt);
    TailIsEnough(w.ledger, READ_ROWS, Diagnose, t.app.name, t.checkAt);
  }

  // ---------- whole runs, reading only the end ----------

  function TailRepairs(w: World, turns: seq<Turn>, policy: string -> Policy, now: int, left: nat): World
    decreases |turns|
  {
    if turns == [] || left == 0 then w
    else
      var t := turns[0];
      var move := RepairMove(Tail(w), t, policy(t.app.name), now);
      TailRepairs(Moved(w, t, move), turns[1..], policy, now, if move != Skip then left - 1 else left)
  }

  function TailDiagnoses(w: World, turns: seq<Turn>, policy: string -> Policy, left: nat): World
    decreases |turns|
  {
    if turns == [] then w
    else if DiagnoseSkips(Tail(w), turns[0], policy(turns[0].app.name)) then TailDiagnoses(w, turns[1..], policy, left)
    else if left == 0 then w
    else TailDiagnoses(Diagnosed(w, turns[0]), turns[1..], policy, left - 1)
  }

  function TailTick(w: World, p: Pass, policy: string -> Policy): World {
    TailDiagnoses(TailRepairs(Forget(w, p.deployed), p.repairs, policy, p.now, MAX_ACTIONS), p.diagnoses, policy, MAX_ACTIONS)
  }

  lemma OneMoreRow(w: World, more: World, base: nat, start: int)
    requires Aged(w.ledger, base, start) && |more.ledger| <= base + PER_PASS
    requires more.ledger == w.ledger || exists r :: more.ledger == w.ledger + [r]
    ensures Aged(more.ledger, base, start)
  {
    GrowthAges(w.ledger, more.ledger, base, start);
  }

  lemma MovedGrows(w: World, t: Turn, move: Move)
    ensures move == Skip ==> Moved(w, t, move) == w
    ensures move != Skip ==> exists r :: Moved(w, t, move).ledger == w.ledger + [r]
  {
    var at, app := t.rowAt, t.app.name;
    assert move == Hold ==> Moved(w, t, move).ledger == w.ledger + [Row(at, Repair, Held, app, t.checkAt, None)];
    assert move == Try ==> Moved(w, t, move).ledger == w.ledger + [Row(at, Repair, Restart, app, t.checkAt, Verified(t.attempt))];
  }

  lemma {:induction false} TailRepairsSame(w: World, turns: seq<Turn>, policy: string -> Policy,
                                           base: nat, start: int, from: int, left: nat)
    requires Aged(w.ledger, base, start) && start <= from && Clocked(from, turns) && |w.ledger| + left <= base + MAX_ACTIONS
    ensures var r := RepairTurns(w, turns, policy, start, left);
      && TailRepairs(w, turns, policy, start, left) == r
      && Aged(r.ledger, base, start) && |r.ledger| <= base + MAX_ACTIONS
    decreases |turns|
  {
    if turns != [] && left > 0 {
      var t := turns[0];
      var move := RepairMove(w, t, policy(t.app.name), start);
      TailDecides(w, base, start, t, policy(t.app.name));
      ClockedRest(from, turns);
      MovedGrows(w, t, move);
      OneMoreRow(w, Moved(w, t, move), base, start);
      TailRepairsSame(Moved(w, t, move), turns[1..], policy, base, start, t.rowAt, if move != Skip then left - 1 else left);
    }
  }

  lemma {:induction false} TailDiagnosesSame(w: World, turns: seq<Turn>, policy: string -> Policy,
                                             base: nat, start: int, from: int, left: nat)
    requires Aged(w.ledger, base, start) && start <= from && Clocked(from, turns) && |w.ledger| + left <= base + PER_PASS
    ensures var r := DiagnoseTurns(w, turns, policy, left);
      && TailDiagnoses(w, turns, policy, left) == r
      && Aged(r.ledger, base, start)
    decreases |turns|
  {
    if turns != [] {
      var t := turns[0];
      TailDecides(w, base, start, t, policy(t.app.name));
      ClockedRest(from, turns);
      if DiagnoseSkips(w, t, policy(t.app.name)) {
        TailDiagnosesSame(w, turns[1..], policy, base, start, t.rowAt, left);
      } else if left > 0 {
        OneMoreRow(w, Diagnosed(w, t), base, start);
        TailDiagnosesSame(Diagnosed(w, t), turns[1..], policy, base, start, t.rowAt, left - 1);
      }
    }
  }

  // A pass that reads only the end of the ledger does what one that reads all of it would do.
  lemma TailTickSame(w: World, p: Pass, policy: string -> Policy)
    requires Aged(w.ledger, |w.ledger|, p.now) && PassClocked(p)
    ensures TailTick(w, p, policy) == Tick(w, p, policy)
    ensures Aged(Tick(w, p, policy).ledger, |w.ledger|, p.now)
  {
    var start, base := Forget(w, p.deployed), |w.ledger|;
    TailRepairsSame(start, p.repairs, policy, base, p.now, p.now, MAX_ACTIONS);
    ClockedForward(p.now, p.repairs);
    TailDiagnosesSame(RepairTurns(start, p.repairs, policy, p.now, MAX_ACTIONS), p.diagnoses, policy, base, p.now,
                      End(p.now, p.repairs), MAX_ACTIONS);
  }

  function TailRun(passes: seq<Pass>, policy: string -> Policy): World
    decreases |passes|
  {
    if passes == [] then World([], map[])
    else TailTick(TailRun(passes[..|passes| - 1], policy), passes[|passes| - 1], policy)
  }

  predicate FiveMinutesApart(passes: seq<Pass>) {
    forall i | 0 <= i < |passes| - 1 :: passes[i].now + 300000 <= passes[i + 1].now
  }

  lemma FrontPasses(passes: seq<Pass>)
    requires passes != [] && InTurn(passes) && FiveMinutesApart(passes)
    ensures InTurn(passes[..|passes| - 1]) && FiveMinutesApart(passes[..|passes| - 1])
  {
    var front := passes[..|passes| - 1];
    forall i | 0 <= i < |front| - 1
      ensures PassEnd(front[i]) <= front[i + 1].now && front[i].now + INTERVAL <= front[i + 1].now
    {
      assert PassEnd(passes[i]) <= passes[i + 1].now && passes[i].now + INTERVAL <= passes[i + 1].now;
    }
  }

  predicate AgedAt(rows: seq<Row>, start: int) {
    exists base: nat | base <= |rows| :: Aged(rows, base, start)
  }

  // Over any run of passes five minutes apart, reading 400 rows is as good as reading them all.
  lemma {:induction false} ReadingTheEndIsEnough(passes: seq<Pass>, policy: string -> Policy)
    requires InTurn(passes) && FiveMinutesApart(passes)
    ensures TailRun(passes, policy) == Run(passes, policy)
    ensures passes != [] ==> AgedAt(Run(passes, policy).ledger, passes[|passes| - 1].now)
    decreases |passes|
  {
    if passes != [] {
      var n := |passes| - 1;
      var w, p := Run(passes[..n], policy), passes[n];
      FrontPasses(passes);
      ReadingTheEndIsEnough(passes[..n], policy);
      RunKeeps(passes[..n], policy);
      if n > 0 {
        var base: nat :| base <= |w.ledger| && Aged(w.ledger, base, passes[..n][n - 1].now);
        assert passes[n - 1].now + INTERVAL <= passes[n - 1 + 1].now && PassEnd(passes[n - 1]) <= passes[n - 1 + 1].now;
        NextPassAges(w.ledger, base, passes[n - 1].now, p.now);
      }
      TailTickSame(w, p, policy);
    }
  }

  // So the agents, reading 400 rows, restart no app twice within the cooldown nor more often in
  // an hour than its policy allows.
  lemma AgentsKeepTheirLimits(passes: seq<Pass>, policy: string -> Policy, app: string, from: int, to: int)
    requires InTurn(passes) && FiveMinutesApart(passes) && to - from <= HOUR
    ensures var rows := TailRun(passes, policy).ledger;
      && Spaced(rows)
      && (Restarts(rows, app, from, to) == 0 || Restarts(rows, app, from, to) <= policy(app).maxActionsPerHour)
  {
    ReadingTheEndIsEnough(passes, policy);
    RunKeeps(passes, policy);
    NeverOverTheLimit(passes, policy, app, from, to);
  }
}
