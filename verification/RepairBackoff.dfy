/** What the outcomes of restarts do to an app's backoff, and what the backoff does to its restarts. */
module RepairBackoff {
  import opened Outcomes
  import opened RepairLedger
  import opened RepairPasses

  // ---------- an app that is up keeps its backoff ----------

  predicate SeenUp(turns: seq<Turn>, app: string) {
    forall t | t in turns && t.app.name == app :: !t.app.down
  }

  lemma {:induction false} UpAppsAreSkipped(w: World, turns: seq<Turn>, policy: string -> Policy, now: int, left: nat,
                                            app: string)
    requires SeenUp(turns, app)
    ensures BackoffOf(RepairTurns(w, turns, policy, now, left), app) == BackoffOf(w, app)
    decreases |turns|
  {
    if turns != [] && left > 0 {
      var t := turns[0];
      var acted := RepairMove(w, t, policy(t.app.name), now) != Skip;
      assert t in turns && forall u | u in turns[1..] :: u in turns;
      UpAppsAreSkipped(Repaired(w, t, policy(t.app.name), now), turns[1..], policy, now, if acted then left - 1 else left, app);
    }
  }

  lemma {:induction false} DiagnosingKeepsBackoff(w: World, turns: seq<Turn>, policy: string -> Policy, left: nat)
    ensures DiagnoseTurns(w, turns, policy, left).backoff == w.backoff
    decreases |turns|
  {
    if turns != [] {
      if DiagnoseSkips(w, turns[0], policy(turns[0].app.name)) {
        DiagnosingKeepsBackoff(w, turns[1..], policy, left);
      } else if left > 0 {
        DiagnosingKeepsBackoff(Diagnosed(w, turns[0]), turns[1..], policy, left - 1);
      }
    }
  }

  // A pass that finds an app up clears the backoff it has earned exactly when the app was deployed
  // since: however long the app has been up, and whatever the clock says, is not looked at.
  lemma OnlyDeploysClear(w: World, p: Pass, policy: string -> Policy, app: string)
    requires BackoffOf(w, app) != CLEAR && SeenUp(p.repairs, app)
    ensures BackoffOf(Tick(w, p, policy), app) == CLEAR <==> app in p.deployed
  {
    var start := Forget(w, p.deployed);
    UpAppsAreSkipped(start, p.repairs, policy, p.now, MAX_ACTIONS, app);
    DiagnosingKeepsBackoff(RepairTurns(start, p.repairs, policy, p.now, MAX_ACTIONS), p.diagnoses, policy, MAX_ACTIONS);
  }

  // ---------- what an app's turn teaches ----------

  // Minutes to wait after so many failures in a row.
  const WAITS: seq<int> := [5, 15, 60, 360]

  function Minutes(failures: nat): int
    requires failures > 0
  {
    WAITS[if failures <= 4 then failures - 1 else 3]
  }

  // A tenth more or less than those minutes after the row was written.
  predicate WaitsFrom(at: int, until: int, failures: nat)
    requires failures > 0
  {
    54000 * Minutes(failures) <= until - at <= 66000 * Minutes(failures)
  }

  // To the millisecond: from nine tenths on, two tenths more in proportion to the jitter.
  predicate JitteredWait(at: int, until: int, failures: nat, jitter: real)
    requires failures > 0
  {
    var exact := Minutes(failures) as real * (54000.0 + 12000.0 * jitter);
    -1.0 <= 2.0 * ((until - at) as real - exact) <= 1.0
  }

  // A restart that was found dead counts as one more failure and puts off the next; one found alive
  // wipes the slate; one that was refused or threw is not counted.
  predicate Learned(was: Backoff, b: Backoff, t: Turn) {
    match t.attempt
    case Settled(false) =>
      && b.failures == was.failures + 1 && WaitsFrom(t.rowAt, b.nextAllowedAt, b.failures)
      && JitteredWait(t.rowAt, b.nextAllowedAt, b.failures, t.jitter)
      && (b.escalated <==> was.escalated || b.failures >= 3)
    case Settled(true) => b.failures == 0 && b.nextAllowedAt == 0 && !b.escalated
    case Refused => b == was
    case Threw => b == was
  }

  predicate Jittered(t: Turn) {
    0.0 <= t.jitter <= 1.0
  }

  lemma TurnLearns(w: World, t: Turn, policy: Policy, now: int)
    requires Jittered(t)
    ensures var r := Repaired(w, t, policy, now);
      && (forall app | app != t.app.name :: BackoffOf(r, app) == BackoffOf(w, app))
      && if RepairMove(w, t, policy, now) == Try then Learned(BackoffOf(w, t.app.name), BackoffOf(r, t.app.name), t)
         else r.backoff == w.backoff
  {
    WaitIsLong(BackoffOf(w, t.app.name).failures + 1, t.jitter);
  }

  // The world when a pass gets to turn i, and how many actions it has left.
  function Reached(w: World, turns: seq<Turn>, policy: string -> Policy, now: int, left: nat, i: nat): (World, nat)
    requires i <= |turns|
    decreases i
  {
    if i == 0 || left == 0 then (w, left)
    else
      var t := turns[0];
      var acted := RepairMove(w, t, policy(t.app.name), now) != Skip;
      Reached(Repaired(w, t, policy(t.app.name), now), turns[1..], policy, now, if acted then left - 1 else left, i - 1)
  }

  predicate OnlyTurn(turns: seq<Turn>, i: nat)
    requires i < |turns|
  {
    forall j | 0 <= j < |turns| && j != i :: turns[j].app.name != turns[i].app.name
  }

  predicate NotNamed(turns: seq<Turn>, app: string) {
    forall t | t in turns :: t.app.name != app
  }

  lemma {:induction false} OthersLearnNothing(w: World, turns: seq<Turn>, policy: string -> Policy, now: int, left: nat,
                                              app: string)
    requires NotNamed(turns, app)
    ensures BackoffOf(RepairTurns(w, turns, policy, now, left), app) == BackoffOf(w, app)
    decreases |turns|
  {
    if turns != [] && left > 0 {
      var t := turns[0];
      var acted := RepairMove(w, t, policy(t.app.name), now) != Skip;
      assert t in turns && forall u | u in turns[1..] :: u in turns;
      OthersLearnNothing(Repaired(w, t, policy(t.app.name), now), turns[1..], policy, now,
                         if acted then left - 1 else left, app);
    }
  }

  lemma {:induction false} TurnsLearn(w: World, turns: seq<Turn>, policy: string -> Policy, now: int, left: nat, i: nat)
    requires i < |turns| && OnlyTurn(turns, i) && Jittered(turns[i])
    ensures var t, app := turns[i], turns[i].app.name;
      var (v, remaining) := Reached(w, turns, policy, now, left, i);
      var b := BackoffOf(RepairTurns(w, turns, policy, now, left), app);
      && BackoffOf(v, app) == BackoffOf(w, app)
      && if remaining > 0 && RepairMove(v, t, policy(app), now) == Try then Learned(BackoffOf(w, app), b, t)
         else b == BackoffOf(w, app)
    decreases i
  {
    var t := turns[0];
    var r := Repaired(w, t, policy(t.app.name), now);
    var remaining := if RepairMove(w, t, policy(t.app.name), now) != Skip && left > 0 then left - 1 else left;
    if left > 0 {
      if i == 0 {
        TurnLearns(w, t, policy(t.app.name), now);
        assert NotNamed(turns[1..], t.app.name);
        OthersLearnNothing(r, turns[1..], policy, now, remaining, t.app.name);
      } else {
        assert turns[1..][i - 1] == turns[i] && OnlyTurn(turns[1..], i - 1);
        assert BackoffOf(r, turns[i].app.name) == BackoffOf(w, turns[i].app.name);
        TurnsLearn(r, turns[1..], policy, now, remaining, i - 1);
      }
    }
  }

  // Whether the pass gets to this turn with an action left and restarts the app.
  predicate RestartsAt(w: World, p: Pass, policy: string -> Policy, i: nat)
    requires i < |p.repairs|
  {
    var (v, left) := Reached(Forget(w, p.deployed), p.repairs, policy, p.now, MAX_ACTIONS, i);
    left > 0 && RepairMove(v, p.repairs[i], policy(p.repairs[i].app.name), p.now) == Try
  }

  // Over a whole pass, by the turn of the app: a deploy forgets what was known, a restart teaches
  // its outcome, and nothing else changes anything.
  lemma PassLearns(w: World, p: Pass, policy: string -> Policy, i: nat)
    requires i < |p.repairs| && OnlyTurn(p.repairs, i) && Jittered(p.repairs[i])
    ensures var app := p.repairs[i].app.name;
      var was := if app in p.deployed then Backoff(0, 0, false) else BackoffOf(w, app);
      var b := BackoffOf(Tick(w, p, policy), app);
      if RestartsAt(w, p, policy, i) then Learned(was, b, p.repairs[i]) else b == was
  {
    var start := Forget(w, p.deployed);
    TurnsLearn(start, p.repairs, policy, p.now, MAX_ACTIONS, i);
    DiagnosingKeepsBackoff(RepairTurns(start, p.repairs, policy, p.now, MAX_ACTIONS), p.diagnoses, policy, MAX_ACTIONS);
  }

  // ---------- the backoff is read off the ledger ----------

  // The restarts of the app found dead since its last one found alive.
  function Streak(rows: seq<Row>, app: string): nat
    decreases |rows|
  {
    if rows == [] then 0
    else
      var r, before := rows[|rows| - 1], rows[..|rows| - 1];
      if !OnKey(r, Repair, app) || r.verified.None? then Streak(before, app)
      else if r.verified.value then 0 else Streak(before, app) + 1
  }

  // When the latest of them was written.
  function LastMiss(rows: seq<Row>, app: string): int
    decreases |rows|
  {
    if rows == [] then 0
    else
      var r := rows[|rows| - 1];
      if OnKey(r, Repair, app) && r.verified == Some(false) then r.at else LastMiss(rows[..|rows| - 1], app)
  }

  // The backoff is what these rows say; three failures in a row ask for a person.
  predicate Tells(rows: seq<Row>, b: Backoff, app: string) {
    var failures := Streak(rows, app);
    && b.failures == failures && (b.escalated <==> failures >= 3)
    && if failures == 0 then b.nextAllowedAt == 0 else WaitsFrom(LastMiss(rows, app), b.nextAllowedAt, failures)
  }

  lemma RowTells(rows: seq<Row>, row: Row, app: string)
    ensures Streak(rows + [row], app) ==
            if !OnKey(row, Repair, app) || row.verified.None? then Streak(rows, app)
            else if row.verified.value then 0 else Streak(rows, app) + 1
    ensures LastMiss(rows + [row], app) ==
            if OnKey(row, Repair, app) && row.verified == Some(false) then row.at else LastMiss(rows, app)
  {
    assert (rows + [row])[..|rows|] == rows;
  }

  lemma TurnTells(w: World, t: Turn, policy: Policy, now: int, app: string, since: nat)
    requires since <= |w.ledger| && Tells(w.ledger[since..], BackoffOf(w, app), app) && Jittered(t)
    ensures var r := Repaired(w, t, policy, now);
      since <= |r.ledger| && Tells(r.ledger[since..], BackoffOf(r, app), app)
  {
    var r := Repaired(w, t, policy, now);
    TurnLearns(w, t, policy, now);
    if |r.ledger| > |w.ledger| {
      var row := r.ledger[|w.ledger|];
      assert r.ledger[since..] == w.ledger[since..] + [row];
      RowTells(w.ledger[since..], row, app);
    }
  }

  lemma {:induction false} RepairTurnsTell(w: World, turns: seq<Turn>, policy: string -> Policy, now: int, left: nat,
                                           app: string, since: nat)
    requires since <= |w.ledger| && Tells(w.ledger[since..], BackoffOf(w, app), app)
    requires forall t | t in turns :: Jittered(t)
    ensures var r := RepairTurns(w, turns, policy, now, left);
      since <= |r.ledger| && Tells(r.ledger[since..], BackoffOf(r, app), app)
    decreases |turns|
  {
    if turns != [] && left > 0 {
      var t := turns[0];
      var acted := RepairMove(w, t, policy(t.app.name), now) != Skip;
      assert t in turns && forall u | u in turns[1..] :: u in turns;
      TurnTells(w, t, policy(t.app.name), now, app, since);
      RepairTurnsTell(Repaired(w, t, policy(t.app.name), now), turns[1..], policy, now,
                      if acted then left - 1 else left, app, since);
    }
  }

  lemma {:induction false} DiagnoseTurnsTell(w: World, turns: seq<Turn>, policy: string -> Policy, left: nat,
                                             app: string, since: nat)
    requires since <= |w.ledger|
    ensures var r := DiagnoseTurns(w, turns, policy, left);
      && since <= |r.ledger| && r.backoff == w.backoff
      && Streak(r.ledger[since..], app) == Streak(w.ledger[since..], app)
      && LastMiss(r.ledger[since..], app) == LastMiss(w.ledger[since..], app)
    decreases |turns|
  {
    if turns != [] {
      if DiagnoseSkips(w, turns[0], policy(turns[0].app.name)) {
        DiagnoseTurnsTell(w, turns[1..], policy, left, app, since);
      } else if left > 0 {
        var r := Diagnosed(w, turns[0]);
        assert r.ledger[since..] == w.ledger[since..] + [r.ledger[|w.ledger|]];
        RowTells(w.ledger[since..], r.ledger[|w.ledger|], app);
        DiagnoseTurnsTell(r, turns[1..], policy, left - 1, app, since);
      }
    }
  }

  // How many rows there were when the app was last deployed.
  function Since(passes: seq<Pass>, policy: string -> Policy, app: string): nat
    decreases |passes|
  {
    if passes == [] then 0
    else
      var k := |passes| - 1;
      if app in passes[k].deployed then |Run(passes[..k], policy).ledger| else Since(passes[..k], policy, app)
  }

  predicate AllJittered(passes: seq<Pass>) {
    forall p, t | p in passes && t in p.repairs :: Jittered(t)
  }

  // In every reachable state the backoff of an app is what the ledger says since its last deploy:
  // as many failures as restarts found dead since one was found alive, a wait by that number from
  // the latest of them, and the call for a person exactly from the third on.
  lemma {:induction false} EscalatedIff(passes: seq<Pass>, policy: string -> Policy, app: string)
    requires AllJittered(passes)
    ensures var w, since := Run(passes, policy), Since(passes, policy, app);
      since <= |w.ledger| && Tells(w.ledger[since..], BackoffOf(w, app), app)
    decreases |passes|
  {
    if passes != [] {
      var k := |passes| - 1;
      var p, w, since := passes[k], Run(passes[..k], policy), Since(passes, policy, app);
      assert forall q | q in passes[..k] :: q in passes;
      EscalatedIff(passes[..k], policy, app);
      var start := Forget(w, p.deployed);
      assert w.ledger[|w.ledger|..] == [];
      assert p in passes;
      RepairTurnsTell(start, p.repairs, policy, p.now, MAX_ACTIONS, app, since);
      DiagnoseTurnsTell(RepairTurns(start, p.repairs, policy, p.now, MAX_ACTIONS), p.diagnoses, policy, MAX_ACTIONS,
                        app, since);
    }
  }

  // ---------- backing off ----------

  // The wait never doubles from one failure to the next: it grows threefold, fourfold, sixfold, and
  // then stays.
  lemma NeverDoubles(failures: nat)
    requires failures > 0
    ensures Schedule(failures + 1) != 2 * Schedule(failures)
    ensures Schedule(failures + 1) > Schedule(failures) <==> failures < 4
    ensures Schedule(failures) <= Schedule(failures + 1)
  {
  }

  // Nobody restarts the app before then: it is held back until then, or then is past.
  predicate HeldUntil(w: World, app: string, now: int, until: int) {
    BackoffOf(w, app).nextAllowedAt >= until || now >= until
  }

  // The rows from n on have no restart of the app begun before then.
  predicate NoneBefore(rows: seq<Row>, n: nat, app: string, until: int) {
    forall i | n <= i < |rows| && Took(rows[i]) && rows[i].app == app :: rows[i].began >= until
  }

  lemma RepairedWaits(w: World, t: Turn, policy: Policy, now: int, app: string, until: int, n: nat)
    requires HeldUntil(w, app, now, until) && now <= t.checkAt && n <= |w.ledger| && NoneBefore(w.ledger, n, app, until)
    ensures var r := Repaired(w, t, policy, now);
      HeldUntil(r, app, now, until) && |r.ledger| >= |w.ledger| && NoneBefore(r.ledger, n, app, until)
  {
  }

  lemma {:induction false} RepairTurnsWait(w: World, turns: seq<Turn>, policy: string -> Policy, now: int, left: nat,
                                           app: string, until: int, n: nat)
    requires HeldUntil(w, app, now, until) && n <= |w.ledger| && NoneBefore(w.ledger, n, app, until)
    requires forall t | t in turns :: now <= t.checkAt
    ensures var r := RepairTurns(w, turns, policy, now, left);
      HeldUntil(r, app, now, until) && |r.ledger| >= |w.ledger| && NoneBefore(r.ledger, n, app, until)
    decreases |turns|
  {
    if turns != [] && left > 0 {
      var t := turns[0];
      var acted := RepairMove(w, t, policy(t.app.name), now) != Skip;
      assert forall u | u in turns[1..] :: u in turns;
      RepairedWaits(w, t, policy(t.app.name), now, app, until, n);
      RepairTurnsWait(Repaired(w, t, policy(t.app.name), now), turns[1..], policy, now,
                      if acted then left - 1 else left, app, until, n);
    }
  }

  lemma {:induction false} DiagnoseTurnsWait(w: World, turns: seq<Turn>, policy: string -> Policy, left: nat,
                                             app: string, until: int, n: nat)
    requires n <= |w.ledger| && NoneBefore(w.ledger, n, app, until)
    ensures var r := DiagnoseTurns(w, turns, policy, left);
      r.backoff == w.backoff && |r.ledger| >= |w.ledger| && NoneBefore(r.ledger, n, app, until)
    decreases |turns|
  {
    if turns != [] {
      if DiagnoseSkips(w, turns[0], policy(turns[0].app.name)) {
        DiagnoseTurnsWait(w, turns[1..], policy, left, app, until, n);
      } else if left > 0 {
        DiagnoseTurnsWait(Diagnosed(w, turns[0]), turns[1..], policy, left - 1, app, until, n);
      }
    }
  }

  lemma TickWaits(w: World, p: Pass, policy: string -> Policy, app: string, until: int, n: nat)
    requires HeldUntil(w, app, p.now, until) && n <= |w.ledger| && NoneBefore(w.ledger, n, app, until)
    requires PassClocked(p) && app !in p.deployed
    ensures var r := Tick(w, p, policy);
      HeldUntil(r, app, p.now, until) && |r.ledger| >= |w.ledger| && NoneBefore(r.ledger, n, app, until)
  {
    var start := Forget(w, p.deployed);
    RepairTurnsWait(start, p.repairs, policy, p.now, MAX_ACTIONS, app, until, n);
    DiagnoseTurnsWait(RepairTurns(start, p.repairs, policy, p.now, MAX_ACTIONS), p.diagnoses, policy, MAX_ACTIONS, app, until, n);
  }

  function RunFrom(w: World, passes: seq<Pass>, policy: string -> Policy): World
    decreases |passes|
  {
    if passes == [] then w
    else Tick(RunFrom(w, passes[..|passes| - 1], policy), passes[|passes| - 1], policy)
  }

  predicate NotDeployed(passes: seq<Pass>, app: string) {
    forall p | p in passes :: app !in p.deployed
  }

  lemma {:induction false} RunWaits(w: World, passes: seq<Pass>, policy: string -> Policy, app: string, until: int)
    requires InTurn(passes) && NotDeployed(passes, app) && BackoffOf(w, app).nextAllowedAt >= until
    ensures var r := RunFrom(w, passes, policy);
      && |r.ledger| >= |w.ledger| && NoneBefore(r.ledger, |w.ledger|, app, until)
      && (passes == [] ==> r == w)
      && (passes != [] ==> HeldUntil(r, app, passes[|passes| - 1].now, until))
    decreases |passes|
  {
    if passes != [] {
      var k := |passes| - 1;
      EarlierPasses(passes, app);
      RunWaits(w, passes[..k], policy, app, until);
      TickWaits(RunFrom(w, passes[..k], policy), passes[k], policy, app, until, |w.ledger|);
    }
  }

  lemma EarlierPasses(passes: seq<Pass>, app: string)
    requires passes != [] && InTurn(passes) && NotDeployed(passes, app)
    ensures var k := |passes| - 1;
      && InTurn(passes[..k]) && NotDeployed(passes[..k], app)
      && PassClocked(passes[k]) && app !in passes[k].deployed
      && (k > 0 ==> passes[..k][k - 1].now <= passes[k].now)
  {
    var k := |passes| - 1;
    var front := passes[..k];
    assert passes[k] in passes;
    assert forall p | p in front :: p in passes;
    assert forall i | 0 <= i < k - 1 :: PassEnd(passes[i]) <= passes[i + 1].now;
    PassTakesTime(passes, k);
  }

  lemma PassTakesTime(passes: seq<Pass>, k: nat)
    requires InTurn(passes) && k < |passes|
    ensures k > 0 ==> passes[k - 1].now <= passes[k].now
  {
    if k > 0 {
      var p := passes[k - 1];
      assert p in passes;
      ClockedForward(p.now, p.repairs);
      ClockedForward(End(p.now, p.repairs), p.diagnoses);
      assert PassEnd(p) <= passes[k - 1 + 1].now;
    }
  }

  // After a pass that restarted the app in vain it is left alone for at least nine tenths of the
  // wait for its number of failures, over any passes until it is deployed again.
  lemma FailuresBackOff(w: World, p: Pass, i: nat, passes: seq<Pass>, policy: string -> Policy)
    requires i < |p.repairs| && OnlyTurn(p.repairs, i) && Jittered(p.repairs[i])
    requires RestartsAt(w, p, policy, i) && p.repairs[i].attempt == Settled(false)
    requires InTurn(passes) && NotDeployed(passes, p.repairs[i].app.name)
    ensures var t, app, r := p.repairs[i], p.repairs[i].app.name, Tick(w, p, policy);
      var failures := 1 + if app in p.deployed then 0 else BackoffOf(w, app).failures;
      && BackoffOf(r, app).failures == failures
      && NoneBefore(RunFrom(r, passes, policy).ledger, |r.ledger|, app, t.rowAt + 54000 * Minutes(failures))
  {
    PassLearns(w, p, policy, i);
    var t, app, r := p.repairs[i], p.repairs[i].app.name, Tick(w, p, policy);
    RunWaits(r, passes, policy, app, t.rowAt + 54000 * Minutes(BackoffOf(r, app).failures));
  }

  lemma WaitIsLong(failures: nat, jitter: real)
    requires failures > 0 && 0.0 <= jitter <= 1.0
    ensures 54000 * Minutes(failures) <= Wait(failures, jitter) <= 66000 * Minutes(failures)
    ensures JitteredWait(0, Wait(failures, jitter), failures, jitter)
  {
    var base := Schedule(failures) as real;
    assert base * 0.9 <= base * (0.9 + jitter * 0.2) <= base * 1.1;
  }
}
