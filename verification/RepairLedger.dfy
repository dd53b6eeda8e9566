/** The agents' ledger of actions, and what is read from it before acting again.  Times are
    milliseconds. */
module RepairLedger {
  import opened Outcomes

  const COOLDOWN := 30 * 60 * 1000
  const HOUR := 3600 * 1000
  const READ_ROWS := 400

  datatype Agent = Repair | Diagnose
  datatype Action = Held | Restart | Chain

  // at is when the row was written; began is when the action was taken, before it; verified is
  // whether a restarted app was found alive, when that was looked at.
  datatype Row = Row(at: int, agent: Agent, action: Action, app: string, began: int, verified: Option<bool>)

  predicate OnKey(r: Row, agent: Agent, app: string) {
    r.agent == agent && r.app == app
  }

  // The latest row of an agent for an app.
  function LastFor(rows: seq<Row>, agent: Agent, app: string): Option<Row>
    decreases |rows|
  {
    if rows == [] then None
    else if OnKey(rows[|rows| - 1], agent, app) then Some(rows[|rows| - 1])
    else LastFor(rows[..|rows| - 1], agent, app)
  }

  predicate CoolingDown(rows: seq<Row>, agent: Agent, app: string, t: int) {
    var last := LastFor(rows, agent, app);
    last.Some? && t - last.value.at < COOLDOWN
  }

  // Repair rows of the app from the hour before, held ones included.
  function Hourly(rows: seq<Row>, app: string, now: int): nat
    decreases |rows|
  {
    if rows == [] then 0
    else
      var r := rows[|rows| - 1];
      Hourly(rows[..|rows| - 1], app, now) + if OnKey(r, Repair, app) && r.at >= now - HOUR then 1 else 0
  }

  function LastRows(rows: seq<Row>, n: nat): seq<Row> {
    if |rows| <= n then rows else rows[|rows| - n..]
  }

  predicate Dated(rows: seq<Row>) {
    forall i, j | 0 <= i < j < |rows| :: rows[i].at <= rows[j].at
  }

  // ---------- a tail is enough to read ----------

  predicate AllBefore(rows: seq<Row>, t: int) {
    forall r | r in rows :: r.at < t
  }

  lemma {:induction false} HourlyOfOld(rows: seq<Row>, app: string, now: int)
    requires AllBefore(rows, now - HOUR)
    ensures Hourly(rows, app, now) == 0
    decreases |rows|
  {
    if rows != [] {
      HourlyOfOld(rows[..|rows| - 1], app, now);
    }
  }

  lemma {:induction false} HourlySplits(a: seq<Row>, b: seq<Row>, app: string, now: int)
    ensures Hourly(a + b, app, now) == Hourly(a, app, now) + Hourly(b, app, now)
    decreases |b|
  {
    if b == [] {
      assert a + b == a;
    } else {
      HourlySplits(a, b[..|b| - 1], app, now);
      assert (a + b)[..|a + b| - 1] == a + b[..|b| - 1];
    }
  }

  lemma {:induction false} LastForSplits(a: seq<Row>, b: seq<Row>, agent: Agent, app: string)
    ensures LastFor(a + b, agent, app) == if LastFor(b, agent, app).Some? then LastFor(b, agent, app) else LastFor(a, agent, app)
    decreases |b|
  {
    if b == [] {
      assert a + b == a;
    } else {
      LastForSplits(a, b[..|b| - 1], agent, app);
      assert (a + b)[..|a + b| - 1] == a + b[..|b| - 1];
    }
  }

  lemma {:induction false} LastForIsARow(rows: seq<Row>, agent: Agent, app: string)
    ensures var last := LastFor(rows, agent, app); last.Some? ==> last.value in rows && OnKey(last.value, agent, app)
    decreases |rows|
  {
    if rows != [] {
      LastForIsARow(rows[..|rows| - 1], agent, app);
    }
  }

  // Reading only the end of the ledger changes nothing when what is left out is over an hour old.
  lemma TailIsEnough(rows: seq<Row>, n: nat, agent: Agent, app: string, t: int)
    requires |rows| > n ==> AllBefore(rows[..|rows| - n], t - HOUR)
    ensures Hourly(LastRows(rows, n), app, t) == Hourly(rows, app, t)
    ensures CoolingDown(LastRows(rows, n), agent, app, t) <==> CoolingDown(rows, agent, app, t)
  {
    if |rows| > n {
      var front, tail := rows[..|rows| - n], LastRows(rows, n);
      assert rows == front + tail;
      HourlySplits(front, tail, app, t);
      HourlyOfOld(front, app, t);
      LastForSplits(front, tail, agent, app);
      LastForIsARow(front, agent, app);
    }
  }

  // ---------- what the readings mean ----------

  // Not cooling down: every row on the key is at least the cooldown old.
  lemma {:induction false} NotCooling(rows: seq<Row>, agent: Agent, app: string, t: int)
    requires Dated(rows) && !CoolingDown(rows, agent, app, t)
    ensures forall r | r in rows && OnKey(r, agent, app) :: t - r.at >= COOLDOWN
    decreases |rows|
  {
    if rows != [] {
      var n := |rows| - 1;
      assert rows == rows[..n] + [rows[n]];
      if OnKey(rows[n], agent, app) {
        forall r | r in rows
          ensures r.at <= rows[n].at
        {
        }
      } else {
        NotCooling(rows[..n], agent, app, t);
      }
    }
  }

  // The repair rows of the app from the hour up to now, by their places.
  function RowsInHour(rows: seq<Row>, app: string, now: int): set<nat> {
    set i: nat | i < |rows| && rows[i].agent == Repair && rows[i].app == app && now - rows[i].at <= 3600000
  }

  lemma {:induction false} HourlyCounts(rows: seq<Row>, app: string, now: int)
    ensures Hourly(rows, app, now) == |RowsInHour(rows, app, now)|
    decreases |rows|
  {
    if rows != [] {
      var n := |rows| - 1;
      var front := rows[..n];
      HourlyCounts(front, app, now);
      if n in RowsInHour(rows, app, now) {
        assert RowsInHour(rows, app, now) == RowsInHour(front, app, now) + {n};
      } else {
        assert RowsInHour(rows, app, now) == RowsInHour(front, app, now);
      }
    }
  }

  // How many restarts of the app were begun between two times.
  function Restarts(rows: seq<Row>, app: string, from: int, to: int): nat
    decreases |rows|
  {
    if rows == [] then 0
    else
      var r := rows[|rows| - 1];
      Restarts(rows[..|rows| - 1], app, from, to) +
      if r.action == Restart && OnKey(r, Repair, app) && from <= r.began <= to then 1 else 0
  }

  lemma {:induction false} RestartsAreCounted(rows: seq<Row>, app: string, from: int, to: int, t: int)
    requires t - HOUR <= from && forall r | r in rows :: r.began <= r.at
    ensures Restarts(rows, app, from, to) <= Hourly(rows, app, t)
    decreases |rows|
  {
    if rows != [] {
      RestartsAreCounted(rows[..|rows| - 1], app, from, to, t);
    }
  }
}
