/** The agents over their ledger file, which is cut to its last rows when it has grown large. */
module AgentNode {
  import opened Outcomes
  import opened RepairLedger
  import opened RepairPasses
  import opened RepairAgent

  class Agents {
    var file: seq<Row>
    var backoff: map<string, Backoff>
    ghost var history: seq<Row>
    const policy: string -> Policy
    const large: seq<Row> -> bool

    // What was cut off the file was beyond reading already.
    ghost predicate Valid()
      reads this
    {
      LastRows(file, READ_ROWS) == LastRows(history, READ_ROWS)
    }

    ghost function Now(): World
      reads this
    {
      World(history, backoff)
    }

    constructor (policy: string -> Policy, large: seq<Row> -> bool)
      ensures Valid() && Now() == World([], map[]) && this.policy == policy
    {
      this.policy, this.large := policy, large;
      file, backoff, history := [], map[], [];
    }

    method ReadLedger() returns (rows: seq<Row>)
      requires Valid()
      ensures rows == Tail(Now()).ledger
    {
      rows := LastRows(file, READ_ROWS);
    }

    method Append(row: Row)
      requires Valid()
      modifies `file, `history
      ensures Valid() && Now() == Record(old(Now()), row)
    {
      if large(file) {
        file := LastRows(file, READ_ROWS);
      }
      TailOfAppend(file, history, row);
      file, history := file + [row], history + [row];
    }

    method IsCoolingDown(agent: Agent, app: string, t: int) returns (cooling: bool)
      requires Valid()
      ensures cooling <==> CoolingDown(Tail(Now()).ledger, agent, app, t)
    {
      var rows := ReadLedger();
      var i := |rows|;
      assert rows[..i] == rows;
      while i > 0
        invariant 0 <= i <= |rows|
        invariant LastFor(rows[..i], agent, app) == LastFor(rows, agent, app)
      {
        i := i - 1;
        assert rows[..i + 1][..i] == rows[..i];
        if OnKey(rows[i], agent, app) {
          return t - rows[i].at < COOLDOWN;
        }
      }
      return false;
    }

    method RepairsInLastHour(app: string, now: int) returns (n: nat)
      requires Valid()
      ensures n == Hourly(Tail(Now()).ledger, app, now)
    {
      var rows := ReadLedger();
      n := 0;
      var i := 0;
      while i < |rows|
        invariant 0 <= i <= |rows| && n == Hourly(rows[..i], app, now)
      {
        assert rows[..i + 1][..i] == rows[..i];
        if OnKey(rows[i], Repair, app) && rows[i].at >= now - HOUR {
          n := n + 1;
        }
        i := i + 1;
      }
      assert rows[..i] == rows;
    }

    method NoteResult(app: string, ok: bool, at: int, jitter: real)
      modifies `backoff
      ensures Now() == Note(old(Now()), app, ok, at, jitter)
    {
      if ok {
        backoff := backoff[app := CLEAR];
      } else {
        var b := if app in backoff then backoff[app] else CLEAR;
        b := b.(failures := b.failures + 1);
        b := b.(nextAllowedAt := at + Wait(b.failures, jitter));
        if b.failures >= 3 {
          b := b.(escalated := true);
        }
        backoff := backoff[app := b];
      }
    }

    method RepairOne(t: Turn, now: int) returns (acted: bool)
      requires Valid()
      modifies `file, `history, `backoff
      ensures Valid()
      ensures var move := RepairMove(Tail(old(Now())), t, policy(t.app.name), now);
        Now() == Moved(old(Now()), t, move) && (acted <==> move != Skip)
    {
      var name, p := t.app.name, policy(t.app.name);
      if t.app.connect || !t.app.down {
        return false;
      }
      if t.app.stoppedByOwner {
        Append(Row(t.rowAt, Repair, Held, name, t.checkAt, None));
        return true;
      }
      if p.mode != Mend {
        return false;
      }
      if t.inMaintenance {
        Append(Row(t.rowAt, Repair, Held, name, t.checkAt, None));
        return true;
      }
      var hourly := RepairsInLastHour(name, now);
      if hourly >= p.maxActionsPerHour {
        Append(Row(t.rowAt, Repair, Held, name, t.checkAt, None));
        return true;
      }
      var until := if name in backoff then backoff[name].nextAllowedAt else 0;
      if until > now {
        Append(Row(t.rowAt, Repair, Held, name, t.checkAt, None));
        return true;
      }
      var cooling := IsCoolingDown(Repair, name, t.checkAt);
      if cooling {
        return false;
      }
      if t.attempt.Settled? {
        NoteResult(name, t.attempt.live, t.rowAt, t.jitter);
      }
      Append(Row(t.rowAt, Repair, Restart, name, t.checkAt, Verified(t.attempt)));
      acted := true;
    }

    method RepairPass(turns: seq<Turn>, now: int)
      requires Valid()
      modifies `file, `history, `backoff
      ensures Valid() && Now() == TailRepairs(old(Now()), turns, policy, now, MAX_ACTIONS)
    {
      var left := MAX_ACTIONS;
      var i := 0;
      while i < |turns| && left > 0
        invariant 0 <= i <= |turns| && 0 <= left <= MAX_ACTIONS && Valid()
        invariant OnCourse(old(Now()), Now(), turns, i, policy, now, left)
      {
        OneTurn(old(Now()), Now(), turns, i, policy, now, left);
        var acted := RepairOne(turns[i], now);
        if acted {
          left := left - 1;
        }
        i := i + 1;
      }
    }

    method DiagnosePass(turns: seq<Turn>)
      requires Valid()
      modifies `file, `history
      ensures Valid() && Now() == TailDiagnoses(old(Now()), turns, policy, MAX_ACTIONS)
    {
      var left := MAX_ACTIONS;
      var i := 0;
      while i < |turns|
        invariant 0 <= i <= |turns| && 0 <= left <= MAX_ACTIONS && Valid()
        invariant TailDiagnoses(old(Now()), turns, policy, MAX_ACTIONS) == TailDiagnoses(Now(), turns[i..], policy, left)
      {
        var t := turns[i];
        assert turns[i..][1..] == turns[i + 1..];
        i := i + 1;
        if t.app.connect || !t.app.down || t.app.stoppedByOwner || policy(t.app.name).mode == Off {
          continue;
        }
        var cooling := IsCoolingDown(Diagnose, t.app.name, t.checkAt);
        if cooling {
          continue;
        }
        if left == 0 {
          break;
        }
        Append(Row(t.rowAt, Diagnose, Chain, t.app.name, t.checkAt, None));
        left := left - 1;
      }
    }

    // What a deploy does to the backoff of its app.
    method ClearBackoff(deployed: set<string>)
      modifies `backoff
      ensures Now() == Forget(old(Now()), deployed)
    {
      backoff := map app | app in backoff && app !in deployed :: backoff[app];
    }

    // One pass, started when the ledger has aged enough since the last: the same as with the
    // whole ledger in hand.
    method RunPass(p: Pass)
      requires Valid() && Aged(history, |history|, p.now) && PassClocked(p)
      modifies this
      ensures Valid() && Now() == Tick(old(Now()), p, policy)
      ensures Aged(history, |old(history)|, p.now)
    {
      TailTickSame(Now(), p, policy);
      ClearBackoff(p.deployed);
      RepairPass(p.repairs, p.now);
      DiagnosePass(p.diagnoses);
    }
  }

  // The pass from start comes out as the rest of it from w.
  ghost predicate OnCourse(start: World, w: World, turns: seq<Turn>, i: nat, policy: string -> Policy, now: int, left: nat)
    requires i <= |turns|
  {
    TailRepairs(start, turns, policy, now, MAX_ACTIONS) == TailRepairs(w, turns[i..], policy, now, left)
  }

  lemma OneTurn(start: World, w: World, turns: seq<Turn>, i: nat, policy: string -> Policy, now: int, left: nat)
    requires i < |turns| && left > 0 && OnCourse(start, w, turns, i, policy, now, left)
    ensures var t := turns[i];
      var move := RepairMove(Tail(w), t, policy(t.app.name), now);
      OnCourse(start, Moved(w, t, move), turns, i + 1, policy, now, if move != Skip then left - 1 else left)
  {
    assert turns[i..][1..] == turns[i + 1..];
  }

  lemma TailOfAppend(file: seq<Row>, history: seq<Row>, row: Row)
    requires LastRows(file, READ_ROWS) == LastRows(history, READ_ROWS)
    ensures LastRows(file + [row], READ_ROWS) == LastRows(history + [row], READ_ROWS)
  {
    TailAfter(file, row);
    TailAfter(history, row);
  }

  lemma TailAfter(rows: seq<Row>, row: Row)
    ensures LastRows(rows + [row], READ_ROWS) == LastRows(LastRows(rows, READ_ROWS) + [row], READ_ROWS)
  {
  }
}
