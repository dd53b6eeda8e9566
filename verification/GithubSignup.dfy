/** Concurrent sign-ups: every client checks that the address is free, then creates the user
    file without a sha, which the server accepts only if the file does not exist. */
module GithubSignup {
  import opened Outcomes
  import opened Text
  import opened GithubRepo

  datatype Signup = Signup(email: Str, passwordHash: Bytes, createdAt: int)

  datatype Client = Checking | Creating | Created | Refused(code: Code)

  datatype State = State(files: map<Path, File>, clients: seq<Client>)

  datatype Step = Check(i: nat) | Create(i: nat)

  function UserFile(s: Signup): Path {
    UserPath(Sha256(s.email))
  }

  function Doc(s: Signup): File {
    UserDoc(s.email, s.passwordHash, s.createdAt)
  }

  predicate Enabled(s: State, step: Step) {
    step.i < |s.clients| && s.clients[step.i] == if step.Check? then Checking else Creating
  }

  function Next(signups: seq<Signup>, s: State, step: Step): State
    requires |signups| == |s.clients| && Enabled(s, step)
  {
    var path := UserFile(signups[step.i]);
    match step
    case Check(i) => s.(clients := s.clients[i := if path in s.files then Refused(CONFLICT) else Creating])
    case Create(i) =>
      var status := PutStatus(s.files, path, None);
      if status == 200 then State(s.files[path := Doc(signups[i])], s.clients[i := Created])
      else s.(clients := s.clients[i := Refused(Mapped(CodeForStatus(status, false)))])
  }

  ghost predicate CanRun(signups: seq<Signup>, s: State, steps: seq<Step>)
    requires |signups| == |s.clients|
    decreases |steps|
  {
    steps == [] || (Enabled(s, steps[0]) && CanRun(signups, Next(signups, s, steps[0]), steps[1..]))
  }

  ghost function Run(signups: seq<Signup>, s: State, steps: seq<Step>): State
    requires |signups| == |s.clients| && CanRun(signups, s, steps)
    decreases |steps|
  {
    if steps == [] then s else Run(signups, Next(signups, s, steps[0]), steps[1..])
  }

  predicate Won(s: State, i: nat) {
    i < |s.clients| && s.clients[i] == Created
  }

  ghost predicate WonBy(signups: seq<Signup>, s: State, path: Path) {
    exists i | 0 <= i < |signups| :: Won(s, i) && UserFile(signups[i]) == path
  }

  // Nothing that existed is touched; each winner took a free address and its document is in
  // place; no two winners share an address; every new file has a winner; every refusal is a
  // conflict with a file that exists.
  ghost predicate Inv(signups: seq<Signup>, before: map<Path, File>, s: State) {
    && |signups| == |s.clients|
    && (forall path | path in before :: path in s.files && s.files[path] == before[path])
    && (forall i | 0 <= i < |signups| && Won(s, i) ::
          var path := UserFile(signups[i]); path !in before && path in s.files && s.files[path] == Doc(signups[i]))
    && (forall i, j | 0 <= i < j < |signups| && Won(s, i) && Won(s, j) :: signups[i].email != signups[j].email)
    && (forall path | path in s.files && path !in before :: WonBy(signups, s, path))
    && (forall i | 0 <= i < |signups| && s.clients[i].Refused? ::
          s.clients[i].code == CONFLICT && UserFile(signups[i]) in s.files)
  }

  lemma WonByLater(signups: seq<Signup>, s: State, t: State, path: Path)
    requires WonBy(signups, s, path)
    requires forall i | 0 <= i < |signups| && Won(s, i) :: Won(t, i)
    ensures WonBy(signups, t, path)
  {
    var i :| 0 <= i < |signups| && Won(s, i) && UserFile(signups[i]) == path;
    assert Won(t, i);
  }

  lemma LoseKeepsInv(signups: seq<Signup>, before: map<Path, File>, s: State, i: nat, c: Client)
    requires Inv(signups, before, s) && i < |signups| && !Won(s, i) && c != Created
    requires c.Refused? ==> c.code == CONFLICT && UserFile(signups[i]) in s.files
    ensures Inv(signups, before, s.(clients := s.clients[i := c]))
  {
    var t := s.(clients := s.clients[i := c]);
    assert forall k | 0 <= k < |signups| :: Won(t, k) <==> Won(s, k);
    forall path | path in t.files && path !in before ensures WonBy(signups, t, path) {
      WonByLater(signups, s, t, path);
    }
  }

  lemma WinKeepsInv(signups: seq<Signup>, before: map<Path, File>, s: State, i: nat)
    requires Inv(signups, before, s) && Enabled(s, Create(i)) && UserFile(signups[i]) !in s.files
    ensures Inv(signups, before, Next(signups, s, Create(i)))
  {
    var t := Next(signups, s, Create(i));
    assert forall j | 0 <= j < |signups| :: Won(t, j) <==> Won(s, j) || j == i;
    forall path | path in t.files && path !in before ensures WonBy(signups, t, path) {
      if path in s.files {
        WonByLater(signups, s, t, path);
      } else {
        assert Won(t, i) && UserFile(signups[i]) == path;
      }
    }
  }

  lemma NextKeepsInv(signups: seq<Signup>, before: map<Path, File>, s: State, step: Step)
    requires Inv(signups, before, s) && Enabled(s, step)
    ensures Inv(signups, before, Next(signups, s, step))
  {
    if step.Create? && UserFile(signups[step.i]) !in s.files {
      WinKeepsInv(signups, before, s, step.i);
    } else {
      LoseKeepsInv(signups, before, s, step.i, Next(signups, s, step).clients[step.i]);
    }
  }

  lemma {:induction false} RunKeepsInv(signups: seq<Signup>, before: map<Path, File>, s: State, steps: seq<Step>)
    requires Inv(signups, before, s) && CanRun(signups, s, steps)
    ensures Inv(signups, before, Run(signups, s, steps))
    decreases |steps|
  {
    if steps != [] {
      NextKeepsInv(signups, before, s, steps[0]);
      RunKeepsInv(signups, before, Next(signups, s, steps[0]), steps[1..]);
    }
  }

  // Of any number of racing sign-ups for one address at most one wins, no account is ever
  // overwritten, and whoever is refused a free address lost it to exactly one winner.
  lemma OneWinnerPerAddress(signups: seq<Signup>, before: map<Path, File>, steps: seq<Step>, i: nat)
    requires CanRun(signups, State(before, seq(|signups|, k => Checking)), steps) && i < |signups|
    ensures var t, path := Run(signups, State(before, seq(|signups|, k => Checking)), steps), UserFile(signups[i]);
      && (forall other | other in before :: other in t.files && t.files[other] == before[other])
      && (Won(t, i) ==> path in t.files && t.files[path] == Doc(signups[i]))
      && (forall j | 0 <= j < |signups| && j != i && signups[j].email == signups[i].email :: !(Won(t, i) && Won(t, j)))
      && (i < |t.clients| && t.clients[i].Refused? && path !in before ==> WonBy(signups, t, path))
  {
    RunKeepsInv(signups, before, State(before, seq(|signups|, k => Checking)), steps);
  }
}
