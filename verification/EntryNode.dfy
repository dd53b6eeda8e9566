/** The entry node's handlers over its own queue. */
module EntryNode {
  import opened Outcomes
  import opened EntryQueue
  import opened EntryRuns

  datatype PollReply = Handed(id: nat) | Held(poll: nat) | UnknownMachine

  datatype AnswerReply = Piped | Malformed | NoSuchRequest

  datatype BrowserReply = Page(status: int) | BadGateway

  lemma StillQueued(q: Queue, id: nat)
    requires Inv(q)
    ensures id in q.taken ==> Find(q.pending, id) == |q.pending|
  {
    if id in q.taken {
      NotFound(q, id);
    }
  }

  lemma Arriving(q: Queue, m: Machine)
    requires Inv(q)
    ensures var r := Do(q, Arrive(m)); Inv(r) && r.arrived == q.arrived + [m] && r.taken == q.taken
  {
    EventKeeps(q, Arrive(m));
    ArrivalIs(q, m);
  }

  lemma Answering(q: Queue, m: Machine, id: nat)
    requires Inv(q)
    ensures Inv(Do(q, Answer(m, id)))
    ensures if Waiting(q.pending, m, id)
            then Find(q.pending, id) < |q.pending| && id !in q.taken && Do(q, Answer(m, id)) == Taken(q, id, ByAnswer(m))
            else Do(q, Answer(m, id)) == q
  {
    EventKeeps(q, Answer(m, id));
    StillQueued(q, id);
  }

  class Node {
    var pending: seq<Req>
    var waiters: map<Machine, seq<nat>>
    var finished: set<nat>
    var nextPoll: nat
    var idSeq: nat
    var browsers: map<nat, BrowserReply>
    const machines: set<Machine>
    ghost var arrived: seq<Machine>
    ghost var claims: seq<nat>
    ghost var delivered: seq<nat>
    ghost var taken: map<nat, Taker>

    ghost function Now(): Queue
      reads this
    {
      Queue(pending, waiters, finished, nextPoll, arrived, claims, delivered, taken)
    }

    // A browser has the timeout's page exactly when the timeout took its request.
    ghost predicate Valid()
      reads this
    {
      && Inv(Now()) && idSeq == |arrived|
      && (forall id | id in browsers :: id in taken && (browsers[id] == BadGateway <==> taken[id] == ByTimeout))
      && (forall id | id in taken && taken[id] == ByTimeout :: id in browsers)
    }

    constructor (machines: set<Machine>)
      ensures Valid() && Now() == EMPTY && browsers == map[] && this.machines == machines
    {
      this.machines := machines;
      pending, waiters, finished, nextPoll, idSeq, browsers := [], map[], {}, 0, 0, map[];
      arrived, claims, delivered, taken := [], [], [], map[];
    }

    // Claims the machine's first unclaimed request.
    method NextPendingFor(m: Machine) returns (hit: Option<nat>)
      modifies `pending, `claims
      ensures var i := FirstOpen(old(pending), m);
        if i < |old(pending)| then hit == Some(old(pending)[i].id) && Now() == Claim(old(Now()), i)
        else hit.None? && Now() == old(Now())
    {
      var i := 0;
      while i < |pending|
        invariant 0 <= i <= |pending| && Now() == old(Now())
        invariant forall k | 0 <= k < i :: !Open(pending[k], m)
      {
        if Open(pending[i], m) {
          hit := Some(pending[i].id);
          claims := claims + [pending[i].id];
          pending := pending[i := pending[i].(claimed := true)];
          return;
        }
        i := i + 1;
      }
      hit := None;
    }

    method WakeOne(m: Machine)
      modifies `pending, `claims, `waiters, `finished, `delivered
      ensures Now() == Wake(old(Now()), m)
    {
      if m !in waiters || waiters[m] == [] {
        return;
      }
      var poll := waiters[m][0];
      waiters := waiters[m := waiters[m][1..]];
      var hit := NextPendingFor(m);
      if hit.None? {
        waiters := waiters[m := waiters[m] + [poll]];
        return;
      }
      if poll !in finished {
        finished := finished + {poll};
        delivered := delivered + [hit.value];
      }
    }

    method AnswerBrowser(m: Machine)
      requires Valid()
      modifies `pending, `claims, `waiters, `finished, `delivered, `arrived, `idSeq
      ensures Valid() && Now() == Do(old(Now()), Arrive(m))
    {
      ghost var was := Now();
      idSeq := idSeq + 1;
      arrived := arrived + [m];
      pending := pending + [Req(idSeq, m, false)];
      ghost var queued := Now();
      WakeOne(m);
      Arriving(was, m);
      assert queued == was.(pending := was.pending + [Req(|was.arrived| + 1, m, false)], arrived := was.arrived + [m]);
    }

    method HandleEvents(m: Machine) returns (reply: PollReply)
      requires Valid()
      modifies `pending, `claims, `delivered, `waiters, `nextPoll
      ensures Valid()
      ensures m !in machines ==> reply == UnknownMachine && Now() == old(Now())
      ensures m in machines ==> Now() == Do(old(Now()), Poll(m))
      ensures reply.Handed? <==> m in machines && FirstOpen(old(pending), m) < |old(pending)|
      ensures reply.Handed? ==> delivered == old(delivered) + [reply.id]
      ensures reply.Held? ==> waiters[m] == Parked(old(Now()), m) + [reply.poll]
    {
      if m !in machines {
        return UnknownMachine;
      }
      EventKeeps(Now(), Poll(m));
      var hit := NextPendingFor(m);
      if hit.Some? {
        delivered := delivered + [hit.value];
        return Handed(hit.value);
      }
      reply := Held(nextPoll);
      waiters := waiters[m := (if m in waiters then waiters[m] else []) + [nextPoll]];
      nextPoll := nextPoll + 1;
    }

    // The hold is over: the poll is told there is nothing.  It stays parked.
    method HoldOver(poll: nat) returns (idle: bool)
      requires Valid() && poll < nextPoll
      modifies `finished
      ensures Valid() && Now() == Do(old(Now()), HoldExpires(poll)) && (idle <==> poll !in old(finished))
    {
      EventKeeps(Now(), HoldExpires(poll));
      idle := poll !in finished;
      finished := finished + {poll};
    }

    method ConnectionClosed(m: Machine, poll: nat)
      requires Valid()
      modifies `waiters
      ensures Valid() && Now() == Do(old(Now()), Close(m, poll))
    {
      EventKeeps(Now(), Close(m, poll));
      if poll in finished || m !in waiters {
        return;
      }
      waiters := waiters[m := Without(waiters[m], poll)];
    }

    method TakeOff(id: nat, ghost by_: Taker)
      requires Find(pending, id) < |pending|
      modifies `pending, `taken
      ensures Now() == Taken(old(Now()), id, by_)
    {
      var i := Find(pending, id);
      pending := pending[..i] + pending[i + 1..];
      taken := taken[id := by_];
    }

    // The timer is cleared when an answer comes, so it can only find its request on the queue.
    method TimeIsUp(id: nat)
      requires Valid() && Find(pending, id) < |pending|
      modifies `pending, `taken, `browsers
      ensures Valid() && Now() == Do(old(Now()), Timeout(id))
      ensures browsers == old(browsers)[id := BadGateway]
    {
      EventKeeps(Now(), Timeout(id));
      TakeOff(id, ByTimeout);
      browsers := browsers[id := BadGateway];
    }

    // status is what the answer's header line says, if it can be read.
    method HandleAnswer(m: Machine, id: nat, status: Option<int>) returns (reply: AnswerReply)
      requires Valid()
      modifies `pending, `taken, `browsers
      ensures Valid() && Now() == Do(old(Now()), Answer(m, id))
      ensures reply == NoSuchRequest <==> !Waiting(old(pending), m, id)
      ensures reply == NoSuchRequest ==> Now() == old(Now()) && browsers == old(browsers)
      ensures reply == Malformed ==> browsers == old(browsers) && status.None?
      ensures reply == Piped ==> status.Some? && browsers == old(browsers)[id := Page(status.value)]
      ensures id in old(browsers) ==> reply == NoSuchRequest
    {
      Answering(Now(), m, id);
      if !Waiting(pending, m, id) {
        return NoSuchRequest;
      }
      TakeOff(id, ByAnswer(m));
      if status.None? {
        return Malformed;
      }
      browsers := browsers[id := Page(status.value)];
      reply := Piped;
    }
  }
}
