/** The entry node's queue: browser requests waiting for a home machine, and the machine's polls
    parked until there is one. */
module EntryQueue {

  type Machine = string

  datatype Req = Req(id: nat, machine: Machine, claimed: bool)

  datatype Taker = ByAnswer(machine: Machine) | ByTimeout

  // pending and waiters are the node's; finished are the parked polls already replied to.  The
  // rest is history: the machine of every request by arrival, the requests claimed and handed to
  // a live poll in order, and what took each request off the queue.
  datatype Queue = Queue(
    pending: seq<Req>, waiters: map<Machine, seq<nat>>, finished: set<nat>, nextPoll: nat,
    arrived: seq<Machine>, claims: seq<nat>, delivered: seq<nat>, taken: map<nat, Taker>)

  const EMPTY := Queue([], map[], {}, 0, [], [], [], map[])

  // ---------- the handlers' parts ----------

  predicate Open(p: Req, m: Machine) {
    p.machine == m && !p.claimed
  }

  // The first unclaimed request of the machine, or |pending|.
  function FirstOpen(pending: seq<Req>, m: Machine): (i: nat)
    ensures i <= |pending| && (i < |pending| ==> Open(pending[i], m))
    ensures forall k | 0 <= k < i :: !Open(pending[k], m)
  {
    if pending == [] || Open(pending[0], m) then 0 else 1 + FirstOpen(pending[1..], m)
  }

  function Find(pending: seq<Req>, id: nat): (i: nat)
    ensures i <= |pending| && (i < |pending| ==> pending[i].id == id)
    ensures forall k | 0 <= k < i :: pending[k].id != id
  {
    if pending == [] || pending[0].id == id then 0 else 1 + Find(pending[1..], id)
  }

  function Parked(q: Queue, m: Machine): seq<nat> {
    if m in q.waiters then q.waiters[m] else []
  }

  function Claim(q: Queue, i: nat): Queue
    requires i < |q.pending|
  {
    q.(pending := q.pending[i := q.pending[i].(claimed := true)], claims := q.claims + [q.pending[i].id])
  }

  // A poll that was replied to already does nothing with the request.
  function Resolve(q: Queue, poll: nat, id: nat): Queue {
    if poll in q.finished then q else q.(finished := q.finished + {poll}, delivered := q.delivered + [id])
  }

  function Wake(q: Queue, m: Machine): Queue {
    var list := Parked(q, m);
    if list == [] then q
    else
      var i := FirstOpen(q.pending, m);
      if i == |q.pending| then q.(waiters := q.waiters[m := list[1..] + [list[0]]])
      else Resolve(Claim(q, i).(waiters := q.waiters[m := list[1..]]), list[0], q.pending[i].id)
  }

  function Without(list: seq<nat>, poll: nat): seq<nat> {
    if list == [] then []
    else (if list[0] == poll then [] else [list[0]]) + Without(list[1..], poll)
  }

  // ---------- the events ----------

  datatype Event =
    | Arrive(machine: Machine)
    | Poll(machine: Machine)
    | HoldExpires(poll: nat)
    | Close(machine: Machine, poll: nat)
    | Timeout(id: nat)
    | Answer(machine: Machine, id: nat)

  function Arrived(q: Queue, m: Machine): Queue {
    var id := |q.arrived| + 1;
    Wake(q.(pending := q.pending + [Req(id, m, false)], arrived := q.arrived + [m]), m)
  }

  function Polled(q: Queue, m: Machine): Queue {
    var i := FirstOpen(q.pending, m);
    if i < |q.pending| then Claim(q, i).(delivered := q.delivered + [q.pending[i].id])
    else q.(waiters := q.waiters[m := Parked(q, m) + [q.nextPoll]], nextPoll := q.nextPoll + 1)
  }

  predicate Waiting(pending: seq<Req>, m: Machine, id: nat) {
    var i := Find(pending, id);
    i < |pending| && pending[i].machine == m
  }

  function Taken(q: Queue, id: nat, by_: Taker): Queue {
    var i := Find(q.pending, id);
    if i == |q.pending| then q
    else q.(pending := q.pending[..i] + q.pending[i + 1..], taken := q.taken[id := by_])
  }

  function Do(q: Queue, e: Event): Queue {
    match e
    case Arrive(m) => Arrived(q, m)
    case Poll(m) => Polled(q, m)
    case HoldExpires(poll) => if poll < q.nextPoll then q.(finished := q.finished + {poll}) else q
    case Close(m, poll) =>
      if poll in q.finished || m !in q.waiters then q
      else q.(waiters := q.waiters[m := Without(q.waiters[m], poll)])
    case Timeout(id) => Taken(q, id, ByTimeout)
    case Answer(m, id) => if Waiting(q.pending, m, id) then Taken(q, id, ByAnswer(m)) else q
  }

  function After(q: Queue, events: seq<Event>): Queue
    decreases |events|
  {
    if events == [] then q else After(Do(q, events[0]), events[1..])
  }
}
