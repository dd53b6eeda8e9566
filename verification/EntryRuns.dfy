/** What every run of the entry node's handlers keeps: requests are claimed once and in order, taken
    off the queue by one party only, and never wait while a poll is parked. */
module EntryRuns {
  import opened EntryQueue

  // Requests are on the queue by arrival.
  predicate IdsRise(pending: seq<Req>, arrived: seq<Machine>) {
    && (forall i, j | 0 <= i < j < |pending| :: pending[i].id < pending[j].id)
    && (forall i | 0 <= i < |pending| :: 1 <= pending[i].id <= |arrived| && pending[i].machine == arrived[pending[i].id - 1])
  }

  predicate OnQueue(pending: seq<Req>, id: nat) {
    exists i :: 0 <= i < |pending| && pending[i].id == id
  }

  // Every request is on the queue or was taken off it, never both.
  predicate OneTaker(pending: seq<Req>, arrived: seq<Machine>, taken: map<nat, Taker>) {
    && (forall id: nat | 1 <= id <= |arrived| :: id in taken <==> !OnQueue(pending, id))
    && (forall id | id in taken :: 1 <= id <= |arrived|)
  }

  // An answer takes only a request of the machine it comes from.
  predicate OwnAnswers(arrived: seq<Machine>, taken: map<nat, Taker>) {
    forall id | id in taken && taken[id].ByAnswer? :: 1 <= id <= |arrived| && arrived[id - 1] == taken[id].machine
  }

  predicate Issued(claims: seq<nat>, arrived: seq<Machine>) {
    forall i | 0 <= i < |claims| :: 1 <= claims[i] <= |arrived|
  }

  function MachineOf(arrived: seq<Machine>, id: nat): Machine
    requires 1 <= id <= |arrived|
  {
    arrived[id - 1]
  }

  // Per machine in order of arrival, so none twice.
  predicate InOrder(claims: seq<nat>, arrived: seq<Machine>)
    requires Issued(claims, arrived)
  {
    forall i, j | 0 <= i < j < |claims| && MachineOf(arrived, claims[i]) == MachineOf(arrived, claims[j]) :: claims[i] < claims[j]
  }

  // What is unclaimed comes after everything claimed for its machine.
  predicate OpenComeAfter(pending: seq<Req>, claims: seq<nat>, arrived: seq<Machine>)
    requires Issued(claims, arrived)
  {
    forall p, c | p in pending && c in claims && !p.claimed && MachineOf(arrived, c) == p.machine :: c < p.id
  }

  predicate Once(ids: seq<nat>) {
    forall i, j | 0 <= i < j < |ids| :: ids[i] != ids[j]
  }

  predicate Within(some: seq<nat>, all: seq<nat>) {
    forall x | x in some :: x in all
  }

  // Polls are parked in the order they came.
  predicate PollsRise(waiters: map<Machine, seq<nat>>, nextPoll: nat) {
    forall m | m in waiters :: Rising(waiters[m], nextPoll)
  }

  predicate Rising(list: seq<nat>, bound: nat) {
    && (forall i, j | 0 <= i < j < |list| :: list[i] < list[j])
    && (forall i | 0 <= i < |list| :: list[i] < bound)
  }

  predicate Sound(q: Queue) {
    && IdsRise(q.pending, q.arrived)
    && OneTaker(q.pending, q.arrived, q.taken)
    && OwnAnswers(q.arrived, q.taken)
    && Issued(q.claims, q.arrived) && InOrder(q.claims, q.arrived) && OpenComeAfter(q.pending, q.claims, q.arrived)
    && Once(q.delivered) && Within(q.delivered, q.claims)
  }

  // Between handlers no machine has both a parked poll and an unclaimed request.
  predicate Settled(q: Queue) {
    PollsRise(q.waiters, q.nextPoll) && forall p | p in q.pending && !p.claimed :: Parked(q, p.machine) == []
  }

  predicate Inv(q: Queue) {
    Sound(q) && Settled(q)
  }

  lemma FirstOpenIs(pending: seq<Req>, m: Machine)
    ensures FirstOpen(pending, m) == |pending| <==> forall p | p in pending :: !Open(p, m)
  {
  }

  // ---------- one arrival ----------

  function Appended(q: Queue, m: Machine): Queue {
    q.(pending := q.pending + [Req(|q.arrived| + 1, m, false)], arrived := q.arrived + [m])
  }

  lemma AppendTakers(q: Queue, m: Machine)
    requires Sound(q)
    ensures OneTaker(Appended(q, m).pending, Appended(q, m).arrived, q.taken)
  {
    var r, n := Appended(q, m), |q.pending|;
    forall id: nat | 1 <= id <= |r.arrived|
      ensures id in q.taken <==> !OnQueue(r.pending, id)
    {
      if id == |r.arrived| {
        assert r.pending[n].id == id;
      } else if OnQueue(q.pending, id) {
        var i :| 0 <= i < n && q.pending[i].id == id;
        assert r.pending[i].id == id;
      }
    }
  }

  lemma AppendKeeps(q: Queue, m: Machine)
    requires Sound(q)
    ensures Sound(Appended(q, m))
  {
    AppendTakers(q, m);
    var r := Appended(q, m);
    assert forall c | c in q.claims :: MachineOf(r.arrived, c) == MachineOf(q.arrived, c);
  }

  // ---------- one claim ----------

  lemma ClaimOrder(q: Queue, i: nat, m: Machine)
    requires Sound(q) && i == FirstOpen(q.pending, m) && i < |q.pending|
    ensures Issued(Claim(q, i).claims, q.arrived) && InOrder(Claim(q, i).claims, q.arrived)
    ensures q.pending[i].id !in q.claims
  {
    var id := q.pending[i].id;
    assert q.pending[i] in q.pending;
    forall k | 0 <= k < |q.claims| && MachineOf(q.arrived, q.claims[k]) == m
      ensures q.claims[k] < id
    {
      assert q.claims[k] in q.claims;
    }
  }

  lemma ClaimAfter(q: Queue, i: nat, m: Machine)
    requires Sound(q) && i == FirstOpen(q.pending, m) && i < |q.pending| && Issued(Claim(q, i).claims, q.arrived)
    ensures OpenComeAfter(Claim(q, i).pending, Claim(q, i).claims, q.arrived)
  {
    var r, id := Claim(q, i), q.pending[i].id;
    forall p, c | p in r.pending && c in r.claims && !p.claimed && MachineOf(q.arrived, c) == p.machine
      ensures c < p.id
    {
      var k :| 0 <= k < |r.pending| && r.pending[k] == p;
      assert k != i && q.pending[k] == p;
      assert p in q.pending;
      assert c in q.claims || c == id;
    }
  }

  lemma ClaimTakers(q: Queue, i: nat)
    requires Sound(q) && i < |q.pending|
    ensures IdsRise(Claim(q, i).pending, q.arrived) && OneTaker(Claim(q, i).pending, q.arrived, q.taken)
  {
    var r := Claim(q, i);
    assert forall k | 0 <= k < |q.pending| :: r.pending[k].id == q.pending[k].id;
    forall id: nat | 1 <= id <= |q.arrived|
      ensures OnQueue(r.pending, id) <==> OnQueue(q.pending, id)
    {
      if OnQueue(q.pending, id) {
        var k :| 0 <= k < |q.pending| && q.pending[k].id == id;
        assert r.pending[k].id == id;
      }
    }
  }

  lemma ClaimKeeps(q: Queue, i: nat, m: Machine)
    requires Sound(q) && i == FirstOpen(q.pending, m) && i < |q.pending|
    ensures Sound(Claim(q, i)) && q.pending[i].id !in q.delivered && q.pending[i].id in Claim(q, i).claims
  {
    ClaimOrder(q, i, m);
    ClaimAfter(q, i, m);
    ClaimTakers(q, i);
  }

  lemma HandKeeps(q: Queue, id: nat)
    requires Sound(q) && id !in q.delivered && id in q.claims
    ensures Sound(q.(delivered := q.delivered + [id]))
  {
  }

  // ---------- one request taken off ----------

  function Drop(pending: seq<Req>, i: nat): seq<Req>
    requires i < |pending|
  {
    pending[..i] + pending[i + 1..]
  }

  lemma DropRises(pending: seq<Req>, arrived: seq<Machine>, i: nat)
    requires IdsRise(pending, arrived) && i < |pending|
    ensures IdsRise(Drop(pending, i), arrived)
    ensures forall p | p in Drop(pending, i) :: p in pending
  {
  }

  lemma DropRemoves(pending: seq<Req>, arrived: seq<Machine>, i: nat, id: nat)
    requires IdsRise(pending, arrived) && i < |pending|
    ensures OnQueue(Drop(pending, i), id) <==> OnQueue(pending, id) && id != pending[i].id
  {
    var r := Drop(pending, i);
    if OnQueue(pending, id) && id != pending[i].id {
      var k :| 0 <= k < |pending| && pending[k].id == id;
      assert r[if k < i then k else k - 1].id == id;
    }
    if OnQueue(r, id) {
      var k :| 0 <= k < |r| && r[k].id == id;
      assert pending[if k < i then k else k + 1].id == id;
    }
  }

  lemma TakeTakers(q: Queue, i: nat, by_: Taker)
    requires Sound(q) && i < |q.pending|
    ensures OneTaker(Drop(q.pending, i), q.arrived, q.taken[q.pending[i].id := by_])
  {
    forall id: nat | 1 <= id <= |q.arrived|
      ensures id in q.taken[q.pending[i].id := by_] <==> !OnQueue(Drop(q.pending, i), id)
    {
      DropRemoves(q.pending, q.arrived, i, id);
    }
  }

  lemma TakeKeeps(q: Queue, id: nat, by_: Taker)
    requires Sound(q) && (by_.ByAnswer? ==> Waiting(q.pending, by_.machine, id))
    ensures Sound(Taken(q, id, by_))
    ensures forall p | p in Taken(q, id, by_).pending :: p in q.pending
  {
    var i := Find(q.pending, id);
    if i < |q.pending| {
      TakeTakers(q, i, by_);
      DropRises(q.pending, q.arrived, i);
    }
  }

  // ---------- every event ----------

  lemma {:induction false} WithoutRises(list: seq<nat>, poll: nat, bound: nat)
    requires Rising(list, bound)
    ensures Rising(Without(list, poll), bound)
  {
    if list != [] {
      WithoutRises(list[1..], poll, bound);
      WithoutShrinks(list[1..], poll);
      forall r | r in Without(list[1..], poll) ensures list[0] < r {
        assert r in list[1..];
      }
    }
  }

  lemma {:induction false} WithoutShrinks(list: seq<nat>, poll: nat)
    ensures |Without(list, poll)| <= |list|
    ensures forall r | r in Without(list, poll) :: r in list && r != poll
    ensures forall r | r in list && r != poll :: r in Without(list, poll)
  {
    if list != [] {
      WithoutShrinks(list[1..], poll);
    }
  }

  // The only unclaimed request a woken machine has is the one that just came.
  lemma ArrivalIsFirst(q: Queue, m: Machine)
    requires Inv(q) && Parked(q, m) != []
    ensures FirstOpen(Appended(q, m).pending, m) == |q.pending|
  {
    var r := Appended(q, m);
    assert Open(r.pending[|q.pending|], m);
    forall k | 0 <= k < |q.pending|
      ensures !Open(r.pending[k], m)
    {
      assert r.pending[k] == q.pending[k] && q.pending[k] in q.pending;
    }
  }

  // An arrival with polls parked is claimed at once; the longest parked poll gets it, if it is
  // still there to get it.
  function Handed(q: Queue, m: Machine): Queue
    requires Parked(q, m) != []
  {
    var list := Parked(q, m);
    Resolve(Claim(Appended(q, m), |q.pending|).(waiters := q.waiters[m := list[1..]]), list[0], |q.arrived| + 1)
  }

  lemma ArrivalIs(q: Queue, m: Machine)
    requires Inv(q)
    ensures Arrived(q, m) == if Parked(q, m) == [] then Appended(q, m) else Handed(q, m)
  {
    if Parked(q, m) != [] {
      ArrivalIsFirst(q, m);
    }
  }

  lemma HandedIsSound(q: Queue, m: Machine)
    requires Inv(q) && Parked(q, m) != []
    ensures Sound(Handed(q, m))
  {
    AppendKeeps(q, m);
    ArrivalIsFirst(q, m);
    var r, id := Appended(q, m), |q.arrived| + 1;
    var claimed := Claim(r, |q.pending|);
    ClaimKeeps(r, |q.pending|, m);
    HandKeeps(claimed, id);
    if Parked(q, m)[0] in q.finished {
      SoundIsOfRequests(claimed, Handed(q, m));
    } else {
      SoundIsOfRequests(claimed.(delivered := claimed.delivered + [id]), Handed(q, m));
    }
  }

  lemma SoundIsOfRequests(q: Queue, r: Queue)
    requires Sound(q)
    requires r.pending == q.pending && r.arrived == q.arrived && r.taken == q.taken
    requires r.claims == q.claims && r.delivered == q.delivered
    ensures Sound(r)
  {
  }

  lemma HandedIsSettled(q: Queue, m: Machine)
    requires Inv(q) && Parked(q, m) != []
    ensures Settled(Handed(q, m))
  {
    var r := Handed(q, m);
    forall p | p in r.pending && !p.claimed
      ensures Parked(r, p.machine) == []
    {
      assert p in q.pending;
    }
  }

  lemma ArriveKeeps(q: Queue, m: Machine)
    requires Inv(q)
    ensures Inv(Arrived(q, m))
  {
    ArrivalIs(q, m);
    if Parked(q, m) == [] {
      AppendKeeps(q, m);
    } else {
      HandedIsSound(q, m);
      HandedIsSettled(q, m);
    }
  }

  lemma ClaimSettles(q: Queue, i: nat)
    requires Settled(q) && i < |q.pending|
    ensures Settled(Claim(q, i))
  {
    forall p | p in Claim(q, i).pending && !p.claimed
      ensures Parked(q, p.machine) == []
    {
      assert p in q.pending;
    }
  }

  lemma PollKeeps(q: Queue, m: Machine)
    requires Inv(q)
    ensures Inv(Polled(q, m))
  {
    var i := FirstOpen(q.pending, m);
    if i < |q.pending| {
      ClaimKeeps(q, i, m);
      ClaimSettles(q, i);
      HandKeeps(Claim(q, i), q.pending[i].id);
    } else {
      FirstOpenIs(q.pending, m);
    }
  }

  lemma CloseKeeps(q: Queue, m: Machine, poll: nat)
    requires Inv(q)
    ensures Inv(Do(q, Close(m, poll)))
  {
    if m in q.waiters {
      WithoutShrinks(q.waiters[m], poll);
      WithoutRises(q.waiters[m], poll, q.nextPoll);
    }
  }

  lemma EventKeeps(q: Queue, e: Event)
    requires Inv(q)
    ensures Inv(Do(q, e))
  {
    match e
    case Arrive(m) => ArriveKeeps(q, m);
    case Poll(m) => PollKeeps(q, m);
    case HoldExpires(_) =>
    case Close(m, poll) => CloseKeeps(q, m, poll);
    case Timeout(id) => TakeKeeps(q, id, ByTimeout);
    case Answer(m, id) =>
      if Waiting(q.pending, m, id) {
        TakeKeeps(q, id, ByAnswer(m));
      }
  }

  lemma {:induction false} RunKeeps(q: Queue, events: seq<Event>)
    requires Inv(q)
    ensures Inv(After(q, events))
    decreases |events|
  {
    if events != [] {
      EventKeeps(q, events[0]);
      RunKeeps(Do(q, events[0]), events[1..]);
    }
  }

  // ---------- the results ----------

  // Every run: no machine has both a parked poll and an unclaimed request; a machine's requests
  // are claimed in order of arrival, each at most once and handed over at most once; each is on
  // the queue still or was taken off it by an answer of its own machine or by its timeout; polls are
  // parked in the order they came.
  lemma EveryRunIsSound(events: seq<Event>)
    ensures var q := After(EMPTY, events);
      && Sound(q) && Once(q.claims) && PollsRise(q.waiters, q.nextPoll)
      && (forall p | p in q.pending && !p.claimed :: Parked(q, p.machine) == [])
  {
    RunKeeps(EMPTY, events);
    OrderIsOnce(After(EMPTY, events));
  }

  lemma OrderIsOnce(q: Queue)
    requires Sound(q)
    ensures Once(q.claims)
  {
    forall i, j | 0 <= i < j < |q.claims|
      ensures q.claims[i] != q.claims[j]
    {
      assert MachineOf(q.arrived, q.claims[i]) == MachineOf(q.arrived, q.claims[j]) ==> q.claims[i] < q.claims[j];
    }
  }

  lemma TakenStays(q: Queue, e: Event, id: nat)
    requires Inv(q) && id in q.taken
    ensures id in Do(q, e).taken && Do(q, e).taken[id] == q.taken[id]
  {
    match e
    case Arrive(m) => ArrivalIs(q, m);
    case Timeout(other) => NotFound(q, id);
    case Answer(_, other) => NotFound(q, id);
    case _ =>
  }

  lemma NotFound(q: Queue, id: nat)
    requires Sound(q) && id in q.taken
    ensures Find(q.pending, id) == |q.pending|
  {
    assert !OnQueue(q.pending, id);
  }

  // Whoever takes a request is the only one ever to: a late answer is turned away and a late
  // timeout finds nothing.
  lemma {:induction false} TakenIsFinal(q: Queue, events: seq<Event>, id: nat, m: Machine)
    requires Inv(q) && id in q.taken
    ensures var r := After(q, events);
      && id in r.taken && r.taken[id] == q.taken[id]
      && Do(r, Answer(m, id)) == r && Do(r, Timeout(id)) == r
    decreases |events|
  {
    if events == [] {
      NotFound(q, id);
    } else {
      TakenStays(q, events[0], id);
      EventKeeps(q, events[0]);
      TakenIsFinal(Do(q, events[0]), events[1..], id, m);
    }
  }

  // ---------- a closed connection ----------

  // Only the poll that closed is unparked, and only when it has not been told anything; the others
  // stay where they are.
  lemma ClosedIff(q: Queue, m: Machine, poll: nat, other: nat)
    ensures var r := Do(q, Close(m, poll));
      && (other in Parked(r, m) <==> other in Parked(q, m) && (other != poll || poll in q.finished))
      && forall n | n != m :: Parked(r, n) == Parked(q, n)
  {
    if m in q.waiters {
      WithoutShrinks(q.waiters[m], poll);
    }
  }

  // ---------- claimed is not yet delivered ----------

  lemma LostStays(q: Queue, e: Event, id: nat)
    requires Inv(q) && id in q.claims && id !in q.delivered
    ensures id in Do(q, e).claims && id !in Do(q, e).delivered
  {
    match e
    case Arrive(m) => ArrivalIs(q, m);
    case Poll(m) =>
      var i := FirstOpen(q.pending, m);
      if i < |q.pending| {
        ClaimKeeps(q, i, m);
        ClaimOrder(q, i, m);
      }
    case _ =>
  }

  lemma {:induction false} LostForGood(q: Queue, events: seq<Event>, id: nat)
    requires Inv(q) && id in q.claims && id !in q.delivered
    ensures id !in After(q, events).delivered
    decreases |events|
  {
    if events != [] {
      LostStays(q, events[0], id);
      EventKeeps(q, events[0]);
      LostForGood(Do(q, events[0]), events[1..], id);
    }
  }

  lemma {:induction false} DeliveredStays(q: Queue, events: seq<Event>, id: nat)
    requires Inv(q) && id in q.delivered
    ensures id in After(q, events).delivered
    decreases |events|
  {
    if events != [] {
      if events[0].Arrive? {
        ArrivalIs(q, events[0].machine);
      }
      EventKeeps(q, events[0]);
      DeliveredStays(Do(q, events[0]), events[1..], id);
    }
  }

  // A request that comes while polls are parked reaches the machine, now or ever, exactly when
  // the longest parked poll has not been told there is nothing.
  lemma ReachesIffHeadIsLive(q: Queue, m: Machine, events: seq<Event>)
    requires Inv(q) && Parked(q, m) != []
    ensures |q.arrived| + 1 in After(q, [Arrive(m)] + events).delivered <==> Parked(q, m)[0] !in q.finished
  {
    var r, id := Arrived(q, m), |q.arrived| + 1;
    assert ([Arrive(m)] + events)[1..] == events;
    ArrivalIs(q, m);
    ArriveKeeps(q, m);
    assert id !in q.delivered by {
      assert id !in q.claims;
    }
    if Parked(q, m)[0] in q.finished {
      LostForGood(r, events, id);
    } else {
      DeliveredStays(r, events, id);
    }
  }

  lemma AfterTwo(q: Queue, first: Event, second: Event, rest: seq<Event>)
    ensures After(q, [first, second] + rest) == After(Do(Do(q, first), second), rest)
  {
    var all := [first, second] + rest;
    assert all[1..] == [second] + rest && all[1..][1..] == rest;
  }

  lemma IdlePollIsStale(q: Queue, m: Machine)
    requires Inv(q) && Parked(q, m) == [] && FirstOpen(q.pending, m) == |q.pending|
    ensures var r := Do(Do(q, Poll(m)), HoldExpires(q.nextPoll));
      Inv(r) && Parked(r, m) == [q.nextPoll] && q.nextPoll in r.finished && r.arrived == q.arrived
  {
    PollKeeps(q, m);
    EventKeeps(Polled(q, m), HoldExpires(q.nextPoll));
  }

  // A poll that outlasts its hold stays parked, and the machine's next request is lost to it.
  lemma IdlePollLosesNext(q: Queue, m: Machine, events: seq<Event>)
    requires Inv(q) && Parked(q, m) == [] && FirstOpen(q.pending, m) == |q.pending|
    ensures |q.arrived| + 1 !in After(q, [Poll(m), HoldExpires(q.nextPoll)] + ([Arrive(m)] + events)).delivered
  {
    AfterTwo(q, Poll(m), HoldExpires(q.nextPoll), [Arrive(m)] + events);
    IdlePollIsStale(q, m);
    StaleHeadLoses(Do(Do(q, Poll(m)), HoldExpires(q.nextPoll)), m, q.nextPoll, |q.arrived| + 1, events);
  }

  lemma StaleHeadLoses(q: Queue, m: Machine, poll: nat, id: nat, events: seq<Event>)
    requires Inv(q) && Parked(q, m) == [poll] && poll in q.finished && id == |q.arrived| + 1
    ensures id !in After(q, [Arrive(m)] + events).delivered
  {
    ReachesIffHeadIsLive(q, m, events);
  }

  // ---------- as long as no hold runs out, nothing is lost ----------

  predicate LiveList(list: seq<nat>, finished: set<nat>, nextPoll: nat) {
    Once(list) && forall r | r in list :: r < nextPoll && r !in finished
  }

  predicate Apart(waiters: map<Machine, seq<nat>>) {
    forall m, n, r | m in waiters && n in waiters && r in waiters[m] && r in waiters[n] :: m == n
  }

  predicate Lively(q: Queue) {
    && (forall m | m in q.waiters :: LiveList(q.waiters[m], q.finished, q.nextPoll))
    && Apart(q.waiters)
    && (forall r | r in q.finished :: r < q.nextPoll)
    && q.claims == q.delivered
  }

  lemma OnceCons(x: nat, rest: seq<nat>)
    ensures Once([x] + rest) <==> Once(rest) && x !in rest
  {
    var list := [x] + rest;
    if Once(list) {
      forall i | 0 <= i < |rest|
        ensures rest[i] != x
      {
        assert list[0] != list[i + 1];
      }
      forall i, j | 0 <= i < j < |rest|
        ensures rest[i] != rest[j]
      {
        assert list[i + 1] != list[j + 1];
      }
    }
  }

  lemma {:induction false} WithoutOnce(list: seq<nat>, poll: nat)
    requires Once(list)
    ensures Once(Without(list, poll))
  {
    if list != [] {
      var x, rest := list[0], list[1..];
      assert list == [x] + rest;
      OnceCons(x, rest);
      WithoutOnce(rest, poll);
      WithoutShrinks(rest, poll);
      OnceCons(x, Without(rest, poll));
    }
  }

  lemma LiveTail(list: seq<nat>, finished: set<nat>, nextPoll: nat)
    requires list != [] && LiveList(list, finished, nextPoll)
    ensures LiveList(list[1..], finished + {list[0]}, nextPoll)
  {
    assert list == [list[0]] + list[1..];
    OnceCons(list[0], list[1..]);
    assert forall r | r in list[1..] :: r in list;
  }

  lemma LiveGrows(list: seq<nat>, finished: set<nat>, nextPoll: nat)
    requires LiveList(list, finished, nextPoll) && nextPoll !in finished
    ensures LiveList(list + [nextPoll], finished, nextPoll + 1)
    ensures LiveList(list, finished, nextPoll + 1)
  {
  }

  lemma LivelyArrival(q: Queue, m: Machine)
    requires Inv(q) && Lively(q)
    ensures Lively(Arrived(q, m))
  {
    ArrivalIs(q, m);
    if Parked(q, m) != [] {
      var list, r := q.waiters[m], Handed(q, m);
      LiveTail(list, q.finished, q.nextPoll);
      assert list[0] in list;
      assert r.waiters == q.waiters[m := list[1..]] && r.finished == q.finished + {list[0]};
      forall n | n in r.waiters
        ensures LiveList(r.waiters[n], r.finished, r.nextPoll)
      {
        if n != m {
          assert LiveList(q.waiters[n], q.finished, q.nextPoll) && list[0] !in q.waiters[n];
        }
      }
      ApartShrinks(q.waiters, m, list[1..]);
    }
  }

  lemma ApartShrinks(waiters: map<Machine, seq<nat>>, m: Machine, list: seq<nat>)
    requires Apart(waiters) && m in waiters && forall r | r in list :: r in waiters[m]
    ensures Apart(waiters[m := list])
  {
  }

  lemma ApartGrows(waiters: map<Machine, seq<nat>>, m: Machine, list: seq<nat>, poll: nat)
    requires Apart(waiters) && forall n | n in waiters :: poll !in waiters[n]
    requires list == if m in waiters then waiters[m] else []
    ensures Apart(waiters[m := list + [poll]])
  {
  }

  lemma LivelyPoll(q: Queue, m: Machine)
    requires Inv(q) && Lively(q)
    ensures Lively(Polled(q, m))
  {
    var i := FirstOpen(q.pending, m);
    if i == |q.pending| {
      var list, r := Parked(q, m), Polled(q, m);
      ApartGrows(q.waiters, m, list, q.nextPoll);
      forall n | n in r.waiters
        ensures LiveList(r.waiters[n], r.finished, r.nextPoll)
      {
        LiveGrows(Parked(q, n), q.finished, q.nextPoll);
      }
    }
  }

  lemma LivelyClose(q: Queue, m: Machine, poll: nat)
    requires Inv(q) && Lively(q)
    ensures Lively(Do(q, Close(m, poll)))
  {
    if m in q.waiters {
      WithoutShrinks(q.waiters[m], poll);
      WithoutOnce(q.waiters[m], poll);
      ApartShrinks(q.waiters, m, Without(q.waiters[m], poll));
    }
  }

  // With no hold running out, everything claimed was handed to a poll still there.
  lemma {:induction false} NoHoldNoLoss(q: Queue, events: seq<Event>)
    requires Inv(q) && Lively(q) && forall e | e in events :: !e.HoldExpires?
    ensures After(q, events).claims == After(q, events).delivered
    decreases |events|
  {
    if events != [] {
      match events[0] {
        case Arrive(m) => LivelyArrival(q, m);
        case Poll(m) => LivelyPoll(q, m);
        case Close(m, poll) => LivelyClose(q, m, poll);
        case _ =>
      }
      EventKeeps(q, events[0]);
      NoHoldNoLoss(Do(q, events[0]), events[1..]);
    }
  }
}
