/** What the outbox guarantees over every run, and what it does not. */
module RelayGuarantees {
  import opened Outcomes
  import opened Relay
  import opened RelayProtocol

  // ---------- nothing given to the outbox is ever forgotten ----------

  // What is fixed about an entry, or only grows.
  predicate Carries(e: Entry, f: Entry) {
    f.to == e.to && f.message == e.message && f.sentAt == e.sentAt && (e.acked ==> f.acked) && f.attempts >= e.attempts
  }

  predicate Keeps(before: Outbox, after: Outbox, id: Id) {
    id in before ==> id in after && Carries(before[id], after[id])
  }

  lemma ChangesKeep(outbox: Outbox, id: Id, other: Id, to: Node, message: Message, now: int, url: Url)
    ensures Keeps(outbox, Recorded(outbox, to, message, now), id)
    ensures Keeps(outbox, Confirmed(outbox, other, url), id)
    ensures Keeps(outbox, Acked(outbox, other), id)
  {
  }

  // Some other node's outbox says nothing about the sender's.
  lemma StoredAt(s: State, t: State, node: Node, outbox: Outbox, sender: Node, id: Id)
    requires t.outboxes == s.outboxes[node := outbox] && Keeps(Sent(s, node), outbox, id)
    ensures Keeps(Sent(s, sender), Sent(t, sender), id)
  {
  }

  lemma NextKeepsEntry(s: State, step: Step, sender: Node, id: Id)
    requires Enabled(s, step)
    ensures Keeps(Sent(s, sender), Sent(Next(s, step), sender), id)
  {
    var t := Next(s, step);
    match step {
      case Send(node, to, message, url, now) =>
        ChangesKeep(Sent(s, node), id, id, to, message, now, url);
        StoredAt(s, t, node, Recorded(Sent(s, node), to, message, now), sender, id);
      case Confirm(node, other, url) =>
        ChangesKeep(Sent(s, node), id, other, node, Other(""), 0, url);
        StoredAt(s, t, node, Confirmed(Sent(s, node), other, url), sender, id);
      case Handle(node, verdict, url) =>
        HandleKeeps(s, node, Inbox(s, node)[0], id);
        StoredAt(s, t, node, Consumed(Sent(s, node), Inbox(s, node)[0]), sender, id);
      case _ =>
        assert t.outboxes == s.outboxes;
    }
  }

  lemma HandleKeeps(s: State, node: Node, item: Item, id: Id)
    ensures Keeps(Sent(s, node), Consumed(Sent(s, node), item), id)
  {
  }

  lemma {:induction false} RunKeepsEntry(s: State, steps: seq<Step>, sender: Node, id: Id)
    requires CanRun(s, steps)
    ensures Keeps(Sent(s, sender), Sent(Run(s, steps), sender), id)
    decreases |steps|
  {
    if steps != [] {
      NextKeepsEntry(s, steps[0], sender, id);
      RunKeepsEntry(Next(s, steps[0]), steps[1..], sender, id);
    }
  }

  // In every reachable state each guaranteed send has its entry, and an acknowledged entry
  // was accepted by a node the sender did address.
  lemma EveryRunIsSound(steps: seq<Step>, sender: Node, id: Id, to: Node)
    requires CanRun(START, steps)
    ensures var t := Run(START, steps);
      (sender, id, to) in t.addressed ==>
        && id in Sent(t, sender) && Hash(Sent(t, sender)[id].message) == id
        && (Sent(t, sender)[id].acked ==> exists n :: (sender, id, n) in t.addressed && (n, id) in t.accepted)
  {
    RunKeepsInv(START, steps);
  }

  // ---------- when an acknowledgement speaks for the addressee ----------

  // The check that is missing from the outbox: do not send the bytes of an existing entry to
  // another node.
  predicate Guarded(s: State, step: Step) {
    step.Send? && Hash(step.message) in Sent(s, step.sender) ==> Sent(s, step.sender)[Hash(step.message)].to == step.to
  }

  ghost predicate AllGuarded(s: State, steps: seq<Step>)
    requires CanRun(s, steps)
    decreases |steps|
  {
    steps == [] || (Guarded(s, steps[0]) && AllGuarded(Next(s, steps[0]), steps[1..]))
  }

  ghost predicate OneAddressee(s: State) {
    forall sender, id, to | (sender, id, to) in s.addressed :: id in Sent(s, sender) && Sent(s, sender)[id].to == to
  }

  lemma GuardedKeepsOneAddressee(s: State, step: Step)
    requires OneAddressee(s) && Enabled(s, step) && Guarded(s, step)
    ensures OneAddressee(Next(s, step))
  {
    forall sender, id, to | (sender, id, to) in s.addressed
      ensures id in Sent(Next(s, step), sender) && Sent(Next(s, step), sender)[id].to == to
    {
      NextKeepsEntry(s, step, sender, id);
    }
  }

  lemma {:induction false} GuardedRun(s: State, steps: seq<Step>)
    requires OneAddressee(s) && CanRun(s, steps) && AllGuarded(s, steps)
    ensures OneAddressee(Run(s, steps))
    decreases |steps|
  {
    if steps != [] {
      GuardedKeepsOneAddressee(s, steps[0]);
      GuardedRun(Next(s, steps[0]), steps[1..]);
    }
  }

  ghost predicate Truthful(s: State, sender: Node, id: Id) {
    id in Sent(s, sender) && Sent(s, sender)[id].acked ==> (Sent(s, sender)[id].to, id) in s.accepted
  }

  // With the check, acknowledged means accepted by the addressee, in every reachable state.
  lemma GuardedRunsAreTruthful(steps: seq<Step>, sender: Node, id: Id)
    requires CanRun(START, steps) && AllGuarded(START, steps)
    ensures Truthful(Run(START, steps), sender, id)
  {
    RunKeepsInv(START, steps);
    GuardedRun(START, steps);
    OneAddresseeIsTruthful(Run(START, steps), sender, id);
  }

  lemma OneAddresseeIsTruthful(s: State, sender: Node, id: Id)
    requires Inv(s) && OneAddressee(s)
    ensures Truthful(s, sender, id)
  {
    if id in Sent(s, sender) && Sent(s, sender)[id].acked {
      assert SoundEntry(s, sender, id, Sent(s, sender)[id]);
    }
  }

  // ---------- a run that delivers and acknowledges, from any state ----------

  lemma {:induction false} RunConcat(s: State, a: seq<Step>, b: seq<Step>)
    requires CanRun(s, a) && CanRun(Run(s, a), b)
    ensures CanRun(s, a + b) && Run(s, a + b) == Run(Run(s, a), b)
    decreases |a|
  {
    if a == [] {
      assert a + b == b;
    } else {
      assert (a + b)[1..] == a[1..] + b;
      RunConcat(Next(s, a[0]), a[1..], b);
    }
  }

  predicate NoSend(steps: seq<Step>) {
    forall i | 0 <= i < |steps| :: !steps[i].Send?
  }

  lemma RunCons(s: State, step: Step, rest: seq<Step>)
    requires Enabled(s, step) && CanRun(Next(s, step), rest)
    ensures CanRun(s, [step] + rest) && Run(s, [step] + rest) == Run(Next(s, step), rest)
  {
    assert ([step] + rest)[1..] == rest;
  }

  function ItemOf(post: Post): Item {
    Item(Hash(post.message), post.from, post.message)
  }

  // Mailbox and backlog of a node cleared, one request let through and drained again.
  lemma FreshBatch(s: State, post: Post) returns (t: State)
    requires post in s.wire
    ensures var steps := [Drain(post.slot, true), Crash(post.slot.node), Deliver(post), Drain(post.slot, false)];
      CanRun(s, steps) && t == Run(s, steps)
    ensures t.addressed == s.addressed && t.outboxes == s.outboxes && t.accepted == s.accepted
    ensures t.wire == s.wire - multiset{post} && Inbox(t, post.slot.node) == [ItemOf(post)]
  {
    var slot := post.slot;
    var s1 := Next(s, Drain(slot, true));
    var s2 := Next(s1, Crash(slot.node));
    var s3 := Next(s2, Deliver(post));
    t := Next(s3, Drain(slot, false));
    assert Box(s2.boxes, slot) == [];
    assert Box(s3.boxes, slot) == [ItemOf(post)];
    RunCons(s3, Drain(slot, false), []);
    RunCons(s2, Deliver(post), [Drain(slot, false)]);
    RunCons(s1, Crash(slot.node), [Deliver(post), Drain(slot, false)]);
    RunCons(s, Drain(slot, true), [Crash(slot.node), Deliver(post), Drain(slot, false)]);
  }

  lemma Exchange(s: State, post: Post, verdict: Verdict) returns (steps: seq<Step>, t: State)
    requires post in s.wire && Possible(ItemOf(post), verdict)
    ensures CanRun(s, steps) && NoSend(steps) && t == Run(s, steps)
    ensures var node := post.slot.node;
      && t.addressed == s.addressed
      && t.outboxes == s.outboxes[node := Consumed(Sent(s, node), ItemOf(post))]
      && t.wire == s.wire - multiset{post} + Posts(post.slot.url, Replies(node, ItemOf(post), verdict))
      && t.accepted == s.accepted + (if !post.message.Ack? && Accepted(verdict) then {(node, Hash(post.message))} else {})
  {
    var u := FreshBatch(s, post);
    var batch := [Drain(post.slot, true), Crash(post.slot.node), Deliver(post), Drain(post.slot, false)];
    var handle := Handle(post.slot.node, verdict, post.slot.url);
    t := Next(u, handle);
    RunCons(u, handle, []);
    RunConcat(s, batch, [handle]);
    steps := batch + [handle];
  }

  lemma AckIsPosted(to: Node, sender: Node, message: Message, url: Url)
    requires !message.Ack?
    ensures var item, accept := Item(Hash(message), Some(sender), message), Verdict(Acted, false, true);
      Possible(item, accept)
      && Posts(url, Replies(to, item, accept)) == multiset{Post(Slot(url, sender), None, Ack(Hash(message), to))}
  {
    var reply := Outgoing(sender, Ack(Hash(message), to));
    assert [reply][1..] == [];
  }

  lemma There(s: State, sender: Node, to: Node, message: Message, url: Url) returns (steps: seq<Step>, t: State)
    requires !message.Ack? && Post(Slot(url, to), Some(sender), message) in s.wire
    ensures CanRun(s, steps) && NoSend(steps) && t == Run(s, steps)
    ensures Sent(t, sender) == Sent(s, sender) && t.accepted == s.accepted + {(to, Hash(message))}
    ensures Post(Slot(url, sender), None, Ack(Hash(message), to)) in t.wire
  {
    AckIsPosted(to, sender, message, url);
    steps, t := Exchange(s, Post(Slot(url, to), Some(sender), message), Verdict(Acted, false, true));
  }

  lemma Back(s: State, sender: Node, ack: Message, url: Url) returns (steps: seq<Step>, t: State)
    requires ack.Ack? && Post(Slot(url, sender), None, ack) in s.wire
    ensures CanRun(s, steps) && NoSend(steps) && t == Run(s, steps)
    ensures Sent(t, sender) == Acked(Sent(s, sender), ack.ackId) && t.accepted == s.accepted
  {
    steps, t := Exchange(s, Post(Slot(url, sender), None, ack), Verdict(NoHandler, false, false));
  }

  // The message on the wire is let through and accepted, and its acknowledgement gets back.
  lemma ThereAndBack(s: State, sender: Node, to: Node, message: Message, url: Url)
    returns (steps: seq<Step>, t: State)
    requires !message.Ack? && Post(Slot(url, to), Some(sender), message) in s.wire
    ensures CanRun(s, steps) && NoSend(steps) && t == Run(s, steps)
    ensures Sent(t, sender) == Acked(Sent(s, sender), Hash(message))
    ensures t.accepted == s.accepted + {(to, Hash(message))}
  {
    var first, u := There(s, sender, to, message, url);
    var second;
    second, t := Back(u, sender, Ack(Hash(message), to), url);
    steps := first + second;
    RunConcat(s, first, second);
  }

  // One guaranteed send that gets through, is accepted, and whose acknowledgement gets back.
  lemma SendAndAcknowledge(s: State, sender: Node, to: Node, message: Message, url: Url, now: int)
    returns (rest: seq<Step>, t: State)
    requires !message.Ack?
    ensures var send := Send(sender, to, message, url, now);
      CanRun(s, [send] + rest) && NoSend(rest) && t == Run(s, [send] + rest)
    ensures var id := Hash(message);
      && id in Sent(t, sender) && Sent(t, sender)[id].acked
      && Sent(t, sender)[id].to == (if id in Sent(s, sender) then Sent(s, sender)[id].to else to)
      && t.accepted == s.accepted + {(to, id)}
  {
    var send := Send(sender, to, message, url, now);
    rest, t := ThereAndBack(Next(s, send), sender, to, message, url);
    RunCons(s, send, rest);
  }

  // No message is stuck: whatever was lost or crashed, retrying can still get an
  // unacknowledged message accepted by its addressee and acknowledged.
  lemma NeverStuck(s: State, sender: Node, id: Id, url: Url, now: int) returns (steps: seq<Step>)
    requires Inv(s) && id in Sent(s, sender)
    ensures CanRun(s, steps)
    ensures var t, e := Run(s, steps), Sent(s, sender)[id];
      && id in Sent(t, sender) && Sent(t, sender)[id].to == e.to && Sent(t, sender)[id].acked
      && (e.to, id) in t.accepted
  {
    var e := Sent(s, sender)[id];
    assert SoundEntry(s, sender, id, e);
    var rest, t := SendAndAcknowledge(s, sender, e.to, e.message, url, now);
    steps := [Send(sender, e.to, e.message, url, now)] + rest;
  }

  // The check is exact.  For a pending entry its addressee has not accepted, sending the
  // same bytes again is safe in every continuation with no further send exactly when it goes
  // to the same addressee.
  lemma GuardIsExact(s: State, sender: Node, to: Node, message: Message, url: Url, now: int)
    requires Inv(s) && OneAddressee(s) && !message.Ack?
    requires Hash(message) in Sent(s, sender)
    requires !Sent(s, sender)[Hash(message)].acked
    requires (Sent(s, sender)[Hash(message)].to, Hash(message)) !in s.accepted
    ensures var send := Send(sender, to, message, url, now);
      (forall rest | CanRun(s, [send] + rest) && NoSend(rest) :: Truthful(Run(s, [send] + rest), sender, Hash(message)))
      <==> to == Sent(s, sender)[Hash(message)].to
  {
    var send := Send(sender, to, message, url, now);
    if to == Sent(s, sender)[Hash(message)].to {
      forall rest | CanRun(s, [send] + rest) && NoSend(rest) ensures Truthful(Run(s, [send] + rest), sender, Hash(message)) {
        var steps := [send] + rest;
        assert steps[1..] == rest;
        NoSendIsGuarded(Next(s, send), rest);
        GuardedRun(s, steps);
        RunKeepsInv(s, steps);
        OneAddresseeIsTruthful(Run(s, steps), sender, Hash(message));
      }
    } else {
      var rest, t := SendAndAcknowledge(s, sender, to, message, url, now);
      assert !Truthful(Run(s, [send] + rest), sender, Hash(message));
    }
  }

  lemma {:induction false} NoSendIsGuarded(s: State, steps: seq<Step>)
    requires CanRun(s, steps) && NoSend(steps)
    ensures AllGuarded(s, steps)
    decreases |steps|
  {
    if steps != [] {
      NoSendIsGuarded(Next(s, steps[0]), steps[1..]);
    }
  }
}
