/** Guaranteed delivery over lossy relays, as a state machine.  Requests may be lost or
    answered into the void, a drained batch may be lost with its reply, and a receiver may
    crash with messages drained but not handled.  Nodes are honest: they acknowledge only
    what they accepted, and they never send a hand-made acknowledgement. */
module RelayProtocol {
  import opened Outcomes
  import opened Relay

  type Url = string

  // A mailbox: which relay, whose mail.
  datatype Slot = Slot(url: Url, node: Node)

  datatype Post = Post(slot: Slot, from: Option<Node>, message: Message)

  datatype State = State(
    boxes: Boxes<Slot>,
    outboxes: map<Node, Outbox>,
    inboxes: map<Node, seq<Item>>,           // drained, not yet handled
    wire: multiset<Post>,                    // requests on their way
    accepted: set<(Node, Id)>,               // history: who accepted what
    addressed: set<(Node, Id, Node)>)        // history: guaranteed sends, by sender, message, addressee

  function Sent(s: State, node: Node): Outbox {
    if node in s.outboxes then s.outboxes[node] else map[]
  }

  function Inbox(s: State, node: Node): seq<Item> {
    if node in s.inboxes then s.inboxes[node] else []
  }

  datatype Step =
    | Send(sender: Node, to: Node, message: Message, url: Url, now: int)    // guaranteed send, first or repeated
    | PlainSend(slot: Slot, message: Message)
    | Deliver(post: Post)
    | Lose(post: Post)
    | Confirm(sender: Node, id: Id, url: Url)
    | Drain(slot: Slot, replyLost: bool)
    | Handle(node: Node, verdict: Verdict, url: Url)
    | Crash(node: Node)

  predicate Enabled(s: State, step: Step) {
    match step
    case Send(_, _, message, _, _) => !message.Ack?
    case PlainSend(_, message) => !message.Ack?
    case Deliver(post) => post in s.wire
    case Lose(post) => post in s.wire
    case Confirm(_, _, _) => true
    case Drain(_, _) => true
    case Handle(node, verdict, _) => Inbox(s, node) != [] && Possible(Inbox(s, node)[0], verdict)
    case Crash(_) => true
  }

  function Posts(url: Url, outgoing: seq<Outgoing>): multiset<Post> {
    if outgoing == [] then multiset{}
    else multiset{Post(Slot(url, outgoing[0].to), None, outgoing[0].message)} + Posts(url, outgoing[1..])
  }

  function Next(s: State, step: Step): State
    requires Enabled(s, step)
  {
    match step
    case Send(sender, to, message, url, now) =>
      s.(outboxes := s.outboxes[sender := Recorded(Sent(s, sender), to, message, now)],
         wire := s.wire + multiset{Post(Slot(url, to), Some(sender), message)},
         addressed := s.addressed + {(sender, Hash(message), to)})
    case PlainSend(slot, message) =>
      s.(wire := s.wire + multiset{Post(slot, None, message)})
    case Deliver(post) =>
      s.(wire := s.wire - multiset{post}, boxes := Pushed(s.boxes, post.slot, post.message, post.from))
    case Lose(post) =>
      s.(wire := s.wire - multiset{post})
    case Confirm(sender, id, url) =>
      s.(outboxes := s.outboxes[sender := Confirmed(Sent(s, sender), id, url)])
    case Drain(slot, replyLost) =>
      var batch := if replyLost then [] else Box(s.boxes, slot);
      s.(boxes := s.boxes[slot := []], inboxes := s.inboxes[slot.node := Inbox(s, slot.node) + batch])
    case Handle(node, verdict, url) =>
      var item := Inbox(s, node)[0];
      var accepts := !item.message.Ack? && Accepted(verdict);
      s.(inboxes := s.inboxes[node := Inbox(s, node)[1..]],
         outboxes := s.outboxes[node := Consumed(Sent(s, node), item)],
         wire := s.wire + Posts(url, Replies(node, item, verdict)),
         accepted := if accepts then s.accepted + {(node, item.id)} else s.accepted)
    case Crash(node) =>
      s.(inboxes := s.inboxes[node := []])
  }

  ghost predicate CanRun(s: State, steps: seq<Step>)
    decreases |steps|
  {
    steps == [] || (Enabled(s, steps[0]) && CanRun(Next(s, steps[0]), steps[1..]))
  }

  ghost function Run(s: State, steps: seq<Step>): State
    requires CanRun(s, steps)
    decreases |steps|
  {
    if steps == [] then s else Run(Next(s, steps[0]), steps[1..])
  }

  const START := State(map[], map[], map[], multiset{}, {}, {})

  // ---------- the invariant ----------

  // What may be said of a message held for or on its way to `to`: an acknowledgement tells
  // the truth, and a known sender did address the message to `to`.
  ghost predicate Honest(s: State, to: Node, from: Option<Node>, message: Message) {
    && (message.Ack? ==> (message.signer, message.ackId) in s.accepted && (to, message.ackId, message.signer) in s.addressed)
    && (from.Some? ==> (from.value, Hash(message), to) in s.addressed)
  }

  ghost predicate HonestItems(s: State, to: Node, items: seq<Item>) {
    forall i | 0 <= i < |items| :: items[i].id == Hash(items[i].message) && Honest(s, to, items[i].from, items[i].message)
  }

  // An entry was sent to the addressee it names; an acknowledged one was accepted by some
  // node it was sent to.
  ghost predicate SoundEntry(s: State, sender: Node, id: Id, e: Entry) {
    && id == Hash(e.message) && !e.message.Ack?
    && (sender, id, e.to) in s.addressed
    && (e.acked ==> exists n :: (sender, id, n) in s.addressed && (n, id) in s.accepted)
  }

  ghost predicate WireOk(s: State) {
    forall post | post in s.wire :: Honest(s, post.slot.node, post.from, post.message)
  }

  ghost predicate BoxesOk(s: State) {
    forall slot | slot in s.boxes :: HonestItems(s, slot.node, s.boxes[slot])
  }

  ghost predicate InboxesOk(s: State) {
    forall node | node in s.inboxes :: HonestItems(s, node, s.inboxes[node])
  }

  ghost predicate EntriesOk(s: State) {
    forall sender, id | id in Sent(s, sender) :: SoundEntry(s, sender, id, Sent(s, sender)[id])
  }

  ghost predicate AddressedOk(s: State) {
    forall sender, id, to | (sender, id, to) in s.addressed :: id in Sent(s, sender)
  }

  ghost predicate Inv(s: State) {
    WireOk(s) && BoxesOk(s) && InboxesOk(s) && EntriesOk(s) && AddressedOk(s)
  }

  // The history only grows, and what it justified stays justified.
  ghost predicate Later(s: State, t: State) {
    s.accepted <= t.accepted && s.addressed <= t.addressed
  }

  lemma HonestLater(s: State, t: State, to: Node, items: seq<Item>)
    requires Later(s, t) && HonestItems(s, to, items)
    ensures HonestItems(t, to, items)
  {
  }

  lemma SoundLater(s: State, t: State, sender: Node, id: Id, e: Entry)
    requires Later(s, t) && SoundEntry(s, sender, id, e)
    ensures SoundEntry(t, sender, id, e)
  {
    if e.acked {
      var n :| (sender, id, n) in s.addressed && (n, id) in s.accepted;
      assert (sender, id, n) in t.addressed && (n, id) in t.accepted;
    }
  }

  lemma StoresLater(s: State, t: State)
    requires Later(s, t) && Inv(s)
    ensures t.wire <= s.wire ==> WireOk(t)
    ensures t.boxes == s.boxes ==> BoxesOk(t)
    ensures t.inboxes == s.inboxes ==> InboxesOk(t)
    ensures t.outboxes == s.outboxes ==> EntriesOk(t)
  {
    if t.wire <= s.wire {
      forall post | post in t.wire ensures Honest(t, post.slot.node, post.from, post.message) {
        assert post in s.wire;
      }
    }
    if t.outboxes == s.outboxes {
      forall sender, id | id in Sent(t, sender) ensures SoundEntry(t, sender, id, Sent(t, sender)[id]) {
        SoundLater(s, t, sender, id, Sent(s, sender)[id]);
      }
    }
  }

  lemma SendKeepsInv(s: State, step: Step)
    requires Inv(s) && Enabled(s, step) && step.Send?
    ensures Inv(Next(s, step))
  {
    var t := Next(s, step);
    StoresLater(s, t);
    forall sender, id | id in Sent(t, sender) ensures SoundEntry(t, sender, id, Sent(t, sender)[id]) {
      if id in Sent(s, sender) {
        SoundLater(s, t, sender, id, Sent(s, sender)[id]);
      }
    }
  }

  lemma DeliverKeepsInv(s: State, post: Post)
    requires Inv(s) && post in s.wire
    ensures Inv(Next(s, Deliver(post)))
  {
    var t := Next(s, Deliver(post));
    StoresLater(s, t);
    forall slot | slot in t.boxes ensures HonestItems(t, slot.node, t.boxes[slot]) {
      if slot != post.slot {
        assert Box(t.boxes, slot) == Box(s.boxes, slot);
      }
    }
  }

  lemma {:induction false} PostsHonest(s: State, url: Url, outgoing: seq<Outgoing>)
    requires forall i | 0 <= i < |outgoing| :: Honest(s, outgoing[i].to, None, outgoing[i].message)
    ensures forall post | post in Posts(url, outgoing) :: Honest(s, post.slot.node, post.from, post.message)
  {
    if outgoing != [] {
      PostsHonest(s, url, outgoing[1..]);
    }
  }

  // Taking in an item keeps the entries sound: an acknowledgement marks one its addressee accepted.
  lemma ConsumedIsSound(s: State, t: State, node: Node, item: Item, id: Id)
    requires Later(s, t) && EntriesOk(s) && Honest(s, node, item.from, item.message)
    requires id in Sent(s, node)
    ensures SoundEntry(t, node, id, Consumed(Sent(s, node), item)[id])
  {
    SoundLater(s, t, node, id, Sent(s, node)[id]);
  }

  lemma HandleKeepsInv(s: State, node: Node, verdict: Verdict, url: Url)
    requires Inv(s) && Enabled(s, Handle(node, verdict, url))
    ensures Inv(Next(s, Handle(node, verdict, url)))
  {
    var t := Next(s, Handle(node, verdict, url));
    var item := Inbox(s, node)[0];
    StoresLater(s, t);
    assert Honest(s, node, item.from, item.message) && item.id == Hash(item.message);
    PostsHonest(t, url, Replies(node, item, verdict));
    assert WireOk(t);
    forall n | n in t.inboxes ensures HonestItems(t, n, t.inboxes[n]) {
      HonestLater(s, t, n, Inbox(s, n));
    }
    forall sender, id | id in Sent(t, sender) ensures SoundEntry(t, sender, id, Sent(t, sender)[id]) {
      if sender == node {
        ConsumedIsSound(s, t, node, item, id);
      } else {
        SoundLater(s, t, sender, id, Sent(s, sender)[id]);
      }
    }
  }

  lemma ConfirmKeepsInv(s: State, sender: Node, id: Id, url: Url)
    requires Inv(s)
    ensures Inv(Next(s, Confirm(sender, id, url)))
  {
    var t := Next(s, Confirm(sender, id, url));
    StoresLater(s, t);
    forall a, i | i in Sent(t, a) ensures SoundEntry(t, a, i, Sent(t, a)[i]) {
      SoundLater(s, t, a, i, Sent(s, a)[i]);
    }
  }

  lemma DrainKeepsInv(s: State, slot: Slot, replyLost: bool)
    requires Inv(s)
    ensures Inv(Next(s, Drain(slot, replyLost)))
  {
    var t := Next(s, Drain(slot, replyLost));
    StoresLater(s, t);
    assert HonestItems(s, slot.node, Box(s.boxes, slot));
    assert HonestItems(s, slot.node, Inbox(s, slot.node));
  }

  lemma PlainSendKeepsInv(s: State, slot: Slot, message: Message)
    requires Inv(s) && !message.Ack?
    ensures Inv(Next(s, PlainSend(slot, message)))
  {
    StoresLater(s, Next(s, PlainSend(slot, message)));
  }

  lemma NextKeepsInv(s: State, step: Step)
    requires Inv(s) && Enabled(s, step)
    ensures Inv(Next(s, step))
  {
    match step
    case Send(_, _, _, _, _) => SendKeepsInv(s, step);
    case Deliver(post) => DeliverKeepsInv(s, post);
    case Handle(node, verdict, url) => HandleKeepsInv(s, node, verdict, url);
    case Confirm(sender, id, url) => ConfirmKeepsInv(s, sender, id, url);
    case Drain(slot, replyLost) => DrainKeepsInv(s, slot, replyLost);
    case PlainSend(slot, message) => PlainSendKeepsInv(s, slot, message);
    case _ => StoresLater(s, Next(s, step));
  }

  lemma {:induction false} RunKeepsInv(s: State, steps: seq<Step>)
    requires Inv(s) && CanRun(s, steps)
    ensures Inv(Run(s, steps))
    decreases |steps|
  {
    if steps != [] {
      NextKeepsInv(s, steps[0]);
      RunKeepsInv(Next(s, steps[0]), steps[1..]);
    }
  }
}
