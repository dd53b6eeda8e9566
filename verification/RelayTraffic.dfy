/** Relay traffic dies out.  Acknowledgements and pongs are queued without a sender and call
    for no answer, so a weight over everything queued, drained or on its way goes down with
    every message handled, and without new sends it bounds how many can ever be. */
module RelayTraffic {
  import opened Outcomes
  import opened Relay
  import opened RelayProtocol

  // One for the message, one for the acknowledgement it may earn, one for a pong.
  function Weight(from: Option<Node>, message: Message): nat {
    1 + (if from.Some? then 1 else 0) + (if message.Ping? then 1 else 0)
  }

  function ItemsWeight(items: seq<Item>): nat {
    if items == [] then 0 else Weight(items[0].from, items[0].message) + ItemsWeight(items[1..])
  }

  ghost function StoreWeight<K>(m: map<K, seq<Item>>): nat {
    if m == map[] then 0
    else
      var k :| k in m;
      ItemsWeight(m[k]) + StoreWeight(m - {k})
  }

  ghost function WireWeight(wire: multiset<Post>): nat {
    if wire == multiset{} then 0
    else
      var post :| post in wire;
      Weight(post.from, post.message) + WireWeight(wire - multiset{post})
  }

  ghost function Total(s: State): nat {
    StoreWeight(s.boxes) + StoreWeight(s.inboxes) + WireWeight(s.wire)
  }

  lemma {:induction false} StoreWeightAt<K>(m: map<K, seq<Item>>, k: K)
    requires k in m
    ensures StoreWeight(m) == ItemsWeight(m[k]) + StoreWeight(m - {k})
    decreases |m|
  {
    var j :| j in m && StoreWeight(m) == ItemsWeight(m[j]) + StoreWeight(m - {j});
    if j != k {
      StoreWeightAt(m - {j}, k);
      StoreWeightAt(m - {k}, j);
      assert m - {j} - {k} == m - {k} - {j};
    }
  }

  lemma StoreWeightUpdate<K>(m: map<K, seq<Item>>, k: K, items: seq<Item>)
    ensures StoreWeight(m[k := items]) + ItemsWeight(Box(m, k)) == StoreWeight(m) + ItemsWeight(items)
  {
    StoreWeightAt(m[k := items], k);
    if k in m {
      StoreWeightAt(m, k);
      assert m[k := items] - {k} == m - {k};
    } else {
      assert m[k := items] - {k} == m;
    }
  }

  lemma {:induction false} WireWeightAt(wire: multiset<Post>, post: Post)
    requires post in wire
    ensures WireWeight(wire) == Weight(post.from, post.message) + WireWeight(wire - multiset{post})
    decreases |wire|
  {
    var p :| p in wire && WireWeight(wire) == Weight(p.from, p.message) + WireWeight(wire - multiset{p});
    if p != post {
      WireWeightAt(wire - multiset{p}, post);
      WireWeightAt(wire - multiset{post}, p);
      assert wire - multiset{p} - multiset{post} == wire - multiset{post} - multiset{p};
    }
  }

  lemma {:induction false} ItemsWeightConcat(a: seq<Item>, b: seq<Item>)
    ensures ItemsWeight(a + b) == ItemsWeight(a) + ItemsWeight(b)
  {
    if a == [] {
      assert a + b == b;
    } else {
      assert (a + b)[1..] == a[1..] + b;
      ItemsWeightConcat(a[1..], b);
    }
  }

  // Replies carry no sender and are never pings, so each weighs one.
  lemma {:induction false} PostsWeight(wire: multiset<Post>, url: Url, outgoing: seq<Outgoing>)
    requires forall i | 0 <= i < |outgoing| :: !outgoing[i].message.Ping?
    ensures WireWeight(wire + Posts(url, outgoing)) == WireWeight(wire) + |outgoing|
    decreases |outgoing|
  {
    if outgoing == [] {
      assert wire + Posts(url, outgoing) == wire;
    } else {
      var post := Post(Slot(url, outgoing[0].to), None, outgoing[0].message);
      var more := wire + multiset{post};
      PostsWeight(more, url, outgoing[1..]);
      assert wire + Posts(url, outgoing) == more + Posts(url, outgoing[1..]);
      WireWeightAt(more, post);
      assert more - multiset{post} == wire;
    }
  }

  predicate NewTraffic(step: Step) {
    step.Send? || step.PlainSend?
  }

  lemma DeliverWeight(s: State, post: Post)
    requires post in s.wire
    ensures Total(Next(s, Deliver(post))) <= Total(s)
  {
    WireWeightAt(s.wire, post);
    if !Queued(s.boxes, post.slot, Hash(post.message)) {
      var item := Item(Hash(post.message), post.from, post.message);
      StoreWeightUpdate(s.boxes, post.slot, Box(s.boxes, post.slot) + [item]);
      ItemsWeightConcat(Box(s.boxes, post.slot), [item]);
    }
  }

  lemma DrainWeight(s: State, slot: Slot, replyLost: bool)
    ensures Total(Next(s, Drain(slot, replyLost))) <= Total(s)
  {
    var batch := if replyLost then [] else Box(s.boxes, slot);
    StoreWeightUpdate(s.boxes, slot, []);
    StoreWeightUpdate(s.inboxes, slot.node, Inbox(s, slot.node) + batch);
    ItemsWeightConcat(Inbox(s, slot.node), batch);
  }

  lemma HandleWeight(s: State, node: Node, verdict: Verdict, url: Url)
    requires Enabled(s, Handle(node, verdict, url))
    ensures Total(Next(s, Handle(node, verdict, url))) < Total(s)
  {
    var item := Inbox(s, node)[0];
    StoreWeightUpdate(s.inboxes, node, Inbox(s, node)[1..]);
    PostsWeight(s.wire, url, Replies(node, item, verdict));
  }

  lemma StepWeight(s: State, step: Step)
    requires Enabled(s, step) && !NewTraffic(step)
    ensures Total(Next(s, step)) <= Total(s)
    ensures step.Handle? ==> Total(Next(s, step)) < Total(s)
  {
    match step
    case Deliver(post) => DeliverWeight(s, post);
    case Lose(post) => WireWeightAt(s.wire, post);
    case Drain(slot, replyLost) => DrainWeight(s, slot, replyLost);
    case Handle(node, verdict, url) => HandleWeight(s, node, verdict, url);
    case Crash(node) => StoreWeightUpdate(s.inboxes, node, []);
    case _ =>
  }

  function Handled(steps: seq<Step>): nat {
    if steps == [] then 0 else (if steps[0].Handle? then 1 else 0) + Handled(steps[1..])
  }

  // Without new sends or retries, no run handles more messages than the weight it starts with.
  lemma {:induction false} TrafficDiesOut(s: State, steps: seq<Step>)
    requires CanRun(s, steps) && forall i | 0 <= i < |steps| :: !NewTraffic(steps[i])
    ensures Handled(steps) + Total(Run(s, steps)) <= Total(s)
    decreases |steps|
  {
    if steps != [] {
      StepWeight(s, steps[0]);
      TrafficDiesOut(Next(s, steps[0]), steps[1..]);
    }
  }
}
