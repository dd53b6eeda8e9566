/** The relay's mailboxes and a node's outbox, as the stores they are: loaded, changed in
    place and saved.  Message identity is symbolic: a hash is its preimage. */
module Relay {
  import opened Outcomes

  type Node = string

  // The content-addressed identity of a message.
  datatype Id = Hash(of: Message)

  datatype Message =
    | Ping(nodeId: Node, echo: string)
    | Pong(nodeId: Node, echo: string)
    | Announce(nodeId: Node, endpoints: seq<string>)
    | Other(text: string)
    | Ack(ackId: Id, signer: Node)

  datatype Item = Item(id: Id, from: Option<Node>, message: Message)

  datatype Entry = Entry(to: Node, message: Message, sentAt: int, mailbox: Option<string>, acked: bool, attempts: nat)

  // Queued items by mailbox; K names a mailbox.
  type Boxes<K> = map<K, seq<Item>>

  type Outbox = map<Id, Entry>

  function Box<K>(boxes: Boxes<K>, box: K): seq<Item> {
    if box in boxes then boxes[box] else []
  }

  predicate Queued<K>(boxes: Boxes<K>, box: K, id: Id) {
    exists i | 0 <= i < |Box(boxes, box)| :: Box(boxes, box)[i].id == id
  }

  // Queueing a message that is still queued changes nothing; any other comes last.
  function Pushed<K(!new)>(boxes: Boxes<K>, box: K, message: Message, from: Option<Node>): (r: Boxes<K>)
    ensures Queued(r, box, Hash(message))
    ensures Box(r, box) == Box(boxes, box) || Box(r, box) == Box(boxes, box) + [Item(Hash(message), from, message)]
    ensures Queued(boxes, box, Hash(message)) ==> Box(r, box) == Box(boxes, box)
    ensures forall other, id | Queued(boxes, other, id) :: Queued(r, other, id)
    ensures forall other | other != box :: Box(r, other) == Box(boxes, other)
  {
    if Queued(boxes, box, Hash(message)) then boxes
    else
      var r := boxes[box := Box(boxes, box) + [Item(Hash(message), from, message)]];
      assert Box(r, box)[|Box(boxes, box)|].id == Hash(message);
      assert forall other, id | Queued(boxes, other, id) :: Queued(r, other, id) by {
        forall other, id | Queued(boxes, other, id) ensures Queued(r, other, id) {
          var i :| 0 <= i < |Box(boxes, other)| && Box(boxes, other)[i].id == id;
          assert Box(r, other)[i].id == id;
        }
      }
      r
  }

  // The first send of a message fixes its entry; sending it again keeps that entry.
  function Recorded(outbox: Outbox, to: Node, message: Message, now: int): Outbox {
    if Hash(message) in outbox then outbox
    else outbox[Hash(message) := Entry(to, message, now, None, false, 0)]
  }

  function Confirmed(outbox: Outbox, id: Id, url: string): Outbox {
    if id !in outbox then outbox
    else outbox[id := outbox[id].(mailbox := Some(url), attempts := outbox[id].attempts + 1)]
  }

  function Acked(outbox: Outbox, id: Id): Outbox {
    if id !in outbox then outbox else outbox[id := outbox[id].(acked := true)]
  }

  // What a send leaves: every other entry as it was, and of the message sent the first addressee,
  // bytes and time, with the attempts that reached a relay counted and the last such relay named.
  lemma SendLeaves(outbox: Outbox, to: Node, message: Message, now: int, mailbox: Option<string>)
    ensures var id, recorded := Hash(message), Recorded(outbox, to, message, now);
      var after := if mailbox.None? then recorded else Confirmed(recorded, id, mailbox.value);
      && after.Keys == outbox.Keys + {id}
      && (forall other | other in outbox && other != id :: after[other] == outbox[other])
      && (id !in outbox ==>
            && after[id].to == to && after[id].message == message && after[id].sentAt == now && !after[id].acked
            && after[id].mailbox == mailbox && after[id].attempts == if mailbox.Some? then 1 else 0)
      && (id in outbox ==>
            && after[id].to == outbox[id].to && after[id].message == outbox[id].message
            && after[id].sentAt == outbox[id].sentAt && after[id].acked == outbox[id].acked
            && after[id].mailbox == (if mailbox.Some? then mailbox else outbox[id].mailbox)
            && after[id].attempts == outbox[id].attempts + if mailbox.Some? then 1 else 0)
  {
  }

  class RelayNode {
    const url: string
    var boxes: Boxes<Node>

    constructor (url: string)
      ensures this.url == url && boxes == map[]
    {
      this.url := url;
      boxes := map[];
    }

    method MailPush(node: Node, message: Message, from: Option<Node>) returns (dedup: bool)
      modifies this
      ensures boxes == Pushed(old(boxes), node, message, from)
      ensures dedup == Queued(old(boxes), node, Hash(message))
    {
      var id := Hash(message);
      if node !in boxes {
        boxes := boxes[node := []];
      }
      dedup := false;
      var i := 0;
      while i < |boxes[node]|
        invariant i <= |boxes[node]|
        invariant forall j | 0 <= j < i :: boxes[node][j].id != id
      {
        if boxes[node][i].id == id {
          return true;
        }
        i := i + 1;
      }
      boxes := boxes[node := boxes[node] + [Item(id, from, message)]];
    }

    method MailDrain(node: Node) returns (out: seq<Item>)
      modifies this
      ensures out == Box(old(boxes), node) && Box(boxes, node) == []
      ensures forall other | other != node :: Box(boxes, other) == Box(old(boxes), other)
    {
      out := if node in boxes then boxes[node] else [];
      if node in boxes {
        boxes := boxes[node := []];
      }
    }
  }

  // ---------- the sender's side ----------

  // What became of one POST to a relay.
  datatype Reach = NeverArrived | ReplyLost | Refused | Answered

  // The mailboxes of several relays.
  type Mail = seq<Boxes<Node>>

  ghost function MailOf(relays: seq<RelayNode>): (mail: Mail)
    reads relays
    ensures |mail| == |relays| && forall k | 0 <= k < |relays| :: mail[k] == relays[k].boxes
  {
    seq(|relays|, k requires 0 <= k < |relays| reads relays => relays[k].boxes)
  }

  // Nothing that was queued has been lost, and what has come in is among these messages, each for
  // its node; with none of them nothing has changed at all.
  ghost predicate Grown(before: Mail, after: Mail, wanted: set<(Node, Id)>) {
    && |after| == |before|
    && (forall k, node, id | 0 <= k < |before| && Queued(before[k], node, id) :: Queued(after[k], node, id))
    && (forall k, node, id | 0 <= k < |after| && Queued(after[k], node, id) ::
          Queued(before[k], node, id) || (node, id) in wanted)
    && (wanted == {} ==> after == before)
  }

  lemma GrownTwice(a: Mail, b: Mail, c: Mail, first: set<(Node, Id)>, second: set<(Node, Id)>, both: set<(Node, Id)>)
    requires Grown(a, b, first) && Grown(b, c, second) && first + second <= both
    ensures Grown(a, c, both)
  {
  }

  lemma PushGrows(before: Mail, after: Mail, to: Node, message: Message, from: Option<Node>)
    requires |after| == |before|
    requires forall k | 0 <= k < |after| :: after[k] == before[k] || after[k] == Pushed(before[k], to, message, from)
    ensures Grown(before, after, {(to, Hash(message))})
  {
  }

  predicate QueuedIn(mail: Mail, node: Node, id: Id) {
    exists k | 0 <= k < |mail| :: Queued(mail[k], node, id)
  }

  // Every one of these messages is queued for the addressee of its entry.
  predicate AllQueued(mail: Mail, ids: set<Id>, outbox: Outbox) {
    forall id | id in ids :: id in outbox && QueuedIn(mail, outbox[id].to, id)
  }

  lemma StillQueued(a: Mail, b: Mail, wanted: set<(Node, Id)>, ids: set<Id>, outbox: Outbox)
    requires Grown(a, b, wanted) && AllQueued(a, ids, outbox)
    ensures AllQueued(b, ids, outbox)
  {
    forall id | id in ids ensures QueuedIn(b, outbox[id].to, id) {
      var k :| 0 <= k < |a| && Queued(a[k], outbox[id].to, id);
      assert Queued(b[k], outbox[id].to, id);
    }
  }

  // The entries not yet acknowledged and at least this old, each with its addressee.
  function Pending(outbox: Outbox, now: int, minAge: int): set<(Node, Id)> {
    set id | id in outbox && !outbox[id].acked && now - outbox[id].sentAt >= minAge :: (outbox[id].to, id)
  }

  // Whether a retry at this time takes up the entry.
  predicate Due(e: Entry, now: int, minAge: int) {
    !e.acked && now - e.sentAt >= minAge
  }

  // Those of the entries that a retry sends and gets answered.
  function Answers(outbox: Outbox, ids: set<Id>, reach: Id -> seq<Reach>, now: int, minAge: int): set<Id>
    requires ids <= outbox.Keys
  {
    set id | id in ids && Due(outbox[id], now, minAge) && Answered in reach(id)
  }

  lemma AnswersOneMore(outbox: Outbox, ids: set<Id>, id: Id, reach: Id -> seq<Reach>, now: int, minAge: int)
    requires ids <= outbox.Keys && id in outbox
    ensures Answers(outbox, ids + {id}, reach, now, minAge)
      == Answers(outbox, ids, reach, now, minAge)
      + if Due(outbox[id], now, minAge) && Answered in reach(id) then {id} else {}
  {
  }

  // The same entries with the same addressees, bytes and acknowledgements.
  predicate SameSends(before: Outbox, after: Outbox) {
    && after.Keys == before.Keys
    && forall id | id in after :: after[id] == before[id].(mailbox := after[id].mailbox, attempts := after[id].attempts)
  }

  lemma ConfirmingKeepsSends(before: Outbox, after: Outbox, id: Id, url: string)
    requires SameSends(before, after)
    ensures SameSends(before, Confirmed(after, id, url))
  {
  }

  // How far a retry has come: those of the entries looked at that were due and answered are
  // queued, and nothing else has come in.
  ghost predicate RetriedSoFar(start: Mail, mail: Mail, outbox: Outbox, ids: set<Id>, reach: Id -> seq<Reach>, now: int,
                               minAge: int, retried: set<Id>)
  {
    && ids <= outbox.Keys && retried == Answers(outbox, ids, reach, now, minAge)
    && AllQueued(mail, retried, outbox) && Grown(start, mail, Pending(outbox, now, minAge))
  }

  lemma RetriedOneMore(start: Mail, before: Mail, after: Mail, outbox: Outbox, ids: set<Id>, id: Id,
                       reach: Id -> seq<Reach>, now: int, minAge: int, retried: set<Id>, got: bool)
    requires RetriedSoFar(start, before, outbox, ids, reach, now, minAge, retried) && id in outbox
    requires Grown(before, after, if Due(outbox[id], now, minAge) then {(outbox[id].to, id)} else {})
    requires got == (Due(outbox[id], now, minAge) && Answered in reach(id))
    requires got ==> QueuedIn(after, outbox[id].to, id)
    ensures RetriedSoFar(start, after, outbox, ids + {id}, reach, now, minAge, if got then retried + {id} else retried)
  {
    AnswersOneMore(outbox, ids, id, reach, now, minAge);
    var pending, wanted := Pending(outbox, now, minAge), if Due(outbox[id], now, minAge) then {(outbox[id].to, id)} else {};
    StillQueued(before, after, wanted, retried, outbox);
    GrownTwice(start, before, after, pending, wanted, pending);
  }

  predicate FirstAnswer(reach: seq<Reach>, k: nat) {
    k < |reach| && reach[k] == Answered && Answered !in reach[..k]
  }

  // One attempt at one relay, after others that left the mailboxes as they are.
  method Post(relays: seq<RelayNode>, k: nat, reach: Reach, me: Node, to: Node, message: Message, ghost start: Mail)
    requires k < |relays| && Grown(start, MailOf(relays), {(to, Hash(message))})
    modifies relays
    ensures Grown(start, MailOf(relays), {(to, Hash(message))})
    ensures reach == ReplyLost || reach == Answered ==> Queued(relays[k].boxes, to, Hash(message))
    ensures reach == NeverArrived || reach == Refused ==> MailOf(relays) == old(MailOf(relays))
  {
    ghost var before, wanted := MailOf(relays), {(to, Hash(message))};
    if reach == ReplyLost || reach == Answered {
      var _ := relays[k].MailPush(to, message, Some(me));
    }
    PushGrows(before, MailOf(relays), to, message, Some(me));
    GrownTwice(start, before, MailOf(relays), wanted, wanted, wanted);
  }

  // One relay after the other, up to the first that answers.
  method PostInTurn(relays: seq<RelayNode>, reach: seq<Reach>, me: Node, to: Node, message: Message) returns (k: nat)
    requires |reach| == |relays|
    modifies relays
    ensures if k < |relays| then FirstAnswer(reach, k) && Queued(relays[k].boxes, to, Hash(message))
            else Answered !in reach
    ensures Grown(old(MailOf(relays)), MailOf(relays), {(to, Hash(message))})
  {
    k := 0;
    while k < |relays|
      invariant k <= |relays| && Answered !in reach[..k]
      invariant Grown(old(MailOf(relays)), MailOf(relays), {(to, Hash(message))})
    {
      Post(relays, k, reach[k], me, to, message, old(MailOf(relays)));
      if reach[k] == Answered {
        return k;
      }
      k := k + 1;
    }
  }

  class OutboxStore {
    var entries: Outbox

    constructor ()
      ensures entries == map[]
    {
      entries := map[];
    }

    // Persist first, then push to the first relay that answers.
    method SendGuaranteed(relays: seq<RelayNode>, reach: seq<Reach>, me: Node, to: Node, message: Message, now: int)
      returns (mailbox: Option<string>)
      requires |reach| == |relays|
      modifies this, relays
      ensures var recorded := Recorded(old(entries), to, message, now);
        entries == if mailbox.None? then recorded else Confirmed(recorded, Hash(message), mailbox.value)
      ensures mailbox.Some? <==> Answered in reach
      ensures mailbox.Some? ==>
                exists k: nat | k < |relays| ::
                  FirstAnswer(reach, k) && mailbox.value == relays[k].url && Queued(relays[k].boxes, to, Hash(message))
      ensures Grown(old(MailOf(relays)), MailOf(relays), {(to, Hash(message))})
    {
      var id := Hash(message);
      if id !in entries {
        entries := entries[id := Entry(to, message, now, None, false, 0)];
      }
      var k := PostInTurn(relays, reach, me, to, message);
      if k >= |relays| {
        return None;
      }
      entries := Confirmed(entries, id, relays[k].url);
      return Some(relays[k].url);
    }

    method AckEntry(id: Id) returns (known: bool)
      modifies this
      ensures known == (id in old(entries)) && entries == Acked(old(entries), id)
      ensures entries.Keys == old(entries).Keys
      ensures forall e | e in entries :: entries[e] == old(entries)[e].(acked := old(entries)[e].acked || e == id)
    {
      if id !in entries {
        return false;
      }
      entries := entries[id := entries[id].(acked := true)];
      return true;
    }

    // One entry, when due, sent again as it was first sent.
    method RetryEntry(relays: seq<RelayNode>, reach: seq<Reach>, me: Node, e: Entry, now: int, minAge: int)
      returns (got: bool)
      requires |reach| == |relays| && Hash(e.message) in entries
      modifies this, relays
      ensures SameSends(old(entries), entries)
      ensures Grown(old(MailOf(relays)), MailOf(relays), if Due(e, now, minAge) then {(e.to, Hash(e.message))} else {})
      ensures got == (Due(e, now, minAge) && Answered in reach)
      ensures got ==> QueuedIn(MailOf(relays), e.to, Hash(e.message))
    {
      if !Due(e, now, minAge) {
        return false;
      }
      ghost var before := entries;
      var mailbox := SendGuaranteed(relays, reach, me, e.to, e.message, now);
      got := mailbox.Some?;
      if got {
        ghost var k: nat :| k < |relays| && FirstAnswer(reach, k) && Queued(relays[k].boxes, e.to, Hash(e.message));
        assert Queued(MailOf(relays)[k], e.to, Hash(e.message));
        ConfirmingKeepsSends(before, before, Hash(e.message), mailbox.value);
      }
    }

    // Sends every pending entry again that is old enough, to the addressee and with the bytes of its
    // first send, and nothing else.
    method RetryOutbox(relays: seq<RelayNode>, reach: Id -> seq<Reach>, me: Node, now: int, minAge: int)
      returns (retried: set<Id>)
      requires forall id :: |reach(id)| == |relays|
      requires forall id | id in entries :: Hash(entries[id].message) == id
      modifies this, relays
      ensures forall id :: id in retried <==>
        && id in old(entries) && !old(entries)[id].acked && now - old(entries)[id].sentAt >= minAge
        && Answered in reach(id)
      ensures SameSends(old(entries), entries)
      ensures AllQueued(MailOf(relays), retried, entries)
      ensures Grown(old(MailOf(relays)), MailOf(relays), Pending(old(entries), now, minAge))
    {
      var snapshot := entries;
      ghost var start := MailOf(relays);
      var todo := snapshot.Keys;
      retried := {};
      while todo != {}
        invariant todo <= snapshot.Keys && SameSends(snapshot, entries)
        invariant RetriedSoFar(start, MailOf(relays), snapshot, snapshot.Keys - todo, reach, now, minAge, retried)
      {
        var id :| id in todo;
        ghost var before := MailOf(relays);
        var got := RetryEntry(relays, reach(id), me, snapshot[id], now, minAge);
        RetriedOneMore(start, before, MailOf(relays), snapshot, snapshot.Keys - todo, id, reach, now, minAge, retried, got);
        assert snapshot.Keys - (todo - {id}) == snapshot.Keys - todo + {id};
        todo := todo - {id};
        if got {
          retried := retried + {id};
        }
      }
      AllAnswered(MailOf(relays), retried, snapshot, entries);
    }
  }

  lemma AllAnswered(mail: Mail, ids: set<Id>, before: Outbox, after: Outbox)
    requires AllQueued(mail, ids, before) && SameSends(before, after)
    ensures AllQueued(mail, ids, after)
  {
    forall id | id in ids ensures id in after && QueuedIn(mail, after[id].to, id) {
      assert id in before;
    }
  }

  // ---------- the receiver's side ----------

  // How the receiver's handler ended, and which replies it managed to hand to the relay.
  datatype Action = Acted | Ignored | Dropped | Failed | NoHandler

  datatype Verdict = Verdict(action: Action, pongPosted: bool, ackPosted: bool)

  datatype Outgoing = Outgoing(to: Node, message: Message)

  predicate Accepted(v: Verdict) {
    v.action == Acted || v.action == Ignored
  }

  // An acknowledgement is earned by an accepted message with a known sender.
  predicate Possible(item: Item, v: Verdict) {
    && (v.ackPosted ==> item.from.Some? && Accepted(v) && !item.message.Ack?)
    && (v.pongPosted ==> item.message.Ping? && (v.action == Acted || v.action == Failed))
  }

  function Consumed(outbox: Outbox, item: Item): Outbox {
    if item.message.Ack? then Acked(outbox, item.message.ackId) else outbox
  }

  function Replies(me: Node, item: Item, v: Verdict): seq<Outgoing>
    requires Possible(item, v)
  {
    (if v.pongPosted then [Outgoing(item.message.nodeId, Pong(me, item.message.echo))] else []) +
    (if v.ackPosted then [Outgoing(item.from.value, Ack(item.id, me))] else [])
  }

  // A reply the verdict has earned: a pong for a ping, to the pinging node with its own echo, and
  // an acknowledgement of this very item to the node it came from.
  predicate Earned(me: Node, item: Item, v: Verdict, out: Outgoing) {
    || (v.pongPosted && item.message.Ping?
        && out == Outgoing(item.message.nodeId, Pong(nodeId := me, echo := item.message.echo)))
    || (v.ackPosted && item.from.Some? && out == Outgoing(item.from.value, Ack(ackId := item.id, signer := me)))
  }

  // An item can be acknowledged when its sender is known, it is no acknowledgement itself and the
  // handler neither dropped it nor failed nor was missing.
  lemma AckPossibleIff(item: Item, action: Action)
    ensures Possible(item, Verdict(action, false, true)) <==>
            item.from.Some? && !item.message.Ack? && action != Dropped && action != Failed && action != NoHandler
  {
  }

  predicate AllPossible(items: seq<Item>, verdicts: seq<Verdict>) {
    |items| == |verdicts| && forall i | 0 <= i < |items| :: Possible(items[i], verdicts[i])
  }

  function AllConsumed(outbox: Outbox, items: seq<Item>): Outbox {
    if items == [] then outbox else Consumed(AllConsumed(outbox, items[..|items| - 1]), items[|items| - 1])
  }

  function AllReplies(me: Node, items: seq<Item>, verdicts: seq<Verdict>): seq<Outgoing>
    requires AllPossible(items, verdicts)
  {
    if items == [] then []
    else
      var n := |items| - 1;
      AllReplies(me, items[..n], verdicts[..n]) + Replies(me, items[n], verdicts[n])
  }

  // What is sent back is exactly what the items earn.
  lemma {:induction false} RepliesAreEarned(me: Node, items: seq<Item>, verdicts: seq<Verdict>, out: Outgoing)
    requires AllPossible(items, verdicts)
    ensures out in AllReplies(me, items, verdicts) <==>
            exists i | 0 <= i < |items| :: Earned(me, items[i], verdicts[i], out)
    decreases |items|
  {
    if items != [] {
      var n := |items| - 1;
      RepliesAreEarned(me, items[..n], verdicts[..n], out);
      RepliesOfOne(me, items[n], verdicts[n], out);
      EarnedByOneMore(me, items, verdicts, out);
    }
  }

  lemma EarnedByOneMore(me: Node, items: seq<Item>, verdicts: seq<Verdict>, out: Outgoing)
    requires |items| == |verdicts| > 0
    ensures var n := |items| - 1;
      (exists i | 0 <= i < |items| :: Earned(me, items[i], verdicts[i], out)) <==>
      (exists i | 0 <= i < n :: Earned(me, items[..n][i], verdicts[..n][i], out)) || Earned(me, items[n], verdicts[n], out)
  {
    var n := |items| - 1;
    forall i | 0 <= i < n ensures items[..n][i] == items[i] && verdicts[..n][i] == verdicts[i] {
    }
  }

  lemma RepliesOfOne(me: Node, item: Item, v: Verdict, out: Outgoing)
    requires Possible(item, v)
    ensures out in Replies(me, item, v) <==> Earned(me, item, v, out)
  {
  }

  method PollAndAck(outbox: OutboxStore, me: Node, items: seq<Item>, verdicts: seq<Verdict>) returns (sent: seq<Outgoing>)
    requires AllPossible(items, verdicts)
    modifies outbox
    ensures outbox.entries == AllConsumed(old(outbox.entries), items)
    ensures sent == AllReplies(me, items, verdicts)
  {
    sent := [];
    var i := 0;
    while i < |items|
      invariant i <= |items|
      invariant outbox.entries == AllConsumed(old(outbox.entries), items[..i])
      invariant AllPossible(items[..i], verdicts[..i]) && sent == AllReplies(me, items[..i], verdicts[..i])
    {
      assert items[..i + 1][..i] == items[..i] && verdicts[..i + 1][..i] == verdicts[..i];
      var entry, v := items[i], verdicts[i];
      if entry.message.Ack? {
        var _ := outbox.AckEntry(entry.message.ackId);
      } else {
        if v.pongPosted {
          sent := sent + [Outgoing(entry.message.nodeId, Pong(me, entry.message.echo))];
        }
        if v.ackPosted {
          sent := sent + [Outgoing(entry.from.value, Ack(entry.id, me))];
        }
      }
      i := i + 1;
    }
    assert items[..i] == items && verdicts[..i] == verdicts;
  }
}
