/** What canonical text leaves out: members named __proto__, at every depth, and nothing else. */
module ProtoMembers {
  import opened Text
  import opened JsonText
  import opened KeyOrder
  import opened CanonicalJson
  import opened CanonicalText

  // The JSON value with every member kept; what is undefined is no member.
  function Full(v: Json): Value
    decreases v
  {
    match v
    case Null => VNull
    case Undefined => VNull
    case Bool(b) => VBool(b)
    case Num(token) => VNum(token)
    case Text(s) => VText(s)
    case Arr(items) => VArr(Fulls(items))
    case Obj(members) => VObj(MemberFulls(members))
  }

  function Fulls(items: seq<Json>): seq<Value>
    decreases items
  {
    if items == [] then [] else [Full(items[0])] + Fulls(items[1..])
  }

  function MemberFulls(members: seq<Member>): map<Str, Value>
    decreases members
  {
    if members == [] then map[]
    else
      var m := members[0];
      assert m.value < m;
      var rest := MemberFulls(members[1..]);
      if m.value == Undefined then rest else rest[m.key := Full(m.value)]
  }

  // No defined member is named __proto__, at any depth.
  predicate NoProto(v: Json)
    decreases v
  {
    match v
    case Arr(items) => NoProtoItems(items)
    case Obj(members) => NoProtoMembers(members)
    case _ => true
  }

  predicate NoProtoItems(items: seq<Json>)
    decreases items
  {
    items != [] ==> NoProto(items[0]) && NoProtoItems(items[1..])
  }

  predicate NoProtoMembers(members: seq<Member>)
    decreases members
  {
    members != [] ==>
      var m := members[0];
      assert m.value < m;
      (m.value != Undefined ==> m.key != ProtoKey() && NoProto(m.value)) && NoProtoMembers(members[1..])
  }

  // ---------- nothing else is left out ----------

  lemma {:induction false} FullKeys(ms: seq<Member>, k: Str)
    requires k in MemberFulls(ms)
    ensures exists m :: m in ms && m.key == k
  {
    var m := ms[0];
    assert m in ms;
    if m.key != k || m.value == Undefined {
      FullKeys(ms[1..], k);
      var x :| x in ms[1..] && x.key == k;
      assert x in ms;
    }
  }

  // The first member's key is not among the others.
  lemma FirstIsNew(ms: seq<Member>)
    requires DistinctKeys(ms) && ms != []
    ensures ms[0].key !in MemberMeanings(ms[1..]) && ms[0].key !in MemberFulls(ms[1..]) && DistinctKeys(ms[1..])
  {
    RestDistinct(ms);
    KeysAreSaid(ms[1..], ms[0].key);
    if ms[0].key in MemberFulls(ms[1..]) {
      FullKeys(ms[1..], ms[0].key);
    }
  }

  lemma MapsDifferAt(a: map<Str, Value>, b: map<Str, Value>, k: Str, x: Value, y: Value)
    requires k !in a && k !in b
    ensures a[k := x] == b[k := y] <==> a == b && x == y
  {
    if a[k := x] == b[k := y] {
      assert a[k := x][k] == b[k := y][k];
      assert a == a[k := x] - {k} && b == b[k := y] - {k};
    }
  }

  lemma {:induction false} MeaningIsFullIff(v: Json)
    requires WellFormed(v)
    ensures Meaning(v) == Full(v) <==> NoProto(v)
    decreases v
  {
    match v {
      case Arr(items) => ItemsAreFullIff(items);
      case Obj(members) => MembersAreFullIff(members);
      case _ =>
    }
  }

  lemma {:induction false} ItemsAreFullIff(items: seq<Json>)
    requires WellFormedItems(items)
    ensures Meanings(items) == Fulls(items) <==> NoProtoItems(items)
    decreases items
  {
    if items != [] {
      MeaningIsFullIff(items[0]);
      ItemsAreFullIff(items[1..]);
      assert Meanings(items)[0] == Meaning(items[0]) && Meanings(items)[1..] == Meanings(items[1..]);
      assert Fulls(items)[0] == Full(items[0]) && Fulls(items)[1..] == Fulls(items[1..]);
    }
  }

  lemma {:induction false} MembersAreFullIff(members: seq<Member>)
    requires DistinctKeys(members) && WellFormedMembers(members)
    ensures MemberMeanings(members) == MemberFulls(members) <==> NoProtoMembers(members)
    decreases members
  {
    if members != [] {
      var m, meanings, fulls := members[0], MemberMeanings(members[1..]), MemberFulls(members[1..]);
      assert m.value < m;
      FirstIsNew(members);
      MeaningIsFullIff(m.value);
      MembersAreFullIff(members[1..]);
      MapsDifferAt(meanings, fulls, m.key, Meaning(m.value), Full(m.value));
      if m.value != Undefined && m.key == ProtoKey() {
        KeysAreSaid(members, m.key);
        assert m.key !in MemberMeanings(members) && m.key in MemberFulls(members);
      }
    }
  }

  // Values without such members have the same canonical text exactly when they are the same.
  lemma TextDeterminesValue(a: Json, b: Json)
    requires WellFormed(a) && WellFormed(b) && NoProto(a) && NoProto(b)
    ensures Canonical(a) == Canonical(b) <==> Full(a) == Full(b)
  {
    CanonicalIff(a, b);
    MeaningIsFullIff(a);
    MeaningIsFullIff(b);
  }

  // ---------- the same value without them ----------

  function Stripped(v: Json): Json
    decreases v
  {
    match v
    case Arr(items) => Arr(StrippedItems(items))
    case Obj(members) => Obj(StrippedMembers(members))
    case _ => v
  }

  function StrippedItems(items: seq<Json>): seq<Json>
    decreases items
  {
    if items == [] then [] else [Stripped(items[0])] + StrippedItems(items[1..])
  }

  function StrippedMembers(members: seq<Member>): seq<Member>
    decreases members
  {
    if members == [] then []
    else
      var m := members[0];
      assert m.value < m;
      (if m.key == ProtoKey() then [] else [Member(m.key, Stripped(m.value))]) + StrippedMembers(members[1..])
  }

  lemma {:induction false} StrippedSays(v: Json)
    ensures Full(Stripped(v)) == Meaning(v) && NoProto(Stripped(v)) && (Stripped(v) == Undefined <==> v == Undefined)
    decreases v
  {
    match v {
      case Arr(items) => StrippedItemsSay(items);
      case Obj(members) => StrippedMembersSay(members);
      case _ =>
    }
  }

  lemma {:induction false} StrippedItemsSay(items: seq<Json>)
    ensures Fulls(StrippedItems(items)) == Meanings(items) && NoProtoItems(StrippedItems(items))
    decreases items
  {
    if items != [] {
      StrippedSays(items[0]);
      StrippedItemsSay(items[1..]);
    }
  }

  lemma {:induction false} StrippedMembersSay(members: seq<Member>)
    ensures MemberFulls(StrippedMembers(members)) == MemberMeanings(members)
    ensures NoProtoMembers(StrippedMembers(members))
    decreases members
  {
    if members != [] {
      var m, rest := members[0], StrippedMembers(members[1..]);
      assert m.value < m;
      StrippedSays(m.value);
      StrippedMembersSay(members[1..]);
      if m.key == ProtoKey() {
        assert [] + rest == rest;
      } else {
        FullCons(m.key, Stripped(m.value), rest);
      }
    }
  }

  lemma FullCons(key: Str, v: Json, rest: seq<Member>)
    ensures MemberFulls([Member(key, v)] + rest)
      == if v == Undefined then MemberFulls(rest) else MemberFulls(rest)[key := Full(v)]
    ensures key != ProtoKey() && NoProto(v) && NoProtoMembers(rest) ==> NoProtoMembers([Member(key, v)] + rest)
  {
    assert ([Member(key, v)] + rest)[1..] == rest;
  }

  lemma {:induction false} StrippedKeys(members: seq<Member>, x: Member)
    requires x in StrippedMembers(members)
    ensures exists m :: m in members && m.key == x.key
  {
    assert members[0] in members;
    if x in StrippedMembers(members[1..]) {
      StrippedKeys(members[1..], x);
      var m :| m in members[1..] && m.key == x.key;
      assert m in members;
    }
  }

  lemma DistinctCons(m: Member, rest: seq<Member>)
    requires DistinctKeys(rest) && forall x | x in rest :: x.key != m.key
    ensures DistinctKeys([m] + rest)
  {
  }

  lemma WellFormedCons(m: Member, rest: seq<Member>)
    requires WellFormed(m.value) && WellFormedMembers(rest)
    ensures WellFormedMembers([m] + rest)
  {
    assert ([m] + rest)[1..] == rest;
  }

  lemma {:induction false} StrippedIsWellFormed(v: Json)
    requires WellFormed(v)
    ensures WellFormed(Stripped(v))
    decreases v
  {
    match v {
      case Arr(items) => StrippedItemsWellFormed(items);
      case Obj(members) => StrippedMembersWellFormed(members);
      case _ =>
    }
  }

  lemma {:induction false} StrippedItemsWellFormed(items: seq<Json>)
    requires WellFormedItems(items)
    ensures WellFormedItems(StrippedItems(items))
    decreases items
  {
    if items != [] {
      StrippedIsWellFormed(items[0]);
      StrippedItemsWellFormed(items[1..]);
    }
  }

  lemma {:induction false} StrippedMembersWellFormed(members: seq<Member>)
    requires DistinctKeys(members) && WellFormedMembers(members)
    ensures DistinctKeys(StrippedMembers(members)) && WellFormedMembers(StrippedMembers(members))
    decreases members
  {
    if members != [] {
      var m, rest := members[0], StrippedMembers(members[1..]);
      assert m.value < m;
      RestDistinct(members);
      StrippedIsWellFormed(m.value);
      StrippedMembersWellFormed(members[1..]);
      var kept := Member(m.key, Stripped(m.value));
      forall x | x in rest
        ensures x.key != m.key
      {
        StrippedKeys(members[1..], x);
      }
      if m.key == ProtoKey() {
        assert StrippedMembers(members) == rest;
      } else {
        assert StrippedMembers(members) == [kept] + rest;
        DistinctCons(kept, rest);
        WellFormedCons(kept, rest);
      }
    }
  }

  // Every value has the text of the one without such members, which is another value exactly when
  // there was one.
  lemma ProtoIsLost(v: Json)
    requires WellFormed(v)
    ensures WellFormed(Stripped(v)) && NoProto(Stripped(v)) && Canonical(Stripped(v)) == Canonical(v)
    ensures Full(Stripped(v)) == Full(v) <==> NoProto(v)
  {
    StrippedSays(v);
    StrippedIsWellFormed(v);
    MeaningIsFullIff(v);
    MeaningIsFullIff(Stripped(v));
    CanonicalIff(Stripped(v), v);
  }
}
