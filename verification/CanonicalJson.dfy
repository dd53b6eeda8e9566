/** The canonical text of a manifest: deep-sorted JSON, which says exactly what the value means. */
module CanonicalJson {
  import opened Text
  import opened JsonText
  import opened JsonWriting
  import opened KeyOrder

  // ---------- the code ----------

  function SortDeep(v: Json): Json
    decreases v
  {
    match v
    case Arr(items) => Arr(SortItems(items))
    case Obj(members) => Obj(Assigned(SortByKey(SortMembers(members))))
    case _ => v
  }

  function SortItems(items: seq<Json>): seq<Json>
    decreases items
  {
    if items == [] then [] else [SortDeep(items[0])] + SortItems(items[1..])
  }

  function SortMembers(members: seq<Member>): seq<Member>
    decreases members
  {
    if members == [] then []
    else
      var m := members[0];
      assert m.value < m;
      [Member(m.key, SortDeep(m.value))] + SortMembers(members[1..])
  }

  // What stringify prints: an undefined item as null, an undefined member not at all.
  function Printed(v: Json): Json
    decreases v
  {
    match v
    case Undefined => Null
    case Arr(items) => Arr(PrintedItems(items))
    case Obj(members) => Obj(PrintedMembers(members))
    case _ => v
  }

  function PrintedItems(items: seq<Json>): seq<Json>
    decreases items
  {
    if items == [] then [] else [Printed(items[0])] + PrintedItems(items[1..])
  }

  function PrintedMembers(members: seq<Member>): seq<Member>
    decreases members
  {
    if members == [] then []
    else
      var m := members[0];
      assert m.value < m;
      (if m.value == Undefined then [] else [Member(m.key, Printed(m.value))]) + PrintedMembers(members[1..])
  }

  function Canonical(v: Json): Str {
    Write(Printed(SortDeep(v)))
  }

  // ---------- what a value means ----------

  // A JSON value with objects as maps, without members named __proto__.
  datatype Value =
    | VNull
    | VBool(b: bool)
    | VNum(token: Str)
    | VText(s: Str)
    | VArr(items: seq<Value>)
    | VObj(members: map<Str, Value>)

  function Meaning(v: Json): Value
    decreases v
  {
    match v
    case Null => VNull
    case Undefined => VNull
    case Bool(b) => VBool(b)
    case Num(token) => VNum(token)
    case Text(s) => VText(s)
    case Arr(items) => VArr(Meanings(items))
    case Obj(members) => VObj(MemberMeanings(members))
  }

  function Meanings(items: seq<Json>): seq<Value>
    decreases items
  {
    if items == [] then [] else [Meaning(items[0])] + Meanings(items[1..])
  }

  function MemberMeanings(members: seq<Member>): map<Str, Value>
    decreases members
  {
    if members == [] then map[]
    else
      var m := members[0];
      assert m.value < m;
      var rest := MemberMeanings(members[1..]);
      if m.value == Undefined || m.key == ProtoKey() then rest else rest[m.key := Meaning(m.value)]
  }

  // An object has each key once; numbers are as printed.
  predicate WellFormed(v: Json)
    decreases v
  {
    match v
    case Num(token) => IsToken(token)
    case Arr(items) => WellFormedItems(items)
    case Obj(members) => DistinctKeys(members) && WellFormedMembers(members)
    case _ => true
  }

  predicate WellFormedItems(items: seq<Json>)
    decreases items
  {
    items != [] ==> WellFormed(items[0]) && WellFormedItems(items[1..])
  }

  predicate WellFormedMembers(members: seq<Member>)
    decreases members
  {
    members != [] ==>
      var m := members[0];
      assert m.value < m;
      WellFormed(m.value) && WellFormedMembers(members[1..])
  }

  // ---------- members by key ----------

  predicate Says(m: Member) {
    m.value != Undefined && m.key != ProtoKey()
  }

  predicate HasFor(ms: seq<Member>, k: Str) {
    exists m | m in ms :: Says(m) && m.key == k
  }

  lemma RestDistinct(ms: seq<Member>)
    requires DistinctKeys(ms) && ms != []
    ensures DistinctKeys(ms[1..]) && forall m | m in ms[1..] :: m.key != ms[0].key
  {
  }

  lemma {:induction false} KeysAreSaid(ms: seq<Member>, k: Str)
    ensures k in MemberMeanings(ms) <==> HasFor(ms, k)
  {
    if ms != [] {
      KeysAreSaid(ms[1..], k);
      assert ms == [ms[0]] + ms[1..];
      assert HasFor(ms, k) <==> (Says(ms[0]) && ms[0].key == k) || HasFor(ms[1..], k);
    }
  }

  // With distinct keys the map is what each member says, in whatever order.
  lemma {:induction false} MemberIsSaid(ms: seq<Member>, m: Member)
    requires DistinctKeys(ms) && m in ms && Says(m)
    ensures m.key in MemberMeanings(ms) && MemberMeanings(ms)[m.key] == Meaning(m.value)
  {
    RestDistinct(ms);
    if m != ms[0] {
      MemberIsSaid(ms[1..], m);
    }
  }

  lemma SameMembersSameMeaning(a: seq<Member>, b: seq<Member>)
    requires DistinctKeys(a) && DistinctKeys(b)
    requires forall m | Says(m) :: m in a <==> m in b
    ensures MemberMeanings(a) == MemberMeanings(b)
  {
    forall k
      ensures k in MemberMeanings(a) <==> k in MemberMeanings(b)
      ensures k in MemberMeanings(a) ==> MemberMeanings(a)[k] == MemberMeanings(b)[k]
    {
      KeysAreSaid(a, k);
      KeysAreSaid(b, k);
      if k in MemberMeanings(a) {
        var m :| m in a && Says(m) && m.key == k;
        MemberIsSaid(a, m);
        MemberIsSaid(b, m);
      }
    }
  }

  // ---------- sorting and printing keep the meaning ----------

  lemma {:induction false} SortKeepsKeys(ms: seq<Member>)
    ensures |SortMembers(ms)| == |ms|
    ensures forall i | 0 <= i < |ms| :: SortMembers(ms)[i].key == ms[i].key
  {
    if ms != [] {
      SortKeepsKeys(ms[1..]);
    }
  }

  lemma EnumeratedDistinct(ms: seq<Member>)
    requires Enumerated(ms)
    ensures DistinctKeys(ms)
  {
    forall i, j | 0 <= i < j < |ms|
      ensures ms[i].key != ms[j].key
    {
      BeforeIsStrict(ms[i].key, ms[i].key);
    }
  }

  lemma ArrangedMeaning(ms: seq<Member>)
    requires DistinctKeys(ms)
    ensures MemberMeanings(Assigned(SortByKey(ms))) == MemberMeanings(ms)
  {
    ArrangedKeeps(ms);
    EnumeratedDistinct(Assigned(SortByKey(ms)));
    SameMembersSameMeaning(Assigned(SortByKey(ms)), ms);
  }

  lemma {:induction false} SortKeepsMeaning(v: Json)
    requires WellFormed(v)
    ensures Meaning(SortDeep(v)) == Meaning(v) && (SortDeep(v) == Undefined <==> v == Undefined)
    decreases v
  {
    match v {
      case Arr(items) => ItemsKeepMeaning(items);
      case Obj(members) =>
        MembersKeepMeaning(members);
        SortKeepsKeys(members);
        ArrangedMeaning(SortMembers(members));
      case _ =>
    }
  }

  lemma {:induction false} ItemsKeepMeaning(items: seq<Json>)
    requires WellFormedItems(items)
    ensures Meanings(SortItems(items)) == Meanings(items)
    decreases items
  {
    if items != [] {
      SortKeepsMeaning(items[0]);
      ItemsKeepMeaning(items[1..]);
    }
  }

  lemma {:induction false} MembersKeepMeaning(members: seq<Member>)
    requires WellFormedMembers(members)
    ensures MemberMeanings(SortMembers(members)) == MemberMeanings(members)
    decreases members
  {
    if members != [] {
      var m := members[0];
      assert m.value < m;
      SortKeepsMeaning(m.value);
      MembersKeepMeaning(members[1..]);
    }
  }

  lemma {:induction false} PrintKeepsMeaning(v: Json)
    ensures Meaning(Printed(v)) == Meaning(v) && Printed(v) != Undefined
    decreases v
  {
    match v {
      case Arr(items) => PrintItemsKeep(items);
      case Obj(members) => PrintMembersKeep(members);
      case _ =>
    }
  }

  lemma {:induction false} PrintItemsKeep(items: seq<Json>)
    ensures Meanings(PrintedItems(items)) == Meanings(items)
    decreases items
  {
    if items != [] {
      PrintKeepsMeaning(items[0]);
      PrintItemsKeep(items[1..]);
    }
  }

  lemma {:induction false} PrintMembersKeep(members: seq<Member>)
    ensures MemberMeanings(PrintedMembers(members)) == MemberMeanings(members)
    decreases members
  {
    if members != [] {
      var m := members[0];
      assert m.value < m;
      PrintKeepsMeaning(m.value);
      PrintMembersKeep(members[1..]);
      var rest := PrintedMembers(members[1..]);
      assert ([Member(m.key, Printed(m.value))] + rest)[1..] == rest;
      assert [] + rest == rest;
    }
  }

  // ---------- the printed form is tidy, and tidy values with one meaning are one ----------

  predicate Tidy(v: Json)
    decreases v
  {
    match v
    case Undefined => false
    case Num(token) => IsToken(token)
    case Arr(items) => TidyItems(items)
    case Obj(members) => Enumerated(members) && TidyMembers(members)
    case _ => true
  }

  predicate TidyItems(items: seq<Json>)
    decreases items
  {
    items != [] ==> Tidy(items[0]) && TidyItems(items[1..])
  }

  predicate TidyMembers(members: seq<Member>)
    decreases members
  {
    members != [] ==>
      var m := members[0];
      assert m.value < m;
      m.key != ProtoKey() && Tidy(m.value) && TidyMembers(members[1..])
  }

  lemma {:induction false} TidyIsPrintable(v: Json)
    requires Tidy(v)
    ensures Printable(v)
    decreases v
  {
    match v {
      case Arr(items) => TidyItemsPrintable(items);
      case Obj(members) => TidyMembersPrintable(members);
      case _ =>
    }
  }

  lemma {:induction false} TidyItemsPrintable(items: seq<Json>)
    requires TidyItems(items)
    ensures PrintableItems(items)
    decreases items
  {
    if items != [] {
      TidyIsPrintable(items[0]);
      TidyItemsPrintable(items[1..]);
    }
  }

  lemma {:induction false} TidyMembersPrintable(members: seq<Member>)
    requires TidyMembers(members)
    ensures PrintableMembers(members)
    decreases members
  {
    if members != [] {
      var m := members[0];
      assert m.value < m;
      TidyIsPrintable(m.value);
      TidyMembersPrintable(members[1..]);
    }
  }

  // ---------- one meaning, one tidy value ----------

  lemma TidyMembersSay(ms: seq<Member>, m: Member)
    requires TidyMembers(ms) && m in ms
    ensures Says(m)
    decreases |ms|
  {
    if m != ms[0] {
      TidyMembersSay(ms[1..], m);
    }
  }

  lemma TidyRest(ms: seq<Member>)
    requires ms != [] && Enumerated(ms) && TidyMembers(ms)
    ensures var rest := MemberMeanings(ms[1..]);
      && Enumerated(ms[1..]) && TidyMembers(ms[1..])
      && ms[0].key !in rest
      && MemberMeanings(ms) == rest[ms[0].key := Meaning(ms[0].value)]
  {
    TidyMembersSay(ms, ms[0]);
    EnumeratedDistinct(ms);
    RestDistinct(ms);
    KeysAreSaid(ms[1..], ms[0].key);
  }

  // The first member is the one enumerated before all others with a meaning.
  lemma FirstKey(a: seq<Member>, b: seq<Member>)
    requires a != [] && b != [] && Enumerated(a) && Enumerated(b) && TidyMembers(a) && TidyMembers(b)
    requires MemberMeanings(a).Keys == MemberMeanings(b).Keys
    ensures a[0].key == b[0].key
  {
    TidyRest(a);
    TidyRest(b);
    assert a[0].key in MemberMeanings(a) && b[0].key in MemberMeanings(b);
    KeysAreSaid(b, a[0].key);
    KeysAreSaid(a, b[0].key);
    var x :| x in b && Says(x) && x.key == a[0].key;
    var y :| y in a && Says(y) && y.key == b[0].key;
    BeforeIsStrict(a[0].key, b[0].key);
  }

  lemma {:induction false} OneMeaningOneValue(a: Json, b: Json)
    requires Tidy(a) && Tidy(b) && Meaning(a) == Meaning(b)
    ensures a == b
    decreases a
  {
    match a {
      case Arr(items) => OneMeaningItems(items, b.items);
      case Obj(members) => OneMeaningMembers(members, b.members);
      case _ =>
    }
  }

  lemma {:induction false} OneMeaningItems(a: seq<Json>, b: seq<Json>)
    requires TidyItems(a) && TidyItems(b) && Meanings(a) == Meanings(b)
    ensures a == b
    decreases a
  {
    if a != [] {
      assert b != [];
      assert Meanings(a)[0] == Meaning(a[0]) && Meanings(b)[0] == Meaning(b[0]);
      assert Meanings(a)[1..] == Meanings(a[1..]) && Meanings(b)[1..] == Meanings(b[1..]);
      OneMeaningOneValue(a[0], b[0]);
      OneMeaningItems(a[1..], b[1..]);
      assert a == [a[0]] + a[1..] && b == [b[0]] + b[1..];
    }
  }

  lemma {:induction false} OneMeaningMembers(a: seq<Member>, b: seq<Member>)
    requires Enumerated(a) && Enumerated(b) && TidyMembers(a) && TidyMembers(b) && MemberMeanings(a) == MemberMeanings(b)
    ensures a == b
    decreases a
  {
    if a != [] {
      TidyRest(a);
    }
    if b != [] {
      TidyRest(b);
    }
    assert a != [] ==> a[0].key in MemberMeanings(a);
    assert b != [] ==> b[0].key in MemberMeanings(b);
    if a != [] && b != [] {
      FirstKey(a, b);
      var k, m := a[0].key, a[0];
      assert m.value < m;
      assert MemberMeanings(a)[k] == MemberMeanings(b)[k];
      OneMeaningOneValue(m.value, b[0].value);
      assert MemberMeanings(a[1..]) == MemberMeanings(a) - {k};
      assert MemberMeanings(b[1..]) == MemberMeanings(b) - {k};
      OneMeaningMembers(a[1..], b[1..]);
      assert a == [a[0]] + a[1..] && b == [b[0]] + b[1..];
    }
  }
}
