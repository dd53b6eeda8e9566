/** What JSON.stringify writes, and that it can be read only one way. */
module JsonWriting {
  import opened Text
  import opened Numerals
  import opened JsonText

  predicate InToken(u: Unit) {
    IsDigit(u) || u == MINUS || u == 43 || u == 46 || u == 101 || u == 69
  }

  // Digits, signs, points and exponents, as every printed number.
  predicate IsToken(t: Str) {
    t != [] && (IsDigit(t[0]) || t[0] == MINUS) && forall u | u in t :: InToken(u)
  }

  // A value as it is printed: nothing undefined, and numbers as JavaScript prints them.
  predicate Printable(v: Json)
    decreases v
  {
    match v
    case Undefined => false
    case Num(token) => IsToken(token)
    case Arr(items) => PrintableItems(items)
    case Obj(members) => PrintableMembers(members)
    case _ => true
  }

  predicate PrintableItems(items: seq<Json>)
    decreases items
  {
    items != [] ==> Printable(items[0]) && PrintableItems(items[1..])
  }

  predicate PrintableMembers(members: seq<Member>)
    decreases members
  {
    members != [] ==>
      var m := members[0];
      assert m.value < m;
      Printable(m.value) && PrintableMembers(members[1..])
  }

  function Write(v: Json): Str
    decreases v
  {
    match v
    case Null => Ascii("null")
    case Undefined => Ascii("null")
    case Bool(b) => if b then Ascii("true") else Ascii("false")
    case Num(token) => token
    case Text(s) => Quoted(s)
    case Arr(items) =>
      if items == [] then [OPEN_BRACKET, CLOSE_BRACKET] else [OPEN_BRACKET] + (Write(items[0]) + WriteItems(items[1..]))
    case Obj(members) =>
      if members == [] then [OPEN_BRACE, CLOSE_BRACE]
      else
        var m := members[0];
        assert m.value < m;
        [OPEN_BRACE] + (Quoted(m.key) + ([COLON] + (Write(m.value) + WriteMembers(members[1..]))))
  }

  // The further items, with the closing bracket.
  function WriteItems(items: seq<Json>): Str
    decreases items
  {
    if items == [] then [CLOSE_BRACKET] else [COMMA] + (Write(items[0]) + WriteItems(items[1..]))
  }

  function WriteMembers(members: seq<Member>): Str
    decreases members
  {
    if members == [] then [CLOSE_BRACE]
    else
      var m := members[0];
      assert m.value < m;
      [COMMA] + (Quoted(m.key) + ([COLON] + (Write(m.value) + WriteMembers(members[1..]))))
  }

  // As it is read by eye: null, true and false, brackets, braces, commas and colons.
  lemma WordsAre()
    ensures Write(Null) == Write(Undefined) == [110, 117, 108, 108] && Write(Bool(true)) == [116, 114, 117, 101]
    ensures Write(Bool(false)) == [102, 97, 108, 115, 101]
    ensures Write(Arr([])) == [91, 93] && Write(Obj([])) == [123, 125] && Write(Text([])) == [34, 34]
  {
  }

  lemma ItemsAre(a: Json, b: Json)
    ensures Write(Arr([a, b])) == [91] + (Write(a) + ([44] + (Write(b) + [93])))
  {
    assert [a, b][1..] == [b] && [b][1..] == [];
    assert WriteItems([]) == [93];
  }

  lemma MembersAre(a: Member, b: Member)
    ensures Write(Obj([a, b])) ==
            [123] + (Quoted(a.key) + ([58] + (Write(a.value) + ([44] + (Quoted(b.key) + ([58] + (Write(b.value) + [125])))))))
  {
    assert [a, b][1..] == [b] && [b][1..] == [];
    assert WriteMembers([]) == [125];
    assert WriteMembers([b]) == [44] + (Quoted(b.key) + ([58] + (Write(b.value) + [125])));
  }

  // ---------- the first unit tells the kind ----------

  datatype Kind = NullKind | TrueKind | FalseKind | NumKind | TextKind | ArrKind | ObjKind | NoKind

  function KindOf(v: Json): Kind {
    match v
    case Null => NullKind
    case Undefined => NullKind
    case Bool(b) => if b then TrueKind else FalseKind
    case Num(_) => NumKind
    case Text(_) => TextKind
    case Arr(_) => ArrKind
    case Obj(_) => ObjKind
  }

  function KindOfUnit(u: Unit): Kind {
    if u == 110 then NullKind else if u == 116 then TrueKind else if u == 102 then FalseKind
    else if u == QUOTE then TextKind else if u == OPEN_BRACKET then ArrKind else if u == OPEN_BRACE then ObjKind
    else if IsDigit(u) || u == MINUS then NumKind else NoKind
  }

  lemma FirstUnitTells(v: Json)
    requires Printable(v)
    ensures Write(v) != [] && KindOfUnit(Write(v)[0]) == KindOf(v)
  {
  }

  // What may follow a value.
  predicate Ends(x: Str) {
    x != [] ==> x[0] == COMMA || x[0] == CLOSE_BRACKET || x[0] == CLOSE_BRACE
  }

  function TokenOf(t: Str): Str {
    if t != [] && InToken(t[0]) then [t[0]] + TokenOf(t[1..]) else []
  }

  lemma {:induction false} TokenReads(a: Str, x: Str)
    requires (forall u | u in a :: InToken(u)) && Ends(x)
    ensures TokenOf(a + x) == a
  {
    if a == [] {
      assert a + x == x;
    } else {
      assert (a + x)[1..] == a[1..] + x;
      TokenReads(a[1..], x);
    }
  }

  lemma SamePrefix(a: Str, b: Str, x: Str, y: Str)
    requires a + x == b + y && |a| == |b|
    ensures a == b && x == y
  {
    assert a == (a + x)[..|a|] && b == (b + y)[..|a|];
    assert x == (a + x)[|a|..] && y == (b + y)[|a|..];
  }

  lemma TokenSplits(a: Str, b: Str, x: Str, y: Str)
    requires IsToken(a) && IsToken(b) && Ends(x) && Ends(y) && a + x == b + y
    ensures a == b && x == y
  {
    TokenReads(a, x);
    TokenReads(b, y);
    SamePrefix(a, b, x, y);
  }

  // ---------- one way to read ----------

  lemma ItemsEnd(items: seq<Json>, x: Str)
    ensures Ends(WriteItems(items) + x)
  {
  }

  lemma MembersEnd(members: seq<Member>, x: Str)
    ensures Ends(WriteMembers(members) + x)
  {
  }

  lemma SameKind(a: Json, b: Json, x: Str, y: Str)
    requires Printable(a) && Printable(b) && Write(a) + x == Write(b) + y
    ensures KindOf(a) == KindOf(b)
  {
    FirstUnitTells(a);
    FirstUnitTells(b);
    assert Write(a)[0] == (Write(a) + x)[0];
    assert Write(b)[0] == (Write(b) + y)[0];
  }

  lemma {:induction false} WriteSplits(a: Json, b: Json, x: Str, y: Str)
    requires Printable(a) && Printable(b) && Ends(x) && Ends(y) && Write(a) + x == Write(b) + y
    ensures a == b && x == y
    decreases a
  {
    SameKind(a, b, x, y);
    match a {
      case Num(token) => TokenSplits(token, b.token, x, y);
      case Text(s) => QuotedSplits(s, b.s, x, y);
      case Arr(items) => ArraySplits(items, b.items, x, y);
      case Obj(members) => ObjectSplits(members, b.members, x, y);
      case _ => SamePrefix(Write(a), Write(b), x, y);
    }
  }

  // Both texts open with the same unit, or not.
  lemma AfterFirst(u: Unit, v: Unit, s: Str, t: Str, x: Str, y: Str)
    requires ([u] + s) + x == ([v] + t) + y
    ensures u == v && s + x == t + y
  {
    assert (([u] + s) + x)[0] == u && (([v] + t) + y)[0] == v;
    assert (([u] + s) + x)[1..] == s + x && (([v] + t) + y)[1..] == t + y;
  }

  lemma Regroup(s: Str, t: Str, x: Str)
    ensures (s + t) + x == s + (t + x)
  {
  }

  lemma NotClosing(v: Json, s: Str)
    requires Printable(v)
    ensures Write(v) + s != [] && (Write(v) + s)[0] != CLOSE_BRACKET
  {
    FirstUnitTells(v);
  }

  lemma {:induction false} ItemSplits(a: seq<Json>, b: seq<Json>, x: Str, y: Str)
    requires a != [] && b != [] && PrintableItems(a) && PrintableItems(b)
    requires (Write(a[0]) + WriteItems(a[1..])) + x == (Write(b[0]) + WriteItems(b[1..])) + y
    ensures a == b && x == y
    decreases a, 0
  {
    var restA, restB := WriteItems(a[1..]) + x, WriteItems(b[1..]) + y;
    Regroup(Write(a[0]), WriteItems(a[1..]), x);
    Regroup(Write(b[0]), WriteItems(b[1..]), y);
    ItemsEnd(a[1..], x);
    ItemsEnd(b[1..], y);
    WriteSplits(a[0], b[0], restA, restB);
    ItemsSplit(a[1..], b[1..], x, y);
    assert a == [a[0]] + a[1..] && b == [b[0]] + b[1..];
  }

  lemma {:induction false} ItemsSplit(a: seq<Json>, b: seq<Json>, x: Str, y: Str)
    requires PrintableItems(a) && PrintableItems(b) && WriteItems(a) + x == WriteItems(b) + y
    ensures a == b && x == y
    decreases a, 1
  {
    var restA := if a == [] then [] else Write(a[0]) + WriteItems(a[1..]);
    var restB := if b == [] then [] else Write(b[0]) + WriteItems(b[1..]);
    assert WriteItems(a) == [if a == [] then CLOSE_BRACKET else COMMA] + restA;
    assert WriteItems(b) == [if b == [] then CLOSE_BRACKET else COMMA] + restB;
    AfterFirst(if a == [] then CLOSE_BRACKET else COMMA, if b == [] then CLOSE_BRACKET else COMMA, restA, restB, x, y);
    if a != [] && b != [] {
      ItemSplits(a, b, x, y);
    } else {
      assert restA + x == x && restB + y == y;
    }
  }

  lemma {:induction false} ArraySplits(a: seq<Json>, b: seq<Json>, x: Str, y: Str)
    requires PrintableItems(a) && PrintableItems(b) && Write(Arr(a)) + x == Write(Arr(b)) + y
    ensures a == b && x == y
    decreases a, 1
  {
    var restA := if a == [] then [CLOSE_BRACKET] else Write(a[0]) + WriteItems(a[1..]);
    var restB := if b == [] then [CLOSE_BRACKET] else Write(b[0]) + WriteItems(b[1..]);
    assert Write(Arr(a)) == [OPEN_BRACKET] + restA && Write(Arr(b)) == [OPEN_BRACKET] + restB;
    AfterFirst(OPEN_BRACKET, OPEN_BRACKET, restA, restB, x, y);
    if a != [] {
      NotClosing(a[0], WriteItems(a[1..]));
    }
    if b != [] {
      NotClosing(b[0], WriteItems(b[1..]));
    }
    assert restA[0] == (restA + x)[0] && restB[0] == (restB + y)[0];
    if a != [] && b != [] {
      ItemSplits(a, b, x, y);
    } else if a == [] && b == [] {
      SamePrefix(restA, restB, x, y);
    }
  }

  lemma MemberText(ms: seq<Member>, x: Str)
    requires ms != []
    ensures (Quoted(ms[0].key) + ([COLON] + (Write(ms[0].value) + WriteMembers(ms[1..])))) + x ==
            Quoted(ms[0].key) + ([COLON] + (Write(ms[0].value) + (WriteMembers(ms[1..]) + x)))
  {
  }

  lemma {:induction false} MemberSplits(a: seq<Member>, b: seq<Member>, x: Str, y: Str)
    requires a != [] && b != [] && PrintableMembers(a) && PrintableMembers(b)
    requires (Quoted(a[0].key) + ([COLON] + (Write(a[0].value) + WriteMembers(a[1..])))) + x ==
             (Quoted(b[0].key) + ([COLON] + (Write(b[0].value) + WriteMembers(b[1..])))) + y
    ensures a == b && x == y
    decreases a, 0
  {
    var restA, restB := WriteMembers(a[1..]) + x, WriteMembers(b[1..]) + y;
    var valueA, valueB := Write(a[0].value) + restA, Write(b[0].value) + restB;
    MemberText(a, x);
    MemberText(b, y);
    QuotedSplits(a[0].key, b[0].key, [COLON] + valueA, [COLON] + valueB);
    assert ([COLON] + valueA)[1..] == valueA && ([COLON] + valueB)[1..] == valueB;
    MembersEnd(a[1..], x);
    MembersEnd(b[1..], y);
    var m := a[0];
    assert m.value < m;
    WriteSplits(m.value, b[0].value, restA, restB);
    MembersSplit(a[1..], b[1..], x, y);
    assert a == [a[0]] + a[1..] && b == [b[0]] + b[1..];
  }

  lemma {:induction false} MembersSplit(a: seq<Member>, b: seq<Member>, x: Str, y: Str)
    requires PrintableMembers(a) && PrintableMembers(b) && WriteMembers(a) + x == WriteMembers(b) + y
    ensures a == b && x == y
    decreases a, 1
  {
    var restA := if a == [] then [] else Quoted(a[0].key) + ([COLON] + (Write(a[0].value) + WriteMembers(a[1..])));
    var restB := if b == [] then [] else Quoted(b[0].key) + ([COLON] + (Write(b[0].value) + WriteMembers(b[1..])));
    assert WriteMembers(a) == [if a == [] then CLOSE_BRACE else COMMA] + restA;
    assert WriteMembers(b) == [if b == [] then CLOSE_BRACE else COMMA] + restB;
    AfterFirst(if a == [] then CLOSE_BRACE else COMMA, if b == [] then CLOSE_BRACE else COMMA, restA, restB, x, y);
    if a != [] && b != [] {
      MemberSplits(a, b, x, y);
    } else {
      assert restA + x == x && restB + y == y;
    }
  }

  lemma {:induction false} ObjectSplits(a: seq<Member>, b: seq<Member>, x: Str, y: Str)
    requires PrintableMembers(a) && PrintableMembers(b) && Write(Obj(a)) + x == Write(Obj(b)) + y
    ensures a == b && x == y
    decreases a, 1
  {
    var restA := if a == [] then [CLOSE_BRACE]
                 else Quoted(a[0].key) + ([COLON] + (Write(a[0].value) + WriteMembers(a[1..])));
    var restB := if b == [] then [CLOSE_BRACE]
                 else Quoted(b[0].key) + ([COLON] + (Write(b[0].value) + WriteMembers(b[1..])));
    assert Write(Obj(a)) == [OPEN_BRACE] + restA && Write(Obj(b)) == [OPEN_BRACE] + restB;
    AfterFirst(OPEN_BRACE, OPEN_BRACE, restA, restB, x, y);
    assert restA[0] == (restA + x)[0] && restB[0] == (restB + y)[0];
    if a != [] && b != [] {
      MemberSplits(a, b, x, y);
    } else if a == [] && b == [] {
      SamePrefix(restA, restB, x, y);
    }
  }

  // Equal text, equal values: quotes, commas, brackets and digits inside strings notwithstanding.
  lemma WriteIsInjective(a: Json, b: Json)
    requires Printable(a) && Printable(b) && Write(a) == Write(b)
    ensures a == b
  {
    assert Write(a) + [] == Write(a) && Write(b) + [] == Write(b);
    WriteSplits(a, b, [], []);
  }
}
