/** JSON values and the text JavaScript writes for them, which determines the value. */
module JsonText {
  import opened Text
  import opened Utf8

  // A number is the text JavaScript prints for it; an object lists its own members in the order
  // they are enumerated.
  datatype Json =
    | Null
    | Undefined
    | Bool(b: bool)
    | Num(token: Str)
    | Text(s: Str)
    | Arr(items: seq<Json>)
    | Obj(members: seq<Member>)

  datatype Member = Member(key: Str, value: Json)

  const COMMA: Unit := 44
  const COLON: Unit := 58
  const QUOTE: Unit := 34
  const BACKSLASH: Unit := 92
  const OPEN_BRACKET: Unit := 91
  const CLOSE_BRACKET: Unit := 93
  const OPEN_BRACE: Unit := 123
  const CLOSE_BRACE: Unit := 125
  const MINUS: Unit := 45
  const LOWER_U: Unit := 117

  // ---------- strings ----------

  function HexDigit(d: nat): Unit
    requires d < 16
  {
    if d < 10 then 48 + d else 87 + d
  }

  function HexValue(u: Unit): nat {
    if 48 <= u < 58 then u - 48 else if 97 <= u < 103 then u - 87 else 0
  }

  function Hex4(u: Unit): Str {
    var a := u / 16;
    var b := a / 16;
    [HexDigit(b / 16), HexDigit(b % 16), HexDigit(a % 16), HexDigit(u % 16)]
  }

  // \b \t \n \f \r have letters of their own.
  function Letter(u: Unit): Unit {
    if u == 8 then 98 else if u == 9 then 116 else if u == 10 then 110 else if u == 12 then 102 else if u == 13 then 114 else u
  }

  function Lettered(u: Unit): Unit {
    if u == 98 then 8 else if u == 116 then 9 else if u == 110 then 10 else if u == 102 then 12 else if u == 114 then 13 else u
  }

  function Escaped(u: Unit): Str {
    if Letter(u) != u || u == QUOTE || u == BACKSLASH then [BACKSLASH, Letter(u)]
    else if u < 32 || IsHigh(u) || IsLow(u) then [BACKSLASH, LOWER_U] + Hex4(u)
    else [u]
  }

  // A surrogate pair is written as it is, half a pair escaped.
  function Chunk(s: Str): Str
    requires s != []
  {
    if Step(s) == 2 then [s[0], s[1]] else Escaped(s[0])
  }

  // With the closing quote.
  function Body(s: Str): Str
    decreases |s|
  {
    if s == [] then [QUOTE] else Chunk(s) + Body(s[Step(s)..])
  }

  function Quoted(s: Str): Str {
    [QUOTE] + Body(s)
  }

  // One unit read back, and how much text it took.
  function Next(t: Str): (r: (Unit, nat))
    requires t != []
    ensures 1 <= r.1
  {
    if t[0] != BACKSLASH || |t| < 2 then (t[0], 1)
    else if t[1] != LOWER_U || |t| < 6 then (Lettered(t[1]), 2)
    else (Joined(HexValue(t[2]), HexValue(t[3]), HexValue(t[4]), HexValue(t[5])), 6)
  }

  function Joined(a: nat, b: nat, c: nat, d: nat): Unit
    requires a < 16 && b < 16 && c < 16 && d < 16
  {
    4096 * a + 256 * b + 16 * c + d
  }

  // The escapes as they are read by eye.
  lemma EscapesAre()
    ensures Escaped(8) == Ascii("\\b") && Escaped(9) == Ascii("\\t") && Escaped(10) == Ascii("\\n")
    ensures Escaped(12) == Ascii("\\f") && Escaped(13) == Ascii("\\r")
  {
  }

  lemma QuotesAre()
    ensures Escaped(34) == Ascii("\\\"") && Escaped(92) == Ascii("\\\\")
  {
  }

  // Lower-case hexadecimal, for what else has no print.
  lemma HexIs()
    ensures Hex4(0) == [48, 48, 48, 48] && Hex4(31) == [48, 48, 49, 102] && Hex4(0xDABC) == [100, 97, 98, 99]
  {
  }

  lemma OthersAre()
    ensures forall u: Unit | u < 32 && u !in {8, 9, 10, 12, 13} :: |Escaped(u)| == 6
    ensures forall u: Unit | u >= 32 && u != 34 && u != 92 && !IsHigh(u) && !IsLow(u) :: Escaped(u) == [u]
  {
  }

  // The string up to the closing quote, and what follows.
  function Read(t: Str): (Str, Str)
    decreases |t|
  {
    if t == [] then ([], [])
    else if t[0] == QUOTE then ([], t[1..])
    else
      var (u, n) := Next(t);
      var (s, rest) := Read(if n <= |t| then t[n..] else []);
      ([u] + s, rest)
  }

  lemma HexReads(u: Unit)
    ensures var h := Hex4(u); Joined(HexValue(h[0]), HexValue(h[1]), HexValue(h[2]), HexValue(h[3])) == u
  {
  }

  lemma NextOfEscaped(u: Unit, x: Str)
    ensures var t := Escaped(u) + x; t[0] != QUOTE && Next(t) == (u, |Escaped(u)|)
  {
    HexReads(u);
  }

  lemma ReadOne(head: Str, x: Str, u: Unit)
    requires head != [] && head[0] != QUOTE && Next(head + x) == (u, |head|)
    ensures Read(head + x) == ([u] + Read(x).0, Read(x).1)
  {
    assert (head + x)[|head|..] == x;
  }

  lemma ReadPair(high: Unit, low: Unit, rest: Str)
    requires IsHigh(high) && IsLow(low)
    ensures Read([high, low] + rest) == ([high, low] + Read(rest).0, Read(rest).1)
  {
    var tail := [low] + rest;
    assert [high, low] + rest == [high] + tail;
    ReadOne([low], rest, low);
    ReadOne([high], tail, high);
    assert [high] + ([low] + Read(rest).0) == [high, low] + Read(rest).0;
  }

  lemma ReadEscaped(u: Unit, rest: Str)
    ensures Read(Escaped(u) + rest) == ([u] + Read(rest).0, Read(rest).1)
  {
    NextOfEscaped(u, rest);
    ReadOne(Escaped(u), rest, u);
  }

  lemma ReadChunk(s: Str, rest: Str)
    requires s != []
    ensures Read(Chunk(s) + rest) == (s[..Step(s)] + Read(rest).0, Read(rest).1)
  {
    if Step(s) == 2 {
      ReadPair(s[0], s[1], rest);
      assert s[..2] == [s[0], s[1]];
    } else {
      ReadEscaped(s[0], rest);
      assert s[..1] == [s[0]];
    }
  }

  lemma BodySplits(s: Str, x: Str)
    requires s != []
    ensures Body(s) + x == Chunk(s) + (Body(s[Step(s)..]) + x)
  {
  }

  lemma ReadQuote(x: Str)
    ensures Read([QUOTE] + x) == ([], x)
  {
    assert ([QUOTE] + x)[1..] == x;
  }

  lemma ReadFirst(s: Str, x: Str)
    requires s != [] && Read(Body(s[Step(s)..]) + x) == (s[Step(s)..], x)
    ensures Read(Body(s) + x) == (s, x)
  {
    ReadChunk(s, Body(s[Step(s)..]) + x);
    BodySplits(s, x);
    assert s == s[..Step(s)] + s[Step(s)..];
  }

  lemma {:induction false} ReadBody(s: Str, x: Str)
    ensures Read(Body(s) + x) == (s, x)
    decreases |s|
  {
    if s == [] {
      ReadQuote(x);
    } else {
      ReadBody(s[Step(s)..], x);
      ReadFirst(s, x);
    }
  }

  // A string literal can be read only one way, whatever follows it.
  lemma QuotedSplits(s: Str, t: Str, x: Str, y: Str)
    requires Quoted(s) + x == Quoted(t) + y
    ensures s == t && x == y
  {
    assert (Quoted(s) + x)[1..] == Body(s) + x && (Quoted(t) + y)[1..] == Body(t) + y;
    ReadBody(s, x);
    ReadBody(t, y);
  }
}
