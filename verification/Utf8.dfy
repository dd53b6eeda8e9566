/** Text as UTF-8 bytes, which is what is signed.  Half a surrogate pair has no UTF-8 form and is
    replaced by U+FFFD; nothing else is lost. */
module Utf8 {
  import opened Text

  const REPLACEMENT: Unit := 0xFFFD

  predicate IsHigh(u: Unit) {
    0xD800 <= u < 0xDC00
  }

  predicate IsLow(u: Unit) {
    0xDC00 <= u < 0xE000
  }

  predicate IsPair(t: Str) {
    |t| >= 2 && IsHigh(t[0]) && IsLow(t[1])
  }

  // The units of the first character.
  function Step(t: Str): nat {
    if IsPair(t) then 2 else 1
  }

  type Scalar = c: nat | c < 0x11_0000

  function First(t: Str): Scalar
    requires t != []
  {
    if IsPair(t) then 0x1_0000 + (t[0] - 0xD800) * 0x400 + (t[1] - 0xDC00)
    else if IsHigh(t[0]) || IsLow(t[0]) then REPLACEMENT
    else t[0]
  }

  function Scalars(t: Str): seq<Scalar>
    decreases |t|
  {
    if t == [] then [] else [First(t)] + Scalars(t[Step(t)..])
  }

  function Code(c: Scalar): seq<nat> {
    if c < 0x80 then [c]
    else if c < 0x800 then [0xC0 + c / 0x40, 0x80 + c % 0x40]
    else if c < 0x1_0000 then [0xE0 + c / 0x40 / 0x40, 0x80 + c / 0x40 % 0x40, 0x80 + c % 0x40]
    else [0xF0 + c / 0x40 / 0x40 / 0x40, 0x80 + c / 0x40 / 0x40 % 0x40, 0x80 + c / 0x40 % 0x40, 0x80 + c % 0x40]
  }

  function Codes(scalars: seq<Scalar>): seq<nat> {
    if scalars == [] then [] else Code(scalars[0]) + Codes(scalars[1..])
  }

  function Bytes(t: Str): seq<nat> {
    Codes(Scalars(t))
  }

  // Half a pair comes out as the three bytes of U+FFFD.
  lemma HalfPairBytes(u: Unit)
    requires IsHigh(u) || IsLow(u)
    ensures Bytes([u]) == [0xEF, 0xBF, 0xBD]
  {
    assert [u][1..] == [] && Scalars([u]) == [REPLACEMENT];
    assert Code(REPLACEMENT) == [0xEF, 0xBF, 0xBD] && Codes([]) == [];
  }

  // ---------- the bytes tell the characters ----------

  // The number of bytes, from the first of them.
  function CodeLength(first: nat): nat {
    if first < 0x80 then 1 else if first < 0xE0 then 2 else if first < 0xF0 then 3 else 4
  }

  lemma FirstByteTells(c: Scalar)
    ensures CodeLength(Code(c)[0]) == |Code(c)|
  {
  }

  // The character back from its bytes.
  function Decoded(code: seq<int>): int {
    if |code| == 1 then code[0]
    else if |code| == 2 then (code[0] - 0xC0) * 0x40 + (code[1] - 0x80)
    else if |code| == 3 then ((code[0] - 0xE0) * 0x40 + (code[1] - 0x80)) * 0x40 + (code[2] - 0x80)
    else if |code| == 4 then
      (((code[0] - 0xF0) * 0x40 + (code[1] - 0x80)) * 0x40 + (code[2] - 0x80)) * 0x40 + (code[3] - 0x80)
    else 0
  }

  lemma CodeDecodes(c: Scalar)
    ensures Decoded(Code(c)) == c
  {
    var a := c / 0x40;
    var b := a / 0x40;
    assert c == a * 0x40 + c % 0x40 && a == b * 0x40 + a % 0x40 && b == b / 0x40 * 0x40 + b % 0x40;
  }

  lemma CodeSplits(c: Scalar, d: Scalar, x: seq<nat>, y: seq<nat>)
    requires Code(c) + x == Code(d) + y
    ensures c == d && x == y
  {
    FirstByteTells(c);
    FirstByteTells(d);
    assert (Code(c) + x)[0] == Code(c)[0] && (Code(d) + y)[0] == Code(d)[0];
    var n := |Code(c)|;
    assert Code(c) == (Code(c) + x)[..n] && Code(d) == (Code(d) + y)[..n];
    assert x == (Code(c) + x)[n..] && y == (Code(d) + y)[n..];
    CodeDecodes(c);
    CodeDecodes(d);
  }

  lemma {:induction false} CodesAreInjective(a: seq<Scalar>, b: seq<Scalar>)
    requires Codes(a) == Codes(b)
    ensures a == b
  {
    assert a != [] ==> Codes(a) != [];
    assert b != [] ==> Codes(b) != [];
    if a != [] && b != [] {
      CodeSplits(a[0], b[0], Codes(a[1..]), Codes(b[1..]));
      CodesAreInjective(a[1..], b[1..]);
      assert a == [a[0]] + a[1..] && b == [b[0]] + b[1..];
    }
  }

  // ---------- the characters tell the text, half pairs aside ----------

  // The text with half pairs replaced.
  function Repaired(t: Str): Str
    decreases |t|
  {
    if t == [] then []
    else if IsPair(t) then [t[0], t[1]] + Repaired(t[2..])
    else [if IsHigh(t[0]) || IsLow(t[0]) then REPLACEMENT else t[0]] + Repaired(t[1..])
  }

  // No half pairs.
  predicate Whole(t: Str)
    decreases |t|
  {
    t != [] ==> (IsPair(t) || !(IsHigh(t[0]) || IsLow(t[0]))) && Whole(t[Step(t)..])
  }

  lemma {:induction false} RepairedIsWhole(t: Str)
    ensures Whole(Repaired(t)) && Scalars(Repaired(t)) == Scalars(t) && |Repaired(t)| == |t|
    decreases |t|
  {
    if t != [] {
      var n := Step(t);
      RepairedIsWhole(t[n..]);
      assert Repaired(t)[n..] == Repaired(t[n..]);
    }
  }

  lemma {:induction false} WholeIsRepaired(t: Str)
    requires Whole(t)
    ensures Repaired(t) == t
    decreases |t|
  {
    if t != [] {
      WholeIsRepaired(t[Step(t)..]);
    }
  }

  lemma FirstTells(a: Str, b: Str)
    requires a != [] && b != [] && Whole(a) && Whole(b) && First(a) == First(b)
    ensures Step(a) == Step(b) && a[..Step(a)] == b[..Step(b)]
  {
  }

  lemma {:induction false} WholeIsTold(a: Str, b: Str)
    requires Whole(a) && Whole(b) && Scalars(a) == Scalars(b)
    ensures a == b
    decreases |a|
  {
    if a != [] && b != [] {
      assert Scalars(a)[0] == First(a) && Scalars(b)[0] == First(b);
      assert Scalars(a)[1..] == Scalars(a[Step(a)..]) && Scalars(b)[1..] == Scalars(b[Step(b)..]);
      FirstTells(a, b);
      WholeIsTold(a[Step(a)..], b[Step(b)..]);
      assert a == a[..Step(a)] + a[Step(a)..] && b == b[..Step(b)] + b[Step(b)..];
    }
  }

  // Two texts have the same bytes exactly when they are the same but for half pairs.
  lemma BytesIff(a: Str, b: Str)
    ensures Bytes(a) == Bytes(b) <==> Repaired(a) == Repaired(b)
  {
    RepairedIsWhole(a);
    RepairedIsWhole(b);
    if Bytes(a) == Bytes(b) {
      CodesAreInjective(Scalars(a), Scalars(b));
      WholeIsTold(Repaired(a), Repaired(b));
    }
  }

  // Without half pairs, exactly when they are the same.
  lemma WholeBytesIff(a: Str, b: Str)
    requires Whole(a) && Whole(b)
    ensures Bytes(a) == Bytes(b) <==> a == b
  {
    BytesIff(a, b);
    WholeIsRepaired(a);
    WholeIsRepaired(b);
  }

  // ---------- texts put together ----------

  lemma {:induction false} WholeConcat(a: Str, b: Str)
    requires Whole(a) && Whole(b)
    ensures Whole(a + b)
    decreases |a|
  {
    if a == [] {
      assert a + b == b;
    } else {
      WholeConcat(a[Step(a)..], b);
      assert (a + b)[Step(a)..] == a[Step(a)..] + b;
    }
  }

  // No pair spans the seam.
  predicate Seam(a: Str, b: Str) {
    a == [] || b == [] || !IsHigh(a[|a| - 1]) || !IsLow(b[0])
  }

  // The first character repaired, then the rest.
  function RepairedFirst(t: Str): Str
    requires t != []
  {
    if IsPair(t) then [t[0], t[1]] else [if IsHigh(t[0]) || IsLow(t[0]) then REPLACEMENT else t[0]]
  }

  lemma RepairedSplits(t: Str, first: Str, rest: Str)
    requires t != [] && first == RepairedFirst(t) && rest == t[Step(t)..]
    ensures Repaired(t) == first + Repaired(rest)
  {
  }

  lemma FirstOfConcat(a: Str, b: Str, n: nat)
    requires Seam(a, b) && a != [] && n == Step(a)
    ensures Step(a + b) == n <= |a| && RepairedFirst(a + b) == RepairedFirst(a)
    ensures (a + b)[n..] == a[n..] + b && Seam(a[n..], b)
  {
    assert a[n..] != [] ==> a[n..][|a[n..]| - 1] == a[|a| - 1];
  }

  lemma {:induction false} RepairedConcat(a: Str, b: Str)
    requires Seam(a, b)
    ensures Repaired(a + b) == Repaired(a) + Repaired(b)
    decreases |a|
  {
    if a == [] {
      assert a + b == b;
    } else {
      var n, first := Step(a), RepairedFirst(a);
      FirstOfConcat(a, b, n);
      RepairedConcat(a[n..], b);
      RepairedSplits(a + b, first, a[n..] + b);
      RepairedSplits(a, first, a[n..]);
      assert first + (Repaired(a[n..]) + Repaired(b)) == (first + Repaired(a[n..])) + Repaired(b);
    }
  }

  predicate IsAscii(t: Str) {
    forall u | u in t :: u < 0x80
  }

  lemma {:induction false} AsciiIsWhole(t: Str)
    requires IsAscii(t)
    ensures Whole(t)
  {
    if t != [] {
      assert t[0] in t && forall u | u in t[1..] :: u in t;
      AsciiIsWhole(t[1..]);
    }
  }

  // There are as many bytes as code units exactly for ASCII text.
  lemma {:induction false} LengthIsBytesIff(t: Str)
    ensures |Bytes(t)| >= |t|
    ensures |Bytes(t)| == |t| <==> IsAscii(t)
    decreases |t|
  {
    if t != [] {
      var n := Step(t);
      LengthIsBytesIff(t[n..]);
      assert Scalars(t)[1..] == Scalars(t[n..]);
      assert t == t[..n] + t[n..] && t[0] in t;
      assert forall u | u in t[n..] :: u in t;
    }
  }
}
