/** The pre-authentication encoding an attestation is signed over. */
module Pae {
  import opened Outcomes
  import opened Text
  import opened Numerals
  import opened Utf8

  const SP: Unit := 32

  function Header(): Str {
    Ascii("DSSEv1 ")
  }

  // A length in code units, a space, and the text.
  function Counted(t: Str): Str {
    Decimal(|t|) + ([SP] + t)
  }

  function Encode(payloadType: Str, body: Str): Str {
    Header() + (Counted(payloadType) + ([SP] + Counted(body)))
  }

  // Counted text says itself where it ends.
  lemma CountedSplits(a: Str, b: Str, x: Str, y: Str)
    requires Counted(a) + x == Counted(b) + y
    ensures a == b && x == y
  {
    assert Counted(a) + x == Decimal(|a|) + ([SP] + (a + x));
    assert Counted(b) + y == Decimal(|b|) + ([SP] + (b + y));
    DecimalSplits(|a|, |b|, [SP] + (a + x), [SP] + (b + y));
    assert ([SP] + (a + x))[1..] == a + x && ([SP] + (b + y))[1..] == b + y;
    assert (a + x)[..|a|] == a && (b + y)[..|a|] == b;
    assert (a + x)[|a|..] == x && (b + y)[|a|..] == y;
  }

  // The signed text determines both parts, whatever spaces or digits they contain.
  lemma EncodeIsInjective(type1: Str, body1: Str, type2: Str, body2: Str)
    requires Encode(type1, body1) == Encode(type2, body2)
    ensures type1 == type2 && body1 == body2
  {
    var h := Header();
    var rest1, rest2 := Counted(type1) + ([SP] + Counted(body1)), Counted(type2) + ([SP] + Counted(body2));
    assert (h + rest1)[|h|..] == rest1 && (h + rest2)[|h|..] == rest2;
    CountedSplits(type1, type2, [SP] + Counted(body1), [SP] + Counted(body2));
    assert ([SP] + Counted(body1))[1..] == Counted(body1) && ([SP] + Counted(body2))[1..] == Counted(body2);
    assert Counted(body1) + [] == Counted(body1) && Counted(body2) + [] == Counted(body2);
    CountedSplits(body1, body2, [], []);
  }

  // ---------- read from the left ----------

  // A length, a space, that much text, and what follows.
  function ReadCounted(t: Str): Option<(Str, Str)> {
    var digits := Digits(t);
    DigitsAreDigits(t);
    var n := Number(digits);
    if digits == [] || |t| < |digits| + 1 + n || t[|digits|] != SP then None
    else Some((t[|digits| + 1..|digits| + 1 + n], t[|digits| + 1 + n..]))
  }

  // First the version, then the type, then the body, and nothing after it.
  function ReadBack(t: Str): Option<(Str, Str)> {
    if |t| < 7 || t[..7] != Ascii("DSSEv1 ") then None
    else
      var payloadType := ReadCounted(t[7..]);
      if payloadType.None? || payloadType.value.1 == [] || payloadType.value.1[0] != SP then None
      else
        var body := ReadCounted(payloadType.value.1[1..]);
        if body.None? || body.value.1 != [] then None else Some((payloadType.value.0, body.value.0))
  }

  lemma {:induction false} DigitsAreDigits(t: Str)
    ensures |Digits(t)| <= |t| && forall u | u in Digits(t) :: IsDigit(u)
    ensures |Digits(t)| < |t| ==> !IsDigit(t[|Digits(t)|])
  {
    if t != [] && IsDigit(t[0]) {
      DigitsAreDigits(t[1..]);
    }
  }

  lemma ReadsCounted(text: Str, x: Str)
    ensures ReadCounted(Counted(text) + x) == Some((text, x))
  {
    var t, d := Counted(text) + x, Decimal(|text|);
    NumberOfDecimal(|text|);
    assert t == d + ([SP] + (text + x));
    DigitsOf(d, [SP] + (text + x));
    assert t[|d|] == SP && t[|d| + 1..] == text + x;
    assert t[|d| + 1..|d| + 1 + |text|] == text && t[|d| + 1 + |text|..] == x;
  }

  // What was encoded is read back, the type first.
  lemma EncodeReadsBack(payloadType: Str, body: Str)
    ensures ReadBack(Encode(payloadType, body)) == Some((payloadType, body))
  {
    var t, rest := Encode(payloadType, body), [SP] + Counted(body);
    assert |Header()| == 7 && t[..7] == Header() && t[7..] == Counted(payloadType) + rest;
    ReadsCounted(payloadType, rest);
    assert rest[1..] == Counted(body) && Counted(body) == Counted(body) + [];
    ReadsCounted(body, []);
  }

  // ---------- as signed bytes ----------

  lemma {:induction false} DecimalIsAscii(n: nat)
    ensures IsAscii(Decimal(n))
  {
    NumberOfDecimal(n);
  }

  lemma RepairedAscii(t: Str)
    requires IsAscii(t)
    ensures Repaired(t) == t
  {
    AsciiIsWhole(t);
    WholeIsRepaired(t);
  }

  lemma RepairedCounted(t: Str)
    ensures Repaired(Counted(t)) == Counted(Repaired(t))
  {
    RepairedIsWhole(t);
    DecimalIsAscii(|t|);
    RepairedAscii(Decimal(|t|));
    RepairedAscii([SP]);
    RepairedConcat([SP], t);
    RepairedConcat(Decimal(|t|), [SP] + t);
  }

  lemma RepairedEncode(payloadType: Str, body: Str)
    ensures Repaired(Encode(payloadType, body)) == Encode(Repaired(payloadType), Repaired(body))
  {
    var rest := [SP] + Counted(body);
    assert IsAscii(Header());
    RepairedAscii(Header());
    RepairedAscii([SP]);
    RepairedCounted(payloadType);
    RepairedCounted(body);
    RepairedConcat([SP], Counted(body));
    RepairedConcat(Counted(payloadType), rest);
    RepairedConcat(Header(), Counted(payloadType) + rest);
  }

  // The bytes that are signed determine type and body exactly up to half surrogate pairs.
  lemma SignedBytesIff(type1: Str, body1: Str, type2: Str, body2: Str)
    ensures Bytes(Encode(type1, body1)) == Bytes(Encode(type2, body2)) <==>
            Repaired(type1) == Repaired(type2) && Repaired(body1) == Repaired(body2)
  {
    BytesIff(Encode(type1, body1), Encode(type2, body2));
    RepairedEncode(type1, body1);
    RepairedEncode(type2, body2);
    if Bytes(Encode(type1, body1)) == Bytes(Encode(type2, body2)) {
      EncodeIsInjective(Repaired(type1), Repaired(body1), Repaired(type2), Repaired(body2));
    }
  }
}
