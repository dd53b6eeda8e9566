/** Decimal numerals as JavaScript text. */
module Numerals {
  import opened Text

  const ZERO: Unit := 48

  predicate IsDigit(u: Unit) {
    ZERO <= u < ZERO + 10
  }

  function Decimal(n: nat): Str {
    if n < 10 then [ZERO + n] else Decimal(n / 10) + [ZERO + n % 10]
  }

  function Number(t: Str): nat
    requires forall u | u in t :: IsDigit(u)
  {
    if t == [] then 0
    else
      var last := t[|t| - 1];
      assert IsDigit(last);
      10 * Number(t[..|t| - 1]) + (last - ZERO)
  }

  lemma {:induction false} NumberOfDecimal(n: nat)
    ensures Decimal(n) != [] && forall u | u in Decimal(n) :: IsDigit(u)
    ensures Number(Decimal(n)) == n
  {
    if n < 10 {
      assert [ZERO + n][..0] == [];
    } else {
      NumberOfDecimal(n / 10);
      var t := Decimal(n);
      assert t[..|t| - 1] == Decimal(n / 10);
    }
  }

  // Text before the first unit that is not a digit.
  function Digits(t: Str): Str {
    if t != [] && IsDigit(t[0]) then [t[0]] + Digits(t[1..]) else []
  }

  lemma {:induction false} DigitsOf(a: Str, x: Str)
    requires (forall u | u in a :: IsDigit(u)) && (x != [] ==> !IsDigit(x[0]))
    ensures Digits(a + x) == a
  {
    if a == [] {
      assert a + x == x;
    } else {
      assert (a + x)[1..] == a[1..] + x;
      DigitsOf(a[1..], x);
    }
  }

  // A numeral followed by something else can be read only one way.
  lemma DecimalSplits(m: nat, n: nat, x: Str, y: Str)
    requires Decimal(m) + x == Decimal(n) + y
    requires (x != [] ==> !IsDigit(x[0])) && (y != [] ==> !IsDigit(y[0]))
    ensures m == n && x == y
  {
    NumberOfDecimal(m);
    NumberOfDecimal(n);
    DigitsOf(Decimal(m), x);
    DigitsOf(Decimal(n), y);
    assert x == (Decimal(m) + x)[|Decimal(m)|..];
    assert y == (Decimal(n) + y)[|Decimal(n)|..];
  }
}
