/** Bitwise exclusive or on natural numbers: JavaScript's ^ on non-negative operands. */
module Bitwise {

  function Digit(a: nat, b: nat): nat {
    if a % 2 == b % 2 then 0 else 1
  }

  function Xor(a: nat, b: nat): nat
    decreases a + b
  {
    if a == 0 && b == 0 then 0 else 2 * Xor(a / 2, b / 2) + Digit(a, b)
  }

  // Xor works on the lowest digits and the halves independently.
  lemma XorDigits(a: nat, b: nat, h: nat, g: nat, d: nat, e: nat)
    requires a == 2 * h + d && b == 2 * g + e && d < 2 && e < 2
    ensures Xor(a, b) == 2 * Xor(h, g) + (if d == e then 0 else 1)
  {
    assert a / 2 == h && b / 2 == g && a % 2 == d && b % 2 == e;
  }

  lemma XorUnfold(a: nat, b: nat)
    ensures Xor(a, b) == 2 * Xor(a / 2, b / 2) + Digit(a, b)
  {
  }

  lemma {:induction false} XorZero(a: nat)
    ensures Xor(a, 0) == a
  {
    if a != 0 {
      XorZero(a / 2);
    }
  }

  lemma {:induction false} XorCommutes(a: nat, b: nat)
    ensures Xor(a, b) == Xor(b, a)
    decreases a + b
  {
    if a != 0 || b != 0 {
      XorCommutes(a / 2, b / 2);
    }
  }

  lemma {:induction false} XorAssociates(a: nat, b: nat, c: nat)
    ensures Xor(Xor(a, b), c) == Xor(a, Xor(b, c))
    decreases a + b + c
  {
    if a != 0 || b != 0 || c != 0 {
      var h, g, k := a / 2, b / 2, c / 2;
      var d, e, f := a % 2, b % 2, c % 2;
      XorDigits(a, b, h, g, d, e);
      XorDigits(b, c, g, k, e, f);
      XorDigits(Xor(a, b), c, Xor(h, g), k, Digit(a, b), f);
      XorDigits(a, Xor(b, c), h, Xor(g, k), d, Digit(b, c));
      XorAssociates(h, g, k);
    }
  }

  lemma {:induction false} XorSelf(a: nat)
    ensures Xor(a, a) == 0
  {
    if a != 0 {
      XorSelf(a / 2);
    }
  }

  lemma XorZeroOnlyIfEqual(a: nat, b: nat)
    ensures Xor(a, b) == 0 <==> a == b
  {
    XorSelf(a);
    if Xor(a, b) == 0 {
      XorAssociates(a, a, b);
      XorZero(a);
      XorZero(b);
      XorCommutes(0, b);
    }
  }

  function Pow2(n: nat): nat {
    if n == 0 then 1 else 2 * Pow2(n - 1)
  }

  // Bit n of the exclusive or of two numbers of at most n + 1 bits.
  lemma {:induction false} XorTopBit(n: nat, a: nat, b: nat)
    requires a < 2 * Pow2(n) && b < 2 * Pow2(n)
    ensures Xor(a, b) < 2 * Pow2(n)
    ensures (Xor(a, b) >= Pow2(n)) == ((a >= Pow2(n)) != (b >= Pow2(n)))
  {
    XorUnfold(a, b);
    if n > 0 {
      XorTopBit(n - 1, a / 2, b / 2);
    }
  }

  lemma {:induction false} XorFits(n: nat, a: nat, b: nat)
    requires a < Pow2(n) && b < Pow2(n)
    ensures Xor(a, b) < Pow2(n)
  {
    XorUnfold(a, b);
    if n > 0 {
      XorFits(n - 1, a / 2, b / 2);
    }
  }
}
