/** The field with 256 elements: bytes, with XOR as addition and carry-less multiplication
    modulo 0x11d as multiplication.  This module defines the field and proves its laws;
    the lookup tables that compute in it are in GfTables. */
module Gf256 {
  import opened Bitwise
  import opened Algebra
  import opened Periods

  type Byte = b: nat | b < 256

  function Add(a: Byte, b: Byte): Byte {
    XorFits(8, a, b);
    Xor(a, b)
  }

  function Bytes(): Group<Byte> {
    Group(0, (a: Byte, b: Byte) => Add(a, b))
  }

  function Words(): Group<nat> {
    Group(0, (a: nat, b: nat) => Xor(a, b))
  }

  lemma BytesIsGroup()
    ensures Bytes().IsGroup()
  {
    forall a: Byte, b: Byte, c: Byte ensures Bytes().LawsAt(a, b, c) {
      XorCommutes(a, b);
      XorAssociates(a, b, c);
      XorZero(a);
      XorSelf(a);
    }
  }

  // ---------- reduction by the polynomial x^8 + x^4 + x^3 + x^2 + 1 ----------

  const POLYNOMIAL: nat := 0x11d

  // A nine-bit value brought back to eight bits.
  function Reduce(w: nat): Byte
    requires w < 512
  {
    XorTopBit(8, w, POLYNOMIAL);
    if w < 256 then w else Xor(w, POLYNOMIAL)
  }

  // Multiplication by x, that is, by 2.
  function Double(a: Byte): Byte {
    Reduce(2 * a)
  }

  // Long division of a polynomial over GF(2) by POLYNOMIAL, one bit brought down at a time.
  function Remainder(p: nat): Byte {
    if p < 256 then p else Reduce(2 * Remainder(p / 2) + p % 2)
  }

  lemma ReduceXor(v: nat, w: nat)
    requires v < 512 && w < 512
    ensures Xor(v, w) < 512
    ensures Reduce(Xor(v, w)) == Xor(Reduce(v), Reduce(w))
  {
    var m := POLYNOMIAL;
    XorTopBit(8, v, w);
    XorAssociates(v, w, m);
    XorAssociates(v, m, w);
    XorCommutes(w, m);
    XorAssociates(Xor(v, m), w, m);
    XorAssociates(v, m, m);
    XorAssociates(Xor(v, w), m, m);
    XorSelf(m);
    XorZero(v);
    XorZero(Xor(v, w));
  }

  lemma DoubleAdditive()
    ensures Bytes().Additive(Double)
  {
    forall a: Byte, b: Byte ensures Bytes().AdditiveAt(Double, a, b) {
      XorDigits(2 * a, 2 * b, a, b, 0, 0);
      ReduceXor(2 * a, 2 * b);
    }
  }

  lemma DoubleNonzero(a: Byte)
    ensures a != 0 ==> Double(a) != 0
  {
    XorZeroOnlyIfEqual(2 * a, POLYNOMIAL);
  }

  lemma DoubleInjective(a: Byte, b: Byte)
    ensures Double(a) == Double(b) ==> a == b
  {
    DoubleNonzero(Add(a, b));
    XorDigits(2 * a, 2 * b, a, b, 0, 0);
    ReduceXor(2 * a, 2 * b);
    XorZeroOnlyIfEqual(a, b);
    XorZeroOnlyIfEqual(Double(a), Double(b));
  }

  lemma RemainderUnfold(p: nat)
    ensures Remainder(p) == Reduce(2 * Remainder(p / 2) + p % 2)
  {
  }

  // One turn of the long division takes remainder u to r.
  predicate Brings(u: nat, d: nat, r: nat) {
    d < 2 && u < 256 && r == Reduce(2 * u + d)
  }

  lemma BringsXor(u: Byte, v: Byte, d: nat, e: nat, f: nat, r: nat, s: nat)
    requires d < 2 && e < 2 && f == if d == e then 0 else 1
    requires Brings(u, d, r) && Brings(v, e, s)
    ensures Brings(Xor(u, v), f, Xor(r, s))
  {
    XorFits(8, u, v);
    XorDigits(2 * u + d, 2 * v + e, u, v, d, e);
    ReduceXor(2 * u + d, 2 * v + e);
  }

  lemma RemainderOfParts(p: nat, h: nat, d: nat)
    requires d < 2 && p == 2 * h + d
    ensures Brings(Remainder(h), d, Remainder(p))
  {
    assert p / 2 == h && p % 2 == d;
    RemainderUnfold(p);
  }

  lemma RemainderXorStep(h: nat, g: nat, y: nat, d: nat, e: nat, f: nat)
    requires d < 2 && e < 2 && f == if d == e then 0 else 1
    requires Remainder(y) == Xor(Remainder(h), Remainder(g))
    ensures Remainder(2 * y + f) == Xor(Remainder(2 * h + d), Remainder(2 * g + e))
  {
    RemainderOfParts(2 * h + d, h, d);
    RemainderOfParts(2 * g + e, g, e);
    RemainderOfParts(2 * y + f, y, f);
    BringsXor(Remainder(h), Remainder(g), d, e, f, Remainder(2 * h + d), Remainder(2 * g + e));
  }

  lemma {:induction false} RemainderXor(p: nat, q: nat)
    ensures Remainder(Xor(p, q)) == Xor(Remainder(p), Remainder(q))
    decreases p + q
  {
    if p != 0 || q != 0 {
      var h, g, d, e := p / 2, q / 2, p % 2, q % 2;
      RemainderXor(h, g);
      XorDigits(p, q, h, g, d, e);
      RemainderXorStep(h, g, Xor(h, g), d, e, if d == e then 0 else 1);
    }
  }

  // ---------- multiplication ----------

  function Twice(w: nat): nat {
    2 * w
  }

  // The product of two polynomials over GF(2): shifted copies of a added without carries.
  function CarrylessProduct(a: nat, b: nat): nat {
    Words().Combine(Twice, a, b)
  }

  function Quotient(p: nat): nat {
    if p < 256 then 0
    else 2 * Quotient(p / 2) + (if 2 * Remainder(p / 2) + p % 2 < 256 then 0 else 1)
  }

  // The low bit of the second factor decides whether one more copy of the first is added.
  lemma ProductOfParts(a: nat, q: nat, b: nat)
    requires b < 2
    ensures CarrylessProduct(a, 2 * q + b) == Xor(if b == 1 then a else 0, 2 * CarrylessProduct(a, q))
  {
    assert (2 * q + b) / 2 == q && (2 * q + b) % 2 == b;
    XorSelf(0);
  }

  lemma DivisionStep(c: nat, r: Byte, d: nat)
    requires d < 2
    ensures var w := 2 * r + d; var top := w >= 256;
      Xor(Xor(if top then POLYNOMIAL else 0, 2 * c), Reduce(w)) == 2 * Xor(c, r) + d
  {
    var w, m := 2 * r + d, POLYNOMIAL;
    XorDigits(2 * c, w, c, r, 0, d);
    XorCommutes(m, 2 * c);
    XorAssociates(2 * c, m, Xor(w, m));
    XorCommutes(w, m);
    XorAssociates(m, m, w);
    XorSelf(m);
    XorCommutes(0, w);
    XorZero(w);
    XorCommutes(0, 2 * c);
    XorZero(2 * c);
  }

  // Remainder really is the remainder: p is a carry-less multiple of 0x11d plus a byte.
  lemma {:induction false} DivisionTheorem(p: nat)
    ensures p == Xor(CarrylessProduct(POLYNOMIAL, Quotient(p)), Remainder(p))
  {
    if p < 256 {
      XorCommutes(0, p);
      XorZero(p);
    } else {
      var r, q := Remainder(p / 2), Quotient(p / 2);
      DivisionTheorem(p / 2);
      ProductOfParts(POLYNOMIAL, q, if 2 * r + p % 2 < 256 then 0 else 1);
      DivisionStep(CarrylessProduct(POLYNOMIAL, q), r, p % 2);
    }
  }

  // Multiplication in the field: the sum of a * x^i over the bits i of b.
  function Mul(a: Byte, b: Byte): Byte {
    Bytes().Combine(Double, a, b)
  }

  // Multiplication in the field is the carry-less product modulo 0x11d.
  lemma {:induction false} MulIsProductModulo(a: nat, b: nat)
    ensures Bytes().Combine(Double, Remainder(a), b) == Remainder(CarrylessProduct(a, b))
  {
    if b != 0 {
      var rest := CarrylessProduct(a, b / 2);
      MulIsProductModulo(a, b / 2);
      RemainderUnfold(2 * rest);
      RemainderXor(Words().Pick(b % 2 == 1, a), 2 * rest);
    }
  }

  lemma {:induction false} ByteFromBits(a: Byte)
    ensures Mul(1, a) == a
  {
    if a != 0 {
      ByteFromBits(a / 2);
      XorDigits(a % 2, 2 * (a / 2), 0, a / 2, a % 2, 0);
      XorZero(a / 2);
      XorCommutes(0, a / 2);
    }
  }

  lemma MulCommutes(a: Byte, b: Byte)
    ensures Mul(a, b) == Mul(b, a)
  {
    BytesIsGroup();
    DoubleAdditive();
    ByteFromBits(a);
    ByteFromBits(b);
    Bytes().CombineCommutes(Double, 1, a, b);
  }

  lemma MulDouble(a: Byte, b: Byte)
    ensures Mul(a, Double(b)) == Double(Mul(a, b))
  {
    BytesIsGroup();
    DoubleAdditive();
    MulCommutes(a, Double(b));
    MulCommutes(a, b);
    Bytes().CombineNext(Double, b, a);
  }

  lemma MulXor(a: Byte, b: Byte, c: Byte)
    ensures Mul(a, Add(b, c)) == Add(Mul(a, b), Mul(a, c))
  {
    BytesIsGroup();
    DoubleAdditive();
    Bytes().CombineAddRight(Double, a, b, c);
  }

  // ---------- the powers of x ----------

  function Power(n: nat): Byte {
    Iterate(Double, n, 1)
  }
}
