/** Fields of characteristic 2 over an arbitrary carrier, and how one arises from a
    generator: an additive map `next` (multiplication by the generator) whose powers of
    one run through every nonzero element.  The laws are stated one triple at a time, and
    the quantifiers fire only where such a statement is mentioned. */
module Algebra {
  import opened Bitwise
  import opened Periods

  // ---------- groups, and linear combinations of the iterates of a map ----------

  datatype Group<!T(!new)> = Group(zero: T, add: (T, T) -> T) {

    ghost predicate LawsAt(a: T, b: T, c: T) {
      && add(a, b) == add(b, a)
      && add(add(a, b), c) == add(a, add(b, c))
      && add(a, zero) == a
      && add(a, a) == zero
    }

    ghost predicate IsGroup() {
      forall a, b, c {:trigger LawsAt(a, b, c)} :: LawsAt(a, b, c)
    }

    ghost predicate AdditiveAt(f: T -> T, a: T, b: T) {
      f(add(a, b)) == add(f(a), f(b))
    }

    ghost predicate Additive(f: T -> T) {
      forall a, b {:trigger AdditiveAt(f, a, b)} :: AdditiveAt(f, a, b)
    }

    function Pick(bit: bool, a: T): T {
      if bit then a else zero
    }

    // The sum of f^i(a) over the bits i set in b.
    function Combine(f: T -> T, a: T, b: nat): T {
      if b == 0 then zero else add(Pick(b % 2 == 1, a), f(Combine(f, a, b / 2)))
    }

    lemma Exchange(a: T, b: T, c: T, d: T)
      requires IsGroup()
      ensures add(add(a, b), add(c, d)) == add(add(a, c), add(b, d))
    {
      assert LawsAt(a, b, add(c, d));
      assert LawsAt(b, c, d);
      assert LawsAt(c, b, d);
      assert LawsAt(a, c, add(b, d));
    }

    lemma ZeroToZero(f: T -> T)
      requires IsGroup() && Additive(f)
      ensures f(zero) == zero
    {
      assert AdditiveAt(f, zero, zero);
      assert LawsAt(zero, zero, zero);
      assert LawsAt(f(zero), zero, zero);
    }

    lemma CombineUnfold(f: T -> T, a: T, b: nat)
      requires IsGroup() && Additive(f)
      ensures Combine(f, a, b) == add(Pick(b % 2 == 1, a), f(Combine(f, a, b / 2)))
    {
      ZeroToZero(f);
      assert LawsAt(zero, zero, zero);
    }

    lemma {:induction false} CombineAddLeft(f: T -> T, a: T, b: T, c: nat)
      requires IsGroup() && Additive(f)
      ensures Combine(f, add(a, b), c) == add(Combine(f, a, c), Combine(f, b, c))
    {
      assert LawsAt(zero, zero, zero);
      if c != 0 {
        var x, y := Combine(f, a, c / 2), Combine(f, b, c / 2);
        CombineAddLeft(f, a, b, c / 2);
        assert AdditiveAt(f, x, y);
        Exchange(Pick(c % 2 == 1, a), Pick(c % 2 == 1, b), f(x), f(y));
      }
    }

    lemma {:induction false} CombineAddRight(f: T -> T, a: T, b: nat, c: nat)
      requires IsGroup() && Additive(f)
      ensures Combine(f, a, Xor(b, c)) == add(Combine(f, a, b), Combine(f, a, c))
      decreases b + c
    {
      assert LawsAt(zero, zero, zero);
      if b != 0 || c != 0 {
        var x, y := Combine(f, a, b / 2), Combine(f, a, c / 2);
        XorUnfold(b, c);
        CombineAddRight(f, a, b / 2, c / 2);
        CombineUnfold(f, a, b);
        CombineUnfold(f, a, c);
        CombineUnfold(f, a, Xor(b, c));
        assert AdditiveAt(f, x, y);
        assert LawsAt(a, zero, zero) && LawsAt(zero, a, a) && LawsAt(a, a, a);
        Exchange(Pick(b % 2 == 1, a), Pick(c % 2 == 1, a), f(x), f(y));
      }
    }

    lemma {:induction false} CombineNext(f: T -> T, a: T, b: nat)
      requires IsGroup() && Additive(f)
      ensures Combine(f, f(a), b) == f(Combine(f, a, b))
    {
      ZeroToZero(f);
      if b != 0 {
        CombineNext(f, a, b / 2);
        assert AdditiveAt(f, Pick(b % 2 == 1, a), f(Combine(f, a, b / 2)));
      }
    }

    lemma {:induction false} CombineZero(f: T -> T, b: nat)
      requires IsGroup() && Additive(f)
      ensures Combine(f, zero, b) == zero
    {
      ZeroToZero(f);
      assert LawsAt(zero, zero, zero);
      if b != 0 {
        CombineZero(f, b / 2);
      }
    }

    // The double sum does not care which of its two factors is outside.
    lemma {:induction false} CombineCommutes(f: T -> T, a: T, b: nat, c: nat)
      requires IsGroup() && Additive(f)
      ensures Combine(f, Combine(f, a, b), c) == Combine(f, Combine(f, a, c), b)
      decreases c
    {
      if c == 0 {
        CombineZero(f, b);
      } else {
        var rest := Combine(f, a, c / 2);
        CombineCommutes(f, a, b, c / 2);
        CombineAddLeft(f, Pick(c % 2 == 1, a), f(rest), b);
        CombineNext(f, rest, b);
        CombineZero(f, b);
      }
    }
  }

  // ---------- fields, and a field from a generator ----------

  datatype Field<!T(!new)> = Field(zero: T, one: T, add: (T, T) -> T, mul: (T, T) -> T, inv: T -> T) {

    ghost predicate LawsAt(a: T, b: T, c: T) {
      && Group(zero, add).LawsAt(a, b, c)
      && mul(a, b) == mul(b, a)
      && mul(mul(a, b), c) == mul(a, mul(b, c))
      && mul(a, one) == a
      && mul(a, zero) == zero
      && mul(a, add(b, c)) == add(mul(a, b), mul(a, c))
      && (a != zero ==> mul(a, inv(a)) == one)
      && one != zero
    }

    ghost predicate IsField() {
      forall a, b, c {:trigger LawsAt(a, b, c)} :: LawsAt(a, b, c)
    }
  }

  datatype Generated<!T(!new)> = Generated(
    zero: T, one: T, add: (T, T) -> T, next: T -> T, mul: (T, T) -> T, log: T -> nat, order: nat)
  {
    ghost predicate LawsAt(a: T, b: T, c: T) {
      && Group(zero, add).LawsAt(a, b, c)
      && Group(zero, add).AdditiveAt(next, a, b)
      && (a != zero ==> next(a) != zero)
      && mul(a, one) == a
      && mul(a, next(b)) == next(mul(a, b))
      && mul(a, add(b, c)) == add(mul(a, b), mul(a, c))
      && (a != zero ==> log(a) < order && Power(log(a)) == a)
    }

    ghost predicate Valid() {
      && (forall a, b, c {:trigger LawsAt(a, b, c)} :: LawsAt(a, b, c))
      && one != zero
      && order > 0
      && Power(order) == one
    }

    function Power(n: nat): T {
      Iterate(next, n, one)
    }

    function Inverse(a: T): T {
      Power(if log(a) <= order then order - log(a) else 0)
    }

    function ToField(): Field<T> {
      Field(zero, one, add, mul, a => Inverse(a))
    }

    lemma {:induction false} IterateZero(n: nat)
      requires Valid()
      ensures Iterate(next, n, zero) == zero
    {
      if n > 0 {
        IterateZero(n - 1);
        assert LawsAt(zero, zero, zero);
        assert LawsAt(next(zero), zero, zero);
      }
    }

    lemma {:induction false} PowerNonzero(n: nat)
      requires Valid()
      ensures Power(n) != zero
    {
      if n > 0 {
        PowerNonzero(n - 1);
        assert LawsAt(Power(n - 1), zero, zero);
      }
    }

    // The exponents live modulo the order.
    lemma PowerPeriod(n: nat)
      requires Valid()
      ensures Power(n + order) == Power(n)
    {
      IterateIterate(next, n, order, one);
    }

    lemma {:induction false} MulPower(a: T, n: nat)
      requires Valid()
      ensures mul(a, Power(n)) == Iterate(next, n, a)
    {
      if n == 0 {
        assert LawsAt(a, zero, zero);
      } else {
        MulPower(a, n - 1);
        assert LawsAt(a, Power(n - 1), zero);
      }
    }

    // Multiplication adds exponents.
    lemma PowerTimesPower(m: nat, n: nat)
      requires Valid()
      ensures mul(Power(m), Power(n)) == Power(m + n)
    {
      MulPower(Power(m), n);
      IterateIterate(next, n, m, one);
    }

    lemma MulZero(a: T)
      requires Valid()
      ensures mul(a, zero) == zero && mul(zero, a) == zero
    {
      assert LawsAt(a, zero, zero);
      assert LawsAt(mul(a, zero), zero, zero);
      assert LawsAt(zero, zero, zero);
      if a != zero {
        assert LawsAt(a, zero, zero);
        MulPower(zero, log(a));
        IterateZero(log(a));
      }
    }

    lemma MulCommutes(a: T, b: T)
      requires Valid()
      ensures mul(a, b) == mul(b, a)
    {
      MulZero(a);
      MulZero(b);
      if a != zero && b != zero {
        assert LawsAt(a, a, a) && LawsAt(b, b, b);
        PowerTimesPower(log(a), log(b));
        PowerTimesPower(log(b), log(a));
      }
    }

    lemma MulAssociates(a: T, b: T, c: T)
      requires Valid()
      ensures mul(mul(a, b), c) == mul(a, mul(b, c))
    {
      MulZero(a);
      MulZero(b);
      MulZero(c);
      MulZero(mul(a, b));
      MulZero(mul(b, c));
      if a != zero && b != zero && c != zero {
        assert LawsAt(a, a, a) && LawsAt(b, b, b) && LawsAt(c, c, c);
        var i, j, k := log(a), log(b), log(c);
        PowerTimesPower(i, j);
        PowerTimesPower(j, k);
        PowerTimesPower(i + j, k);
        PowerTimesPower(i, j + k);
      }
    }

    lemma InverseCancels(a: T)
      requires Valid() && a != zero
      ensures mul(a, Inverse(a)) == one
    {
      assert LawsAt(a, a, a);
      PowerTimesPower(log(a), order - log(a));
    }

    lemma GeneratesField()
      requires Valid()
      ensures ToField().IsField()
    {
      var F := ToField();
      forall a, b, c ensures F.LawsAt(a, b, c) {
        assert LawsAt(a, b, c);
        MulZero(a);
        MulCommutes(a, b);
        MulAssociates(a, b, c);
        if a != zero {
          InverseCancels(a);
        }
      }
    }
  }
}
