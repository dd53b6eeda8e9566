/** Iterating a function, and the periods of an iteration. */
module Periods {

  function Iterate<T>(f: T -> T, n: nat, a: T): T {
    if n == 0 then a else f(Iterate(f, n - 1, a))
  }

  ghost predicate Period<T>(f: T -> T, a: T, n: nat) {
    Iterate(f, n, a) == a
  }

  lemma {:induction false} IterateIterate<T>(f: T -> T, m: nat, n: nat, a: T)
    ensures Iterate(f, m, Iterate(f, n, a)) == Iterate(f, m + n, a)
  {
    if m > 0 {
      IterateIterate(f, m - 1, n, a);
    }
  }

  lemma {:induction false} PeriodMultiple<T>(f: T -> T, a: T, d: nat, k: nat)
    requires Period(f, a, d)
    ensures Period(f, a, k * d)
  {
    if k > 0 {
      PeriodMultiple(f, a, d, k - 1);
      assert k * d == d + (k - 1) * d;
      IterateIterate(f, d, (k - 1) * d, a);
    }
  }

  // If p * c is a period and p is prime to the period d, then c is a period.
  lemma PeriodCofactor<T>(f: T -> T, a: T, d: nat, e: nat, p: nat, c: nat)
    requires Period(f, a, d) && Period(f, a, p * c)
    requires p > 0 && e * d % p == 1
    ensures Period(f, a, c)
  {
    var q := e * d / p;
    assert e * d == p * q + 1;
    assert c * (e * d) == c * (p * q) + c;
    assert c * (p * q) == q * (p * c);
    assert (c * e) * d == c * (e * d);
    PeriodMultiple(f, a, d, c * e);
    PeriodMultiple(f, a, p * c, q);
    IterateIterate(f, c, q * (p * c), a);
  }

  // ---------- the factors of 255 = 3 * 5 * 17 ----------

  // The inverse of r modulo 17.
  function Inverse17(r: nat): nat
    requires 0 < r < 17
  {
    [0, 1, 9, 6, 13, 7, 3, 5, 15, 2, 12, 14, 10, 4, 11, 8, 16][r]
  }

  lemma Inverse17Works(r: nat)
    requires 0 < r < 17
    ensures Inverse17(r) * r % 17 == 1
  {
  }

  lemma NonzeroMultiple(p: int, d: int)
    requires p > 0
    ensures d == 0 || p * d >= p || p * d <= -p
  {
  }

  lemma RemainderUnique(x: nat, p: nat, k: nat, r: nat)
    requires r < p && x == p * k + r
    ensures x % p == r
  {
    var d := k - x / p;
    assert p * d == x % p - r;
    NonzeroMultiple(p, d);
  }

  lemma AddMultiple(n: nat, x: nat, p: nat, q: nat)
    requires p > 0 && n == p * q + x
    ensures n % p == x % p
  {
    var k := q + x / p;
    assert p * k == p * q + p * (x / p);
    RemainderUnique(n, p, k, x % p);
  }

  lemma ModuloFactor(e: nat, d: nat, p: nat)
    requires p > 0
    ensures e * d % p == e * (d % p) % p
  {
    var q, r := d / p, d % p;
    assert d == p * q + r;
    assert e * (p * q) == p * (e * q);
    assert e * d == e * (p * q) + e * r;
    AddMultiple(e * d, e * r, p, e * q);
  }

  // It is enough to invert the remainder.
  lemma InverseOf(d: nat, r: nat, e: nat, p: nat)
    requires p > 0 && r == d % p && e * r % p == 1
    ensures e * d % p == 1
  {
    ModuloFactor(e, d, p);
  }

  function InverseModulo3(r: nat): (e: nat)
    requires 0 < r < 3
    ensures e * r % 3 == 1
  {
    r
  }

  function InverseModulo5(r: nat): (e: nat)
    requires 0 < r < 5
    ensures e * r % 5 == 1
  {
    if r == 1 then 1 else if r == 2 then 3 else if r == 3 then 2 else 4
  }

  lemma NotAllThree(d: nat)
    requires 0 < d < 255 && d % 3 == 0 && d % 5 == 0
    ensures d % 17 != 0
  {
  }

  // Every number below 255 misses one of the factors; e is its inverse modulo that factor.
  lemma MissingFactor(d: nat) returns (p: nat, e: nat)
    requires 0 < d < 255
    ensures p == 3 || p == 5 || p == 17
    ensures e * d % p == 1
  {
    var r;
    if d % 3 != 0 {
      p, r := 3, d % 3;
      e := InverseModulo3(r);
    } else if d % 5 != 0 {
      p, r := 5, d % 5;
      e := InverseModulo5(r);
    } else {
      NotAllThree(d);
      p, r := 17, d % 17;
      e := Inverse17(r);
      Inverse17Works(r);
    }
    InverseOf(d, r, e, p);
  }
}
