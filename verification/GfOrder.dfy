/** The order of x in the multiplicative group: its powers 0 .. 254 are all different, so
    they are exactly the nonzero bytes and every nonzero byte has a logarithm. */
module GfOrder {
  import opened Bitwise
  import opened Gf256
  import opened Octets
  import opened Periods

  lemma XorHasDigitLaw()
    ensures DigitLaw(Xor)
  {
    forall b, v: nat, c, w: nat ensures DigitLawAt(Xor, b, v, c, w) {
      XorDigits(Cons(b, v), Cons(c, w), v, w, if b then 1 else 0, if c then 1 else 0);
    }
  }

  lemma NibbleFits(b0: bool, b1: bool, b2: bool, b3: bool, v: nat)
    ensures 16 * v <= Cons(b0, Cons(b1, Cons(b2, Cons(b3, v)))) < 16 * v + 16
  {
  }

  lemma TripleFits(b4: bool, b5: bool, b6: bool, v: nat)
    ensures 8 * v <= Cons(b4, Cons(b5, Cons(b6, v))) < 8 * v + 8
  {
  }

  lemma SevenFit(b0: bool, b1: bool, b2: bool, b3: bool, b4: bool, b5: bool, b6: bool, top: nat)
    ensures 128 * top <= Cons(b0, Cons(b1, Cons(b2, Cons(b3, Cons(b4, Cons(b5, Cons(b6, top))))))) < 128 * top + 128
  {
    TripleFits(b4, b5, b6, top);
    NibbleFits(b0, b1, b2, b3, Cons(b4, Cons(b5, Cons(b6, top))));
  }

  lemma TopBit(b7: bool, v: nat)
    requires 128 * Cons(b7, 0) <= v < 128 * Cons(b7, 0) + 128
    ensures v < 256 && (b7 <==> v >= 128)
  {
  }

  lemma OctetFits(t: Octet)
    ensures t.Value() < 256
    ensures t.b7 <==> t.Value() >= 128
  {
    SevenFit(t.b0, t.b1, t.b2, t.b3, t.b4, t.b5, t.b6, Cons(t.b7, 0));
    TopBit(t.b7, t.Value());
  }

  lemma ShiftedOctet(t: Octet)
    requires !t.b7
    ensures Next(t).Value() == 2 * t.Value()
  {
    assert Cons(t.b6, Cons(t.b7, 0)) == Cons(t.b6, 0);
  }

  lemma NextDoubles(t: Octet, v: Byte)
    requires v == t.Value()
    ensures Double(v) == Next(t).Value()
  {
    OctetFits(t);
    if t.b7 {
      XorHasDigitLaw();
      XorSelf(1);
      AddPolynomial(Xor, t);
    } else {
      ShiftedOctet(t);
    }
  }

  lemma FourPowers(n: nat, t: Octet)
    requires Power(n) == t.Value()
    ensures Power(n + 4) == Next4(t).Value()
  {
    var t1 := Next(t);
    var t2 := Next(t1);
    var t3 := Next(t2);
    Next4IsFourSteps(t);
    NextDoubles(t, Power(n));
    NextDoubles(t1, Power(n + 1));
    NextDoubles(t2, Power(n + 2));
    NextDoubles(t3, Power(n + 3));
  }

  lemma EightPowers(n: nat, t: Octet)
    requires Power(n) == t.Value()
    ensures Power(n + 8) == Next8(t).Value()
  {
    FourPowers(n, t);
    FourPowers(n + 4, Next4(t));
    Next8IsTwoFours(t);
  }

  lemma LeapPower(n: nat, t: Octet)
    requires Power(n) == t.Value()
    ensures Power(n + 17) == Leap(t).Value()
  {
    EightPowers(n, t);
    EightPowers(n + 8, Next8(t));
    NextDoubles(Next8(Next8(t)), Power(n + 16));
  }

  lemma {:induction false} WalkIsPower(k: nat)
    ensures Power(17 * k) == Walk(k).Value()
  {
    if k == 0 {
      assert Power(0) == 1;
    } else {
      WalkIsPower(k - 1);
      LeapPower(17 * (k - 1), Walk(k - 1));
    }
  }

  lemma EvenIsNotOne(t: Octet)
    requires !t.b0
    ensures t.Value() != 1
  {
  }

  lemma StopValues()
    ensures Stop(15).Value() == 1 && Stop(1).Value() != 4 && Stop(3).Value() != 1 && Stop(5).Value() != 1
  {
    OctetFits(Stop(1));
    EvenIsNotOne(Stop(3));
    EvenIsNotOne(Stop(5));
  }

  // The walk ends where it began, and 17, 51 and 85 are not periods.  The exponent is a
  // variable so that no power is unfolded step by step.
  lemma KeyPowers(k: nat)
    requires k <= 15
    ensures k == 15 ==> Power(17 * k) == 1
    ensures k == 1 ==> Power(17 * k) != 4
    ensures k == 3 || k == 5 ==> Power(17 * k) != 1
  {
    WalkIsPower(k);
    WalkStops(k);
    StopValues();
  }

  // A shorter period than 255 = 17 * k would make 85, 51 or 15 one.
  lemma NoSmallerOrder(d: nat, k: nat)
    requires k == 15 && 0 < d < 17 * k
    ensures Power(d) != 1
  {
    if Power(d) == 1 {
      var p, e := MissingFactor(d);
      KeyPowers(k);
      var j := k / p;
      var c := if p == 17 then k else 17 * j;
      assert p * c == 17 * k;
      PeriodCofactor(Double, 1, d, e, p, c);
      if p == 17 {
        KeyPowers(k / 15);
        assert 2 + c == 17 * (k / 15);
        IterateIterate(Double, 2, c, 1);
      } else {
        KeyPowers(j);
      }
    }
  }

  // The powers below 255 are pairwise different.
  lemma {:induction false} PowersDistinct(i: nat, j: nat)
    requires i < j < 255
    ensures Power(i) != Power(j)
  {
    if i == 0 {
      NoSmallerOrder(j, 15);
    } else {
      PowersDistinct(i - 1, j - 1);
      DoubleInjective(Power(i - 1), Power(j - 1));
    }
  }

  // ---------- every nonzero byte is a power ----------

  lemma {:induction false} Interval(n: nat) returns (s: set<nat>)
    ensures forall i: nat :: i in s <==> 1 <= i <= n
    ensures |s| == n
  {
    if n == 0 {
      s := {};
    } else {
      var t := Interval(n - 1);
      s := t + {n};
    }
  }

  lemma {:induction false} PowerSet(n: nat) returns (s: set<nat>)
    requires n <= 255
    ensures forall v: nat :: v in s <==> exists i: nat :: i < n && Power(i) == v
    ensures |s| == n
  {
    if n == 0 {
      s := {};
    } else {
      var t := PowerSet(n - 1);
      var v: nat := Power(n - 1);
      if v in t {
        var i: nat :| i < n - 1 && Power(i) == v;
        PowersDistinct(i, n - 1);
      }
      s := t + {v};
    }
  }

  // Pigeonhole: 255 different nonzero bytes leave none out.
  lemma EveryByteIsAPower(a: Byte)
    requires a != 0
    ensures exists i: nat :: i < 255 && Power(i) == a
  {
    var powers := PowerSet(255);
    var bytes := Interval(255);
    forall v | v in powers ensures v in bytes {
      var i: nat :| i < 255 && Power(i) == v;
      PowerNonzero(i);
    }
    if a !in powers {
      SubsetSize(powers, bytes - {a});
    }
  }

  lemma {:induction false} SubsetSize(s: set<nat>, t: set<nat>)
    requires s <= t
    ensures |s| <= |t|
  {
    if s != {} {
      var x :| x in s;
      SubsetSize(s - {x}, t - {x});
    }
  }

  lemma {:induction false} PowerNonzero(n: nat)
    ensures Power(n) != 0
  {
    if n > 0 {
      PowerNonzero(n - 1);
      DoubleNonzero(Power(n - 1));
    }
  }

  ghost function Log(a: Byte): (n: nat)
    ensures a != 0 ==> n < 255 && Power(n) == a
  {
    if a == 0 then 0 else
      EveryByteIsAPower(a);
      var i: nat :| i < 255 && Power(i) == a;
      i
  }
}
