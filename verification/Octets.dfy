/** Bytes as eight bits: doubling modulo 0x11d one bit at a time, and the walk that doubling
    makes from 1.  Nothing here unfolds arithmetic on bytes, so long walks stay cheap. */
module Octets {

  // A byte as its eight bits, lowest first.
  datatype Octet = Octet(b0: bool, b1: bool, b2: bool, b3: bool, b4: bool, b5: bool, b6: bool, b7: bool) {
    function Value(): nat {
      Cons(b0, Cons(b1, Cons(b2, Cons(b3, Cons(b4, Cons(b5, Cons(b6, Cons(b7, 0))))))))
    }
  }

  function Cons(bit: bool, rest: nat): nat {
    2 * rest + if bit then 1 else 0
  }

  function Next(t: Octet): Octet {
    Octet(t.b7, t.b0, t.b1 != t.b7, t.b2 != t.b7, t.b3 != t.b7, t.b4, t.b5, t.b6)
  }

  // How exclusive or treats one digit, stated of an arbitrary function so that the proof
  // below does not unfold it.
  ghost predicate DigitLawAt(xor: (nat, nat) -> nat, b: bool, v: nat, c: bool, w: nat) {
    xor(Cons(b, v), Cons(c, w)) == Cons(b != c, xor(v, w))
  }

  ghost predicate DigitLaw(xor: (nat, nat) -> nat) {
    forall b, v, c, w {:trigger DigitLawAt(xor, b, v, c, w)} :: DigitLawAt(xor, b, v, c, w)
  }

  lemma AddHighPart(xor: (nat, nat) -> nat, b4: bool, b5: bool, b6: bool)
    requires DigitLaw(xor) && xor(1, 1) == 0
    ensures xor(Cons(b4, Cons(b5, Cons(b6, 1))), 8) == Cons(b4, Cons(b5, Cons(b6, 0)))
  {
    assert DigitLawAt(xor, b6, 1, false, 1);
    assert DigitLawAt(xor, b5, Cons(b6, 1), false, 2);
    assert DigitLawAt(xor, b4, Cons(b5, Cons(b6, 1)), false, 4);
  }

  lemma AddLowPart(xor: (nat, nat) -> nat, b0: bool, b1: bool, b2: bool, b3: bool, v: nat, w: nat)
    requires DigitLaw(xor) && xor(v, 8) == w
    ensures xor(Cons(false, Cons(b0, Cons(b1, Cons(b2, Cons(b3, v))))), 0x11d)
         == Cons(true, Cons(b0, Cons(!b1, Cons(!b2, Cons(!b3, w)))))
  {
    var v3 := Cons(b3, v);
    var v2 := Cons(b2, v3);
    var v1 := Cons(b1, v2);
    assert DigitLawAt(xor, b3, v, true, 8);
    assert DigitLawAt(xor, b2, v3, true, 17);
    assert DigitLawAt(xor, b1, v2, true, 35);
    assert DigitLawAt(xor, b0, v1, false, 71);
    assert DigitLawAt(xor, false, Cons(b0, v1), true, 142);
  }

  // When a bit falls out at the top, the polynomial is added.
  lemma AddPolynomial(xor: (nat, nat) -> nat, t: Octet)
    requires DigitLaw(xor) && xor(1, 1) == 0 && t.b7
    ensures xor(2 * t.Value(), 0x11d) == Next(t).Value()
  {
    var v := Cons(t.b4, Cons(t.b5, Cons(t.b6, 1)));
    AddHighPart(xor, t.b4, t.b5, t.b6);
    AddLowPart(xor, t.b0, t.b1, t.b2, t.b3, v, Cons(t.b4, Cons(t.b5, Cons(t.b6, 0))));
  }

  // Four doublings at once.
  function Next4(t: Octet): Octet {
    Octet(t.b4,
          t.b5,
          t.b4 != t.b6,
          (t.b4 != t.b5) != t.b7,
          ((t.b0 != t.b4) != t.b5) != t.b6,
          ((t.b1 != t.b5) != t.b6) != t.b7,
          (t.b2 != t.b6) != t.b7,
          t.b3 != t.b7)
  }

  lemma Next4IsFourSteps(t: Octet)
    ensures Next4(t) == Next(Next(Next(Next(t))))
  {
  }

  // Eight.
  function Next8(t: Octet): Octet {
    Octet(((t.b0 != t.b4) != t.b5) != t.b6,
          ((t.b1 != t.b5) != t.b6) != t.b7,
          (((t.b0 != t.b2) != t.b4) != t.b5) != t.b7,
          ((t.b0 != t.b1) != t.b3) != t.b4,
          ((t.b0 != t.b1) != t.b2) != t.b6,
          ((t.b1 != t.b2) != t.b3) != t.b7,
          (t.b2 != t.b3) != t.b4,
          (t.b3 != t.b4) != t.b5)
  }

  lemma Next8IsTwoFours(t: Octet)
    ensures Next8(t) == Next4(Next4(t))
  {
  }

  function Leap(t: Octet): Octet {
    Next(Next8(Next8(t)))
  }

  // x^17k as an octet.
  function Walk(k: nat): Octet {
    if k == 0 then Octet(true, false, false, false, false, false, false, false)
    else Leap(Walk(k - 1))
  }

  // Where the walk is after k leaps, up to fifteen: it has closed then.
  function Stop(k: nat): Octet {
    match k
    case 1 => Octet(false, false, false, true, true, false, false, true)
    case 2 => Octet(false, true, true, true, false, false, true, false)
    case 3 => Octet(false, true, false, true, false, false, false, false)
    case 4 => Octet(true, false, false, true, true, false, false, true)
    case 5 => Octet(false, true, true, false, true, false, true, true)
    case 6 => Octet(false, false, true, false, false, false, true, false)
    case 7 => Octet(true, true, false, false, true, false, false, true)
    case 8 => Octet(true, true, true, true, false, false, true, false)
    case 9 => Octet(false, true, false, false, true, false, false, true)
    case 10 => Octet(true, true, true, false, true, false, true, true)
    case 11 => Octet(false, false, true, true, true, false, true, true)
    case 12 => Octet(true, false, true, true, true, false, true, true)
    case 13 => Octet(true, false, true, false, false, false, true, false)
    case 14 => Octet(true, true, false, true, false, false, false, false)
    case _ => Octet(true, false, false, false, false, false, false, false)
  }

  predicate Onwards(k: nat) {
    Leap(Stop(k)) == Stop(k + 1)
  }

  lemma EarlyLeaps()
    ensures Onwards(0) && Onwards(1) && Onwards(2) && Onwards(3) && Onwards(4) && Onwards(5) && Onwards(6) && Onwards(7)
  {
  }

  lemma LaterLeaps()
    ensures Onwards(8) && Onwards(9) && Onwards(10) && Onwards(11)
  {
  }

  lemma LastLeaps()
    ensures Onwards(12) && Onwards(13) && Onwards(14)
  {
  }

  // Of an arbitrary predicate, so that nothing is unfolded.
  lemma OneOfFifteen(p: nat -> bool, k: nat)
    requires p(0) && p(1) && p(2) && p(3) && p(4) && p(5) && p(6) && p(7)
    requires p(8) && p(9) && p(10) && p(11) && p(12) && p(13) && p(14) && k < 15
    ensures p(k)
  {
  }

  lemma LeapsOn(k: nat)
    requires k < 15
    ensures Onwards(k)
  {
    EarlyLeaps();
    LaterLeaps();
    LastLeaps();
    OneOfFifteen(Onwards, k);
  }

  lemma {:induction false} WalkStops(k: nat)
    requires k <= 15
    ensures Walk(k) == Stop(k)
  {
    if k > 0 {
      WalkStops(k - 1);
      LeapsOn(k - 1);
    }
  }
}
