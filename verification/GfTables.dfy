/** The byte field as the algebra sees it, and the exp/log tables that compute in it. */
module GfTables {
  import opened Outcomes
  import opened Bitwise
  import opened Algebra
  import opened Polynomials
  import opened Gf256
  import opened GfOrder

  ghost function Generator(): Generated<Byte> {
    Generated(0, 1, (a: Byte, b: Byte) => Add(a, b), Double, Mul, Log, 255)
  }

  ghost function ByteField(): Field<Byte> {
    Generator().ToField()
  }

  lemma GeneratorIsValid()
    ensures Generator().Valid()
  {
    var g := Generator();
    BytesIsGroup();
    DoubleAdditive();
    forall a: Byte, b: Byte, c: Byte ensures g.LawsAt(a, b, c) {
      assert Bytes().LawsAt(a, b, c);
      assert Bytes().AdditiveAt(Double, a, b);
      DoubleNonzero(a);
      MulOne(a);
      MulDouble(a, b);
      MulXor(a, b, c);
    }
    KeyPowers(15);
  }

  lemma MulOne(a: Byte)
    ensures Mul(a, 1) == a
  {
    MulCommutes(a, 1);
    ByteFromBits(a);
  }

  lemma ByteFieldIsField()
    ensures ByteField().IsField()
  {
    GeneratorIsValid();
    Generator().GeneratesField();
  }

  lemma PowersMultiply(i: nat, j: nat)
    ensures Mul(Power(i), Power(j)) == Power(i + j)
  {
    GeneratorIsValid();
    Generator().PowerTimesPower(i, j);
  }

  lemma PowerWraps(n: nat)
    ensures Power(n + 255) == Power(n)
  {
    GeneratorIsValid();
    Generator().PowerPeriod(n);
  }

  lemma MulZero(a: Byte)
    ensures Mul(a, 0) == 0 && Mul(0, a) == 0
  {
    GeneratorIsValid();
    Generator().MulZero(a);
  }

  // One turn of the doubling loop: shift, and reduce when bit 8 comes up.
  lemma ShiftAndReduce(i: nat, x: nat)
    requires x == Power(i)
    ensures (if 2 * x / 0x100 % 2 == 1 then Xor(2 * x, 0x11d) else 2 * x) == Power(i + 1)
  {
  }

  lemma AllLogs(log: array<Byte>, n: nat)
    requires log.Length == 256 && n == 255
    requires forall j: nat | j < n :: log[Power(j)] == j
    ensures forall a: Byte | a != 0 :: log[a] == Log(a)
  {
    forall a: Byte | a != 0 ensures log[a] == Log(a) {
      assert log[Power(Log(a))] == Log(a);
    }
  }

  lemma FreshPower(i: nat)
    requires i < 255
    ensures forall j: nat | j < i :: Power(j) != Power(i)
  {
    forall j: nat | j < i ensures Power(j) != Power(i) {
      PowersDistinct(j, i);
    }
  }

  method FillPowers(exp: array<Byte>, log: array<Byte>)
    requires exp.Length == 512 && log.Length == 256 && exp != log
    modifies exp, log
    ensures forall j: nat | j < 255 :: exp[j] == Power(j)
    ensures forall a: Byte | a != 0 :: log[a] == Log(a)
  {
    var x: nat := 1;
    var i := 0;
    while i < 255
      invariant i <= 255 && x == Power(i)
      invariant forall j: nat | j < i :: exp[j] == Power(j)
      invariant forall j: nat | j < i :: log[Power(j)] == j
    {
      FreshPower(i);
      ShiftAndReduce(i, x);
      exp[i] := x;
      log[x] := i;
      x := 2 * x;
      if x / 0x100 % 2 == 1 {
        x := Xor(x, 0x11d);
      }
      i := i + 1;
    }
    AllLogs(log, i);
  }

  class Tables {
    const exp: array<Byte>
    const log: array<Byte>

    // Both tables hold what their names say, and every lookup below stays in bounds.
    ghost predicate Valid()
      reads exp, log
    {
      && exp.Length == 512 && log.Length == 256
      && (forall i: nat | i < 512 :: exp[i] == Power(i))
      && (forall a: Byte | a != 0 :: log[a] == Log(a))
    }

    constructor ()
      ensures Valid() && fresh(exp) && fresh(log)
    {
      exp := new Byte[512](i => 0);
      log := new Byte[256](i => 0);
      new;
      FillPowers(exp, log);
      var i := 255;
      while i < 512
        invariant 255 <= i <= 512
        invariant forall j: nat | j < i :: exp[j] == Power(j)
        invariant forall a: Byte | a != 0 :: log[a] == Log(a)
      {
        PowerWraps(i - 255);
        exp[i] := exp[i - 255];
        i := i + 1;
      }
    }

    function TableMul(a: Byte, b: Byte): (r: Byte)
      requires Valid()
      reads exp, log
      ensures r == Mul(a, b)
    {
      MulZero(a);
      MulZero(b);
      if a == 0 || b == 0 then 0
      else
        PowersMultiply(Log(a), Log(b));
        var i: nat, j: nat := log[a], log[b];
        exp[i + j]
    }

    // The table index of a quotient.
    function DivIndex(i: Byte, j: Byte): (k: nat)
      requires j < 255
      ensures k < 255
    {
      (i + 255 - j) % 255
    }

    // The quotient: the one byte that times b gives a.
    function TableDiv(a: Byte, b: Byte): (r: Result<Byte>)
      requires Valid()
      reads exp, log
      ensures b == 0 <==> r.Err?
      ensures b != 0 ==> Mul(r.value, b) == a && r.value == Mul(a, ByteField().inv(b))
    {
      if b == 0 then Err("gf div by zero")
      else
        DivIsInverse(a, b);
        if a == 0 then Ok(0)
        else
          Ok(exp[DivIndex(log[a], log[b])])
    }

    method PolyEval(coeffs: seq<Byte>, x: Byte) returns (y: Byte)
      requires Valid()
      ensures y == Eval(ByteField(), coeffs, x)
    {
      y := 0;
      var i := |coeffs| - 1;
      assert coeffs[|coeffs|..] == [];
      while i >= 0
        invariant -1 <= i < |coeffs|
        invariant y == Eval(ByteField(), coeffs[i + 1..], x)
      {
        assert coeffs[i..][1..] == coeffs[i + 1..];
        y := Add(TableMul(y, x), coeffs[i]);
        i := i - 1;
      }
      assert coeffs[0..] == coeffs;
    }
  }

  lemma DifferenceModulo(i: nat, j: nat, k: nat)
    requires i < 255 && j < 255 && k == (i + 255 - j) % 255
    ensures k + j == i || k + j == i + 255
    ensures k == i + 255 - j || k + 255 == i + 255 - j
  {
  }

  lemma DivIsInverse(a: Byte, b: Byte)
    requires b != 0
    ensures a == 0 ==> Mul(a, ByteField().inv(b)) == 0 && Mul(0, b) == 0
    ensures a != 0 ==> Power((Log(a) + 255 - Log(b)) % 255) == Mul(a, ByteField().inv(b))
    ensures a != 0 ==> Mul(Power((Log(a) + 255 - Log(b)) % 255), b) == a
  {
    MulZero(b);
    MulZero(ByteField().inv(b));
    if a != 0 {
      var i, j := Log(a), Log(b);
      var k := (i + 255 - j) % 255;
      DifferenceModulo(i, j, k);
      PowersMultiply(i, 255 - j);
      PowersMultiply(k, j);
      PowerWraps(k);
      PowerWraps(i);
    }
  }
}
