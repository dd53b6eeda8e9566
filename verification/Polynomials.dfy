/** Polynomials over a field of characteristic 2, as coefficient sequences, constant term
    first: evaluation, division by a linear factor, uniqueness and existence of the
    interpolating polynomial, and Lagrange interpolation at zero. */
module Polynomials {
  import opened Algebra

  function Eval<T(!new)>(F: Field<T>, p: seq<T>, x: T): T {
    if p == [] then F.zero else F.add(F.mul(Eval(F, p[1..], x), x), p[0])
  }

  function Pow<T(!new)>(F: Field<T>, x: T, n: nat): T {
    if n == 0 then F.one else F.mul(Pow(F, x, n - 1), x)
  }

  // c * x^k + ... : the terms of p, scaled by x^k.
  function SumOfPowers<T(!new)>(F: Field<T>, p: seq<T>, x: T, k: nat): T {
    if p == [] then F.zero else F.add(F.mul(p[0], Pow(F, x, k)), SumOfPowers(F, p[1..], x, k + 1))
  }

  lemma {:induction false} SumOfPowersScaled<T(!new)>(F: Field<T>, p: seq<T>, x: T, k: nat)
    requires F.IsField()
    ensures SumOfPowers(F, p, x, k) == F.mul(Eval(F, p, x), Pow(F, x, k))
  {
    var w := Pow(F, x, k);
    if p == [] {
      assert F.LawsAt(w, F.zero, F.zero) && F.LawsAt(F.zero, w, w);
    } else {
      var e := Eval(F, p[1..], x);
      SumOfPowersScaled(F, p[1..], x, k + 1);
      assert F.LawsAt(e, x, w) && F.LawsAt(w, x, w);
      assert F.LawsAt(w, F.mul(e, x), p[0]) && F.LawsAt(w, p[0], w);
      assert F.LawsAt(F.mul(e, x), w, w) && F.LawsAt(F.add(F.mul(e, x), p[0]), w, w);
      assert F.LawsAt(F.mul(w, F.mul(e, x)), F.mul(w, p[0]), w);
    }
  }

  // Horner's rule computes the sum of the coefficients times the powers of x.
  lemma EvalIsSumOfPowers<T(!new)>(F: Field<T>, p: seq<T>, x: T)
    requires F.IsField()
    ensures Eval(F, p, x) == SumOfPowers(F, p, x, 0)
  {
    SumOfPowersScaled(F, p, x, 0);
    assert F.LawsAt(Eval(F, p, x), x, x);
  }

  // ---------- division by z + a ----------

  function Quotient<T(!new)>(F: Field<T>, p: seq<T>, a: T): (q: seq<T>)
    ensures |q| == if p == [] then 0 else |p| - 1
  {
    if |p| <= 1 then [] else [Eval(F, p[1..], a)] + Quotient(F, p[1..], a)
  }

  // The polynomial c + (z + a) * q(z).
  function Compose<T(!new)>(F: Field<T>, c: T, a: T, q: seq<T>): (p: seq<T>)
    ensures |p| == |q| + 1
  {
    if q == [] then [c] else [F.add(c, F.mul(a, q[0]))] + Compose(F, q[0], a, q[1..])
  }

  lemma {:induction false} EvalCompose<T(!new)>(F: Field<T>, c: T, a: T, q: seq<T>, z: T)
    requires F.IsField()
    ensures Eval(F, Compose(F, c, a, q), z) == F.add(c, F.mul(F.add(z, a), Eval(F, q, z)))
  {
    var u := F.add(z, a);
    assert F.LawsAt(c, z, z);
    if q == [] {
      assert Eval(F, [c], z) == F.add(F.mul(Eval(F, [], z), z), c);
      assert F.LawsAt(z, F.zero, F.zero) && F.LawsAt(F.zero, c, c) && F.LawsAt(u, F.zero, F.zero);
    } else {
      var p := Compose(F, c, a, q);
      assert p[1..] == Compose(F, q[0], a, q[1..]);
      EvalCompose(F, q[0], a, q[1..], z);
      var e, q0 := Eval(F, q[1..], z), q[0];
      var ue, aq, zq := F.mul(u, e), F.mul(a, q0), F.mul(z, q0);
      // (q0 + u e) z + (c + a q0) == c + u (e z + q0)
      assert F.LawsAt(z, q0, ue) && F.LawsAt(F.add(q0, ue), z, z);
      assert F.LawsAt(ue, z, z) && F.LawsAt(u, e, z) && F.LawsAt(e, z, z);
      assert F.LawsAt(u, F.mul(e, z), q0);
      assert F.LawsAt(q0, z, a) && F.LawsAt(u, q0, q0) && F.LawsAt(a, q0, q0);
      var uez := F.mul(u, F.mul(e, z));
      assert F.mul(F.add(q0, ue), z) == F.add(zq, uez);
      assert F.mul(u, F.add(F.mul(e, z), q0)) == F.add(uez, F.add(zq, aq));
      assert F.LawsAt(zq, uez, F.add(c, aq)) && F.LawsAt(uez, zq, aq) && F.LawsAt(uez, zq, F.add(c, aq));
      assert F.LawsAt(zq, c, aq) && F.LawsAt(c, zq, aq) && F.LawsAt(uez, c, F.add(zq, aq)) && F.LawsAt(c, uez, F.add(zq, aq));
    }
  }

  lemma {:induction false} ComposeQuotient<T(!new)>(F: Field<T>, p: seq<T>, a: T)
    requires F.IsField() && p != []
    ensures Compose(F, Eval(F, p, a), a, Quotient(F, p, a)) == p
  {
    var e, c := Eval(F, p[1..], a), p[0];
    assert F.LawsAt(F.mul(e, a), c, F.mul(e, a)) && F.LawsAt(c, F.mul(e, a), F.mul(e, a)) && F.LawsAt(a, e, e);
    if |p| == 1 {
      assert F.LawsAt(a, F.zero, F.zero) && F.LawsAt(F.zero, a, a) && F.LawsAt(F.zero, c, c);
    } else {
      ComposeQuotient(F, p[1..], a);
    }
  }

  // p(z) = p(a) + (z + a) * q(z).
  lemma DivideAt<T(!new)>(F: Field<T>, p: seq<T>, a: T, z: T)
    requires F.IsField() && p != []
    ensures Eval(F, p, z) == F.add(Eval(F, p, a), F.mul(F.add(z, a), Eval(F, Quotient(F, p, a), z)))
  {
    ComposeQuotient(F, p, a);
    EvalCompose(F, Eval(F, p, a), a, Quotient(F, p, a), z);
  }

  // ---------- solving small equations ----------

  lemma AddCancels<T(!new)>(F: Field<T>, a: T, b: T, c: T)
    requires F.IsField()
    ensures F.add(a, b) == F.add(a, c) ==> b == c
    ensures F.add(a, F.add(a, b)) == b
    ensures F.add(a, b) == F.zero <==> a == b
  {
    assert F.LawsAt(a, a, b) && F.LawsAt(a, a, c) && F.LawsAt(b, F.zero, F.zero) && F.LawsAt(c, F.zero, F.zero);
    assert F.LawsAt(F.zero, b, b) && F.LawsAt(F.zero, c, c) && F.LawsAt(a, F.zero, F.zero);
    assert F.LawsAt(a, b, b);
  }

  lemma MulCancels<T(!new)>(F: Field<T>, u: T, a: T, b: T)
    requires F.IsField() && u != F.zero
    ensures F.mul(u, a) == F.mul(u, b) ==> a == b
    ensures F.mul(u, F.mul(F.inv(u), a)) == a
    ensures F.inv(u) != F.zero
  {
    var v := F.inv(u);
    assert F.LawsAt(u, v, a) && F.LawsAt(v, u, a) && F.LawsAt(v, u, b);
    assert F.LawsAt(a, F.one, a) && F.LawsAt(b, F.one, b) && F.LawsAt(F.one, a, a) && F.LawsAt(F.one, b, b);
    assert F.LawsAt(u, F.zero, F.zero);
  }

  // ---------- interpolation ----------

  ghost predicate Distinct<T>(xs: seq<T>) {
    forall i, j :: 0 <= i < j < |xs| ==> xs[i] != xs[j]
  }

  ghost predicate Through<T(!new)>(F: Field<T>, p: seq<T>, xs: seq<T>, ys: seq<T>) {
    |xs| == |ys| && forall i :: 0 <= i < |xs| ==> Eval(F, p, xs[i]) == ys[i]
  }

  // Two polynomials with n coefficients that agree at n different points are equal.
  lemma {:induction false} Unique<T(!new)>(F: Field<T>, p: seq<T>, r: seq<T>, xs: seq<T>)
    requires F.IsField() && Distinct(xs) && |p| == |r| == |xs|
    requires forall i :: 0 <= i < |xs| ==> Eval(F, p, xs[i]) == Eval(F, r, xs[i])
    ensures p == r
    decreases |xs|
  {
    if xs != [] {
      var a, rest := xs[0], xs[1..];
      var c, q, s := Eval(F, p, a), Quotient(F, p, a), Quotient(F, r, a);
      forall i | 0 <= i < |rest| ensures Eval(F, q, rest[i]) == Eval(F, s, rest[i]) {
        var x := xs[i + 1];
        assert rest[i] == x;
        DivideAt(F, p, a, x);
        DivideAt(F, r, a, x);
        AddCancels(F, x, a, a);
        AddCancels(F, c, F.mul(F.add(x, a), Eval(F, q, x)), F.mul(F.add(x, a), Eval(F, s, x)));
        MulCancels(F, F.add(x, a), Eval(F, q, x), Eval(F, s, x));
      }
      Unique(F, q, s, rest);
      ComposeQuotient(F, p, a);
      ComposeQuotient(F, r, a);
    }
  }

  // The slopes of the points seen from the first one.
  function Slopes<T(!new)>(F: Field<T>, x: T, y: T, xs: seq<T>, ys: seq<T>): (r: seq<T>)
    requires |xs| == |ys|
    ensures |r| == |xs|
    ensures forall i | 0 <= i < |r| :: r[i] == F.mul(F.inv(F.add(xs[i], x)), F.add(y, ys[i]))
  {
    seq(|xs|, i requires 0 <= i < |xs| => F.mul(F.inv(F.add(xs[i], x)), F.add(y, ys[i])))
  }

  // Newton's construction.
  function Interpolate<T(!new)>(F: Field<T>, xs: seq<T>, ys: seq<T>): (p: seq<T>)
    requires |xs| == |ys|
    ensures |p| == |xs|
  {
    if xs == [] then []
    else Compose(F, ys[0], xs[0], Interpolate(F, xs[1..], Slopes(F, xs[0], ys[0], xs[1..], ys[1..])))
  }

  lemma {:induction false} InterpolateGoesThrough<T(!new)>(F: Field<T>, xs: seq<T>, ys: seq<T>)
    requires F.IsField() && Distinct(xs) && |xs| == |ys|
    ensures Through(F, Interpolate(F, xs, ys), xs, ys)
  {
    if xs != [] {
      var a, c := xs[0], ys[0];
      var slopes := Slopes(F, a, c, xs[1..], ys[1..]);
      var q := Interpolate(F, xs[1..], slopes);
      InterpolateGoesThrough(F, xs[1..], slopes);
      forall i | 0 <= i < |xs| ensures Eval(F, Interpolate(F, xs, ys), xs[i]) == ys[i] {
        var u := F.add(xs[i], a);
        EvalCompose(F, c, a, q, xs[i]);
        AddCancels(F, c, ys[i], c);
        if i == 0 {
          assert F.LawsAt(a, a, a) && F.LawsAt(c, c, c) && F.LawsAt(Eval(F, q, a), F.zero, F.zero);
          assert F.LawsAt(F.zero, Eval(F, q, a), c);
        } else {
          assert Eval(F, q, xs[1..][i - 1]) == slopes[i - 1];
          AddCancels(F, xs[i], a, a);
          MulCancels(F, u, F.add(c, ys[i]), c);
        }
      }
    }
  }
}
