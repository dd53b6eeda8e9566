/** Lagrange interpolation at zero, written the way a share join computes it: every factor
    whose point equals the current one is skipped. */
module Lagrange {
  import opened Algebra
  import opened Polynomials

  function Num<T(!new,==)>(F: Field<T>, points: seq<T>, x: T): T {
    if points == [] then F.one
    else if points[0] == x then Num(F, points[1..], x)
    else F.mul(points[0], Num(F, points[1..], x))
  }

  function Den<T(!new,==)>(F: Field<T>, points: seq<T>, x: T): T {
    if points == [] then F.one
    else if points[0] == x then Den(F, points[1..], x)
    else F.mul(F.add(points[0], x), Den(F, points[1..], x))
  }

  function Weight<T(!new,==)>(F: Field<T>, points: seq<T>, x: T): T {
    F.mul(Num(F, points, x), F.inv(Den(F, points, x)))
  }

  // The weighted sum of the values ys at xs.
  function WeightedSum<T(!new,==)>(F: Field<T>, points: seq<T>, xs: seq<T>, ys: seq<T>): T
    requires |xs| == |ys|
  {
    if xs == [] then F.zero
    else F.add(F.mul(ys[0], Weight(F, points, xs[0])), WeightedSum(F, points, xs[1..], ys[1..]))
  }

  function Join<T(!new,==)>(F: Field<T>, xs: seq<T>, ys: seq<T>): T
    requires |xs| == |ys|
  {
    WeightedSum(F, xs, xs, ys)
  }

  lemma {:induction false} DenNonzero<T(!new)>(F: Field<T>, points: seq<T>, x: T)
    requires F.IsField()
    ensures Den(F, points, x) != F.zero
  {
    assert F.LawsAt(x, x, x);
    if points != [] {
      DenNonzero(F, points[1..], x);
      if points[0] != x {
        var u, d := F.add(points[0], x), Den(F, points[1..], x);
        AddCancels(F, points[0], x, x);
        MulCancels(F, u, d, F.zero);
        assert F.LawsAt(u, F.zero, F.zero);
      }
    }
  }

  lemma WeightStep<T(!new)>(F: Field<T>, a: T, rest: seq<T>, x: T)
    requires F.IsField()
    ensures a == x ==> Weight(F, [a] + rest, x) == Weight(F, rest, x)
    ensures a != x ==> F.mul(F.add(a, x), Weight(F, [a] + rest, x)) == F.mul(a, Weight(F, rest, x))
  {
    assert ([a] + rest)[1..] == rest;
    if a != x {
      var u, n, d := F.add(a, x), Num(F, rest, x), Den(F, rest, x);
      var ud := F.mul(u, d);
      DenNonzero(F, rest, x);
      DenNonzero(F, [a] + rest, x);
      var i, j := F.inv(ud), F.inv(d);
      // u * i == j, because d times either side is one
      assert F.LawsAt(ud, i, i) && F.LawsAt(d, j, j) && F.LawsAt(d, u, i) && F.LawsAt(u, d, i);
      MulCancels(F, d, F.mul(u, i), j);
      var an := F.mul(a, n);
      assert F.LawsAt(u, an, i) && F.LawsAt(an, u, i) && F.LawsAt(a, n, j);
    }
  }

  lemma Neville<T(!new)>(F: Field<T>, a: T, b: T, rest: seq<T>, x: T)
    requires F.IsField() && x != a && x != b
    ensures F.mul(F.add(a, b), Weight(F, [a, b] + rest, x))
         == F.add(F.mul(a, Weight(F, [b] + rest, x)), F.mul(b, Weight(F, [a] + rest, x)))
  {
    var u, v, w := F.add(a, x), F.add(b, x), Weight(F, rest, x);
    var wa, wb, wab := Weight(F, [a] + rest, x), Weight(F, [b] + rest, x), Weight(F, [a, b] + rest, x);
    assert [a, b] + rest == [a] + ([b] + rest);
    WeightStep(F, a, rest, x);
    WeightStep(F, b, rest, x);
    WeightStep(F, a, [b] + rest, x);
    AddCancels(F, a, x, x);
    // v * wab == b * wa, because u times either side is a * b * w
    assert F.LawsAt(u, v, wab) && F.LawsAt(v, u, wab) && F.LawsAt(v, a, wb) && F.LawsAt(a, v, wb);
    assert F.LawsAt(a, b, w) && F.LawsAt(b, a, w) && F.LawsAt(u, b, wa) && F.LawsAt(b, u, wa);
    MulCancels(F, u, F.mul(v, wab), F.mul(b, wa));
    // a + b == u + v
    assert F.LawsAt(a, x, v) && F.LawsAt(x, b, x) && F.LawsAt(b, x, x) && F.LawsAt(x, x, b) && F.LawsAt(b, F.zero, x);
    assert F.LawsAt(wab, u, v) && F.LawsAt(u, wab, v) && F.LawsAt(v, wab, v) && F.LawsAt(F.add(u, v), wab, wab);
  }

  // ---------- the weights of distinct points add up to one ----------

  function TotalWeight<T(!new,==)>(F: Field<T>, points: seq<T>, xs: seq<T>): T {
    if xs == [] then F.zero else F.add(Weight(F, points, xs[0]), TotalWeight(F, points, xs[1..]))
  }

  // Adding two scaled sums term by term: a(p + q) + b(r + s) regrouped.
  lemma Regroup<T(!new)>(F: Field<T>, a: T, p: T, q: T, b: T, r: T, s: T)
    requires F.IsField()
    ensures F.add(F.add(F.mul(a, p), F.mul(b, r)), F.add(F.mul(a, q), F.mul(b, s)))
         == F.add(F.mul(a, F.add(p, q)), F.mul(b, F.add(r, s)))
  {
    var G := Group(F.zero, F.add);
    forall x, y, z ensures G.LawsAt(x, y, z) {
      assert F.LawsAt(x, y, z);
    }
    assert F.LawsAt(a, p, q) && F.LawsAt(b, r, s);
    G.Exchange(F.mul(a, p), F.mul(b, r), F.mul(a, q), F.mul(b, s));
  }

  lemma {:induction false} NevilleSum<T(!new)>(F: Field<T>, a: T, b: T, rest: seq<T>, xs: seq<T>)
    requires F.IsField() && a !in xs && b !in xs
    ensures F.mul(F.add(a, b), TotalWeight(F, [a, b] + rest, xs))
         == F.add(F.mul(a, TotalWeight(F, [b] + rest, xs)), F.mul(b, TotalWeight(F, [a] + rest, xs)))
  {
    var c := F.add(a, b);
    if xs == [] {
      assert F.LawsAt(a, F.zero, F.zero) && F.LawsAt(b, F.zero, F.zero) && F.LawsAt(c, F.zero, F.zero);
      assert F.LawsAt(F.zero, F.zero, F.zero);
    } else {
      var x := xs[0];
      Neville(F, a, b, rest, x);
      NevilleSum(F, a, b, rest, xs[1..]);
      assert F.LawsAt(c, Weight(F, [a, b] + rest, x), TotalWeight(F, [a, b] + rest, xs[1..]));
      Regroup(F, a, Weight(F, [b] + rest, x), TotalWeight(F, [b] + rest, xs[1..]),
                 b, Weight(F, [a] + rest, x), TotalWeight(F, [a] + rest, xs[1..]));
    }
  }

  lemma {:induction false} WeightsSumToOne<T(!new)>(F: Field<T>, points: seq<T>)
    requires F.IsField() && Distinct(points) && points != []
    ensures TotalWeight(F, points, points) == F.one
    decreases |points|
  {
    var a := points[0];
    assert F.LawsAt(F.one, F.one, F.one) && F.LawsAt(F.zero, F.one, F.one);
    if |points| == 1 {
      assert points == [a] + [] && points[1..] == [];
      WeightStep(F, a, [], a);
    } else {
      var b, rest := points[1], points[2..];
      var c, pa, pb := F.add(a, b), [a] + rest, [b] + rest;
      assert points == [a, b] + rest == [a] + pb && points[1..] == pb;
      assert Distinct(pa) && Distinct(pb) by {
        assert forall i :: 0 < i < |pa| ==> pa[i] == points[i + 1];
        assert forall i :: 0 <= i < |pb| ==> pb[i] == points[i + 1];
      }
      WeightsSumToOne(F, pa);
      WeightsSumToOne(F, pb);
      ScaledSplit(F, a, b, rest);
      AddCancels(F, a, b, b);
      assert F.LawsAt(c, F.one, F.one) && F.LawsAt(a, F.one, F.one) && F.LawsAt(b, F.one, F.one);
      MulCancels(F, c, TotalWeight(F, points, points), F.one);
    }
  }

  // (a + b) times the total weight, split into its first two terms and the rest.
  lemma ScaledSplit<T(!new)>(F: Field<T>, a: T, b: T, rest: seq<T>)
    requires F.IsField() && a != b && a !in rest && b !in rest
    ensures F.mul(F.add(a, b), TotalWeight(F, [a, b] + rest, [a, b] + rest))
         == F.add(F.mul(a, TotalWeight(F, [b] + rest, [b] + rest)), F.mul(b, TotalWeight(F, [a] + rest, [a] + rest)))
  {
    var c, pa, pb, pab := F.add(a, b), [a] + rest, [b] + rest, [a, b] + rest;
    assert pab == [a] + pb && pab[1..] == pb && pa[1..] == rest && pb[1..] == rest;
    var wa, wb, va, vb := Weight(F, pab, a), Weight(F, pab, b), Weight(F, pa, a), Weight(F, pb, b);
    var ta, tb, tab := TotalWeight(F, pa, rest), TotalWeight(F, pb, rest), TotalWeight(F, pab, rest);
    NevilleSum(F, a, b, rest, rest);
    WeightStep(F, a, pb, a);
    WeightStep(F, a, pb, b);
    WeightStep(F, b, rest, a);
    WeightStep(F, a, rest, a);
    assert F.LawsAt(a, b, a) && F.LawsAt(b, a, b);
    assert F.mul(c, wa) == F.mul(b, va);
    assert F.mul(c, wb) == F.mul(a, vb);
    var u := F.add(wb, tab);
    assert F.LawsAt(c, wa, u) && F.LawsAt(c, wb, tab);
    Regroup(F, a, vb, tb, b, va, ta);
    var x, y, z := F.mul(a, vb), F.mul(b, va), F.add(F.mul(a, tb), F.mul(b, ta));
    assert F.LawsAt(y, x, z) && F.LawsAt(x, y, z);
  }

  // ---------- joining the values of a polynomial ----------

  function Evals<T(!new,==)>(F: Field<T>, p: seq<T>, xs: seq<T>): (ys: seq<T>)
    ensures |ys| == |xs|
    ensures forall i | 0 <= i < |xs| :: ys[i] == Eval(F, p, xs[i])
  {
    seq(|xs|, i requires 0 <= i < |xs| => Eval(F, p, xs[i]))
  }

  lemma {:induction false} SumDivided<T(!new)>(F: Field<T>, p: seq<T>, a: T, rest: seq<T>, xs: seq<T>)
    requires F.IsField() && p != [] && a !in xs
    ensures WeightedSum(F, [a] + rest, xs, Evals(F, p, xs))
         == F.add(F.mul(Eval(F, p, a), TotalWeight(F, [a] + rest, xs)),
                  F.mul(a, WeightedSum(F, rest, xs, Evals(F, Quotient(F, p, a), xs))))
  {
    var c, q, P := Eval(F, p, a), Quotient(F, p, a), [a] + rest;
    if xs == [] {
      assert F.LawsAt(a, F.zero, F.zero) && F.LawsAt(c, F.zero, F.zero) && F.LawsAt(F.zero, F.zero, F.zero);
    } else {
      var x := xs[0];
      var w, v, e := Weight(F, P, x), Weight(F, rest, x), Eval(F, q, x);
      var u := F.add(x, a);
      assert Evals(F, p, xs)[1..] == Evals(F, p, xs[1..]);
      assert Evals(F, q, xs)[1..] == Evals(F, q, xs[1..]);
      SumDivided(F, p, a, rest, xs[1..]);
      DivideAt(F, p, a, x);
      WeightStep(F, a, rest, x);
      // (c + u e) w == c w + a (e v), since u w == a v
      var ue := F.mul(u, e);
      assert F.LawsAt(x, a, a) && F.LawsAt(w, c, ue) && F.LawsAt(F.add(c, ue), w, w) && F.LawsAt(ue, w, w);
      assert F.LawsAt(c, w, w) && F.LawsAt(e, u, w) && F.LawsAt(u, e, w) && F.LawsAt(e, a, v) && F.LawsAt(a, e, v);
      Regroup(F, c, w, TotalWeight(F, P, xs[1..]),
                 a, F.mul(e, v), WeightedSum(F, rest, xs[1..], Evals(F, q, xs[1..])));
    }
  }

  // Lagrange interpolation at zero recovers the constant term of any polynomial with at
  // most as many coefficients as there are points.
  lemma {:induction false} JoinRecovers<T(!new)>(F: Field<T>, p: seq<T>, xs: seq<T>)
    requires F.IsField() && Distinct(xs) && |p| == |xs|
    ensures Join(F, xs, Evals(F, p, xs)) == Eval(F, p, F.zero)
    decreases |xs|
  {
    if xs != [] {
      var a, rest := xs[0], xs[1..];
      var c, q := Eval(F, p, a), Quotient(F, p, a);
      var w, e := Weight(F, xs, a), Eval(F, q, F.zero);
      assert xs == [a] + rest;
      assert Evals(F, p, xs)[1..] == Evals(F, p, rest);
      JoinRecovers(F, q, rest);
      SumDivided(F, p, a, rest, rest);
      WeightsSumToOne(F, xs);
      DivideAt(F, p, a, F.zero);
      var t, ae := TotalWeight(F, xs, rest), F.mul(a, e);
      assert F.LawsAt(c, w, t) && F.LawsAt(c, F.one, c) && F.LawsAt(a, F.zero, a) && F.LawsAt(F.zero, a, a);
      assert F.LawsAt(F.mul(c, w), F.mul(c, t), ae);
    }
  }

  lemma EvalAtZero<T(!new)>(F: Field<T>, p: seq<T>)
    requires F.IsField() && p != []
    ensures Eval(F, p, F.zero) == p[0]
  {
    var e := Eval(F, p[1..], F.zero);
    assert F.LawsAt(e, F.zero, F.zero) && F.LawsAt(F.zero, p[0], p[0]) && F.LawsAt(p[0], F.zero, F.zero);
  }

  // ---------- repeated points ----------

  // The product of (z + x) over the points.
  function Vanishing<T(!new)>(F: Field<T>, points: seq<T>): (p: seq<T>)
    ensures |p| == |points| + 1
  {
    if points == [] then [F.one] else Compose(F, F.zero, points[0], Vanishing(F, points[1..]))
  }

  lemma {:induction false} VanishingVanishes<T(!new)>(F: Field<T>, points: seq<T>, z: T)
    requires F.IsField()
    ensures Eval(F, Vanishing(F, points), z) == F.zero <==> z in points
  {
    if points == [] {
      assert Eval(F, [F.one], z) == F.add(F.mul(Eval(F, [], z), z), F.one);
      assert F.LawsAt(z, F.zero, F.zero) && F.LawsAt(F.zero, z, z) && F.LawsAt(F.zero, F.one, z) && F.LawsAt(F.one, z, z);
    } else {
      var a, q := points[0], Vanishing(F, points[1..]);
      var u, e := F.add(z, a), Eval(F, q, z);
      VanishingVanishes(F, points[1..], z);
      EvalCompose(F, F.zero, a, q, z);
      AddCancels(F, z, a, a);
      var ue := F.mul(u, e);
      assert F.LawsAt(ue, F.zero, F.zero) && F.LawsAt(F.zero, ue, ue);
      assert F.LawsAt(u, F.zero, F.zero) && F.LawsAt(F.zero, e, e) && F.LawsAt(e, F.zero, F.zero);
      if u != F.zero {
        MulCancels(F, u, e, F.zero);
      }
    }
  }

  lemma {:induction false} ZeroValuesJoinToZero<T(!new)>(F: Field<T>, points: seq<T>, xs: seq<T>, ys: seq<T>)
    requires F.IsField() && |xs| == |ys|
    requires forall i :: 0 <= i < |ys| ==> ys[i] == F.zero
    ensures WeightedSum(F, points, xs, ys) == F.zero
  {
    if xs != [] {
      var w := Weight(F, points, xs[0]);
      ZeroValuesJoinToZero(F, points, xs[1..], ys[1..]);
      assert F.LawsAt(w, F.zero, F.zero) && F.LawsAt(F.zero, w, w) && F.LawsAt(F.zero, F.zero, F.zero);
    }
  }

  lemma Without<T>(xs: seq<T>, i: nat, j: nat) returns (others: seq<T>)
    requires i < j < |xs| && xs[i] == xs[j]
    ensures |others| == |xs| - 1
    ensures forall x :: x in others <==> x in xs
  {
    others := xs[..j] + xs[j + 1..];
    assert xs == xs[..j] + [xs[j]] + xs[j + 1..];
    assert xs[i] == xs[..j][i];
  }

  // With a repeated point there is a polynomial that the join does not recover.
  lemma RepeatedPointLoses<T(!new)>(F: Field<T>, xs: seq<T>, i: nat, j: nat) returns (p: seq<T>)
    requires F.IsField() && F.zero !in xs
    requires i < j < |xs| && xs[i] == xs[j]
    ensures |p| == |xs| && Join(F, xs, Evals(F, p, xs)) == F.zero != Eval(F, p, F.zero)
  {
    var others := Without(xs, i, j);
    p := Vanishing(F, others);
    forall k | 0 <= k < |xs| ensures Evals(F, p, xs)[k] == F.zero {
      assert xs[k] in xs;
      VanishingVanishes(F, others, xs[k]);
    }
    ZeroValuesJoinToZero(F, xs, xs, Evals(F, p, xs));
    VanishingVanishes(F, others, F.zero);
  }

  ghost predicate RecoversAt<T(!new)>(F: Field<T>, p: seq<T>, xs: seq<T>) {
    Join(F, xs, Evals(F, p, xs)) == Eval(F, p, F.zero)
  }

  ghost predicate Recovers<T(!new)>(F: Field<T>, xs: seq<T>) {
    forall p: seq<T> | |p| == |xs| :: RecoversAt(F, p, xs)
  }

  // Joining at nonzero points recovers every polynomial exactly when no point repeats.
  lemma RecoversIffDistinct<T(!new)>(F: Field<T>, xs: seq<T>)
    requires F.IsField() && F.zero !in xs
    ensures Recovers(F, xs) <==> Distinct(xs)
  {
    if Distinct(xs) {
      forall p: seq<T> | |p| == |xs| ensures RecoversAt(F, p, xs) {
        JoinRecovers(F, p, xs);
      }
    } else {
      var i, j :| 0 <= i < j < |xs| && xs[i] == xs[j];
      var p := RepeatedPointLoses(F, xs, i, j);
      assert !RecoversAt(F, p, xs);
    }
  }

  // ---------- secrecy ----------

  ghost predicate Explains<T(!new)>(F: Field<T>, p: seq<T>, secret: T, xs: seq<T>, ys: seq<T>) {
    |p| == |xs| + 1 && p[0] == secret && Through(F, p, xs, ys)
  }

  // One value short of the threshold, every secret is explained by exactly one polynomial.
  lemma OneExplanation<T(!new)>(F: Field<T>, secret: T, xs: seq<T>, ys: seq<T>) returns (p: seq<T>)
    requires F.IsField() && Distinct(xs) && F.zero !in xs && |xs| == |ys|
    ensures Explains(F, p, secret, xs, ys)
    ensures forall r :: Explains(F, r, secret, xs, ys) ==> r == p
  {
    var zs, ws := [F.zero] + xs, [secret] + ys;
    assert Distinct(zs);
    p := Interpolate(F, zs, ws);
    InterpolateGoesThrough(F, zs, ws);
    EvalAtZero(F, p);
    assert forall i :: 0 <= i < |xs| ==> zs[i + 1] == xs[i] && ws[i + 1] == ys[i];
    assert Eval(F, p, zs[0]) == ws[0];
    forall r | Explains(F, r, secret, xs, ys) ensures r == p {
      EvalAtZero(F, r);
      forall i | 0 <= i < |zs| ensures Eval(F, r, zs[i]) == Eval(F, p, zs[i]) {
        if i > 0 {
          assert zs[i] == xs[i - 1];
        }
      }
      Unique(F, r, p, zs);
    }
  }

  // ---------- a line through any point ----------

  // The slope of the line from s at zero to y at x.
  function Slope<T(!new)>(F: Field<T>, s: T, y: T, x: T): T {
    F.mul(F.add(y, s), F.inv(x))
  }

  lemma SlopeReaches<T(!new)>(F: Field<T>, s: T, y: T, x: T)
    requires F.IsField() && x != F.zero
    ensures F.add(F.mul(Slope(F, s, y, x), x), s) == y
  {
    var d, i := F.add(y, s), F.inv(x);
    assert F.LawsAt(d, i, x) && F.LawsAt(x, i, i) && F.LawsAt(d, F.one, d);
    assert F.mul(i, x) == F.one by {
      assert F.LawsAt(i, x, x);
    }
    assert F.mul(F.mul(d, i), x) == d;
    assert F.LawsAt(y, s, s) && F.LawsAt(s, s, s) && F.LawsAt(y, F.zero, y);
  }

  lemma {:induction false} EvalZeros<T(!new)>(F: Field<T>, z: seq<T>, x: T)
    requires F.IsField() && forall k | 0 <= k < |z| :: z[k] == F.zero
    ensures Eval(F, z, x) == F.zero
  {
    if z != [] {
      EvalZeros(F, z[1..], x);
      assert F.LawsAt(x, F.zero, F.zero) && F.LawsAt(F.zero, x, x) && F.LawsAt(F.zero, F.zero, F.zero);
    }
  }

  lemma EvalConstant<T(!new)>(F: Field<T>, c: T, z: seq<T>, x: T)
    requires F.IsField() && forall k | 0 <= k < |z| :: z[k] == F.zero
    ensures Eval(F, [c] + z, x) == c
  {
    EvalZeros(F, z, x);
    assert ([c] + z)[1..] == z;
    assert F.LawsAt(x, F.zero, F.zero) && F.LawsAt(F.zero, x, x);
    assert F.LawsAt(F.zero, c, c) && F.LawsAt(c, F.zero, c);
  }

  lemma LineThrough<T(!new)>(F: Field<T>, s: T, y: T, x: T, z: seq<T>)
    requires F.IsField() && x != F.zero && forall k | 0 <= k < |z| :: z[k] == F.zero
    ensures Eval(F, [s] + ([Slope(F, s, y, x)] + z), x) == y
  {
    var tail := [Slope(F, s, y, x)] + z;
    EvalConstant(F, Slope(F, s, y, x), z, x);
    assert ([s] + tail)[1..] == tail;
    SlopeReaches(F, s, y, x);
  }
}
