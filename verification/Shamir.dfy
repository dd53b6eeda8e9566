/** Secret sharing: splitting a byte string into shares, joining shares, the share file
    format, and the two theorems about them.  A split evaluates one random polynomial per
    byte; a join interpolates at zero. */
module Shamir {
  import opened Outcomes
  import opened Algebra
  import opened Polynomials
  import opened Lagrange
  import opened Gf256
  import opened GfTables

  datatype Part = Part(x: Byte, data: seq<Byte>)

  // The random coefficients: for byte i of the secret, coefficient c of its polynomial.
  type Noise = (nat, nat) -> Byte

  function Coefficients(secret: seq<Byte>, threshold: nat, noise: Noise, i: nat): (p: seq<Byte>)
    requires i < |secret| && threshold > 0
    ensures |p| == threshold && p[0] == secret[i]
    ensures forall c | 0 < c < threshold :: p[c] == noise(i, c)
  {
    [secret[i]] + seq(threshold - 1, c requires 0 <= c => noise(i, c + 1))
  }

  // The share with index x.
  ghost function ShareOf(secret: seq<Byte>, threshold: nat, noise: Noise, x: Byte): (s: seq<Byte>)
    requires threshold > 0
    ensures |s| == |secret|
  {
    seq(|secret|, i requires 0 <= i < |secret| => Eval(ByteField(), Coefficients(secret, threshold, noise, i), x))
  }

  function Xs(parts: seq<Part>): (xs: seq<Byte>)
    ensures |xs| == |parts| && forall k | 0 <= k < |xs| :: xs[k] == parts[k].x
  {
    seq(|parts|, k requires 0 <= k < |parts| => parts[k].x)
  }

  function Column(parts: seq<Part>, i: nat): (ys: seq<Byte>)
    requires forall k | 0 <= k < |parts| :: i < |parts[k].data|
    ensures |ys| == |parts| && forall k | 0 <= k < |ys| :: ys[k] == parts[k].data[i]
  {
    seq(|parts|, k requires 0 <= k < |parts| => parts[k].data[i])
  }

  predicate SameLength(parts: seq<Part>, n: nat) {
    forall k | 0 <= k < |parts| :: |parts[k].data| == n
  }

  ghost function Joined(parts: seq<Part>, n: nat): (s: seq<Byte>)
    requires SameLength(parts, n)
    ensures |s| == n
  {
    seq(n, i requires 0 <= i < n => Join(ByteField(), Xs(parts), Column(parts, i)))
  }

  // ---------- splitting ----------

  predicate BadSplit(total: int, threshold: int) {
    threshold > total || threshold < 2 || total > 254
  }

  predicate PairwiseDifferent(buffers: seq<array<Byte>>) {
    forall s, t | 0 <= s < t < |buffers| :: buffers[s] != buffers[t]
  }

  method NewBuffers(count: nat, length: nat) returns (buffers: seq<array<Byte>>)
    ensures |buffers| == count && PairwiseDifferent(buffers)
    ensures forall s | 0 <= s < count :: fresh(buffers[s]) && buffers[s].Length == length
  {
    buffers := [];
    while |buffers| < count
      invariant |buffers| <= count && PairwiseDifferent(buffers)
      invariant forall s | 0 <= s < |buffers| :: fresh(buffers[s]) && buffers[s].Length == length
    {
      var buffer := new Byte[length];
      buffers := buffers + [buffer];
    }
  }

  method RandomPolynomial(secret: seq<Byte>, threshold: nat, noise: Noise, i: nat) returns (coeffs: array<Byte>)
    requires i < |secret| && threshold > 0
    ensures fresh(coeffs) && coeffs[..] == Coefficients(secret, threshold, noise, i)
  {
    coeffs := new Byte[threshold];
    coeffs[0] := secret[i];
    var c := 1;
    while c < threshold
      invariant 1 <= c <= threshold && coeffs[0] == secret[i]
      invariant forall k | 1 <= k < c :: coeffs[k] == noise(i, k)
    {
      coeffs[c] := noise(i, c);
      c := c + 1;
    }
  }

  // Writes byte i of every share and no other byte.
  method StoreColumn(gf: Tables, shares: seq<array<Byte>>, i: nat, coeffs: seq<Byte>)
    requires gf.Valid() && |shares| <= 254 && PairwiseDifferent(shares)
    requires forall s | 0 <= s < |shares| :: i < shares[s].Length && shares[s] != gf.exp && shares[s] != gf.log
    modifies set s | 0 <= s < |shares| :: shares[s]
    ensures gf.Valid()
    ensures forall s | 0 <= s < |shares| :: shares[s][..] == old(shares[s][..])[i := Eval(ByteField(), coeffs, s + 1)]
  {
    var s := 0;
    while s < |shares|
      invariant 0 <= s <= |shares| && gf.Valid()
      invariant forall t | 0 <= t < s :: shares[t][..] == old(shares[t][..])[i := Eval(ByteField(), coeffs, t + 1)]
      invariant forall t | s <= t < |shares| :: shares[t][..] == old(shares[t][..])
    {
      var y := gf.PolyEval(coeffs, s + 1);
      shares[s][i] := y;
      s := s + 1;
    }
  }

  lemma OneMore(before: seq<Byte>, i: nat, after: seq<Byte>, share: seq<Byte>)
    requires i < |before| == |share| && before[..i] == share[..i] && after == before[i := share[i]]
    ensures after[..i + 1] == share[..i + 1]
  {
  }

  method SplitSecretBytes(gf: Tables, secret: seq<Byte>, total: int, threshold: int, noise: Noise)
    returns (r: Result<seq<array<Byte>>>)
    requires gf.Valid()
    ensures r.Err? <==> BadSplit(total, threshold)
    ensures r.Ok? ==> |r.value| == total
    ensures r.Ok? ==> forall s | 0 <= s < total :: fresh(r.value[s])
    ensures r.Ok? ==> forall s | 0 <= s < total :: r.value[s][..] == ShareOf(secret, threshold, noise, s + 1)
  {
    if threshold > total {
      return Err("threshold cannot exceed share count");
    }
    if threshold < 2 {
      return Err("threshold must be >= 2 (a 1-of-N split is a copy, not a secret)");
    }
    if total > 254 {
      return Err("at most 254 shares (x in 1..254)");
    }
    var shares := NewBuffers(total, |secret|);
    var i := 0;
    while i < |secret|
      invariant i <= |secret| && gf.Valid()
      invariant forall s | 0 <= s < total :: shares[s][..i] == ShareOf(secret, threshold, noise, s + 1)[..i]
    {
      var coeffs := RandomPolynomial(secret, threshold, noise, i);
      label before:
      StoreColumn(gf, shares, i, coeffs[..]);
      forall s | 0 <= s < total ensures shares[s][..i + 1] == ShareOf(secret, threshold, noise, s + 1)[..i + 1] {
        assert old@before(shares[s][..][..i]) == old@before(shares[s][..i]);
        OneMore(old@before(shares[s][..]), i, shares[s][..], ShareOf(secret, threshold, noise, s + 1));
        assert shares[s][..][..i + 1] == shares[s][..i + 1];
      }
      i := i + 1;
    }
    forall s | 0 <= s < total ensures shares[s][..] == ShareOf(secret, threshold, noise, s + 1) {
      assert shares[s][..] == shares[s][..i];
    }
    return Ok(shares);
  }

  // ---------- joining ----------

  // Taking one more point into the running products.
  lemma WeightTurn(num: Byte, den: Byte, rest: seq<Byte>, x: Byte)
    requires rest != []
    ensures Mul(num, Num(ByteField(), rest, x))
         == Mul(if rest[0] == x then num else Mul(num, rest[0]), Num(ByteField(), rest[1..], x))
    ensures Mul(den, Den(ByteField(), rest, x))
         == Mul(if rest[0] == x then den else Mul(den, Add(rest[0], x)), Den(ByteField(), rest[1..], x))
  {
    var F := ByteField();
    ByteFieldIsField();
    assert F.LawsAt(num, rest[0], Num(F, rest[1..], x));
    assert F.LawsAt(den, F.add(rest[0], x), Den(F, rest[1..], x));
  }

  lemma MulOneLeft(a: Byte)
    ensures Mul(1, a) == a
  {
    MulOne(a);
    MulCommutes(a, 1);
  }

  lemma DenIsNonzero(xs: seq<Byte>, x: Byte)
    ensures Den(ByteField(), xs, x) != 0
  {
    ByteFieldIsField();
    DenNonzero(ByteField(), xs, x);
  }

  // The numerator and denominator of one point's weight, by the loop that skips equal points.
  method WeightFraction(gf: Tables, chosen: seq<Part>, x: Byte) returns (num: Byte, den: Byte)
    requires gf.Valid()
    ensures num == Num(ByteField(), Xs(chosen), x)
    ensures den == Den(ByteField(), Xs(chosen), x) != 0
  {
    ghost var xs := Xs(chosen);
    num, den := 1, 1;
    MulOneLeft(Num(ByteField(), xs, x));
    MulOneLeft(Den(ByteField(), xs, x));
    assert xs[0..] == xs;
    var k := 0;
    while k < |chosen|
      invariant k <= |chosen|
      invariant Mul(num, Num(ByteField(), xs[k..], x)) == Num(ByteField(), xs, x)
      invariant Mul(den, Den(ByteField(), xs[k..], x)) == Den(ByteField(), xs, x)
    {
      var b := chosen[k];
      WeightTurn(num, den, xs[k..], x);
      assert xs[k..][1..] == xs[k + 1..] && xs[k..][0] == b.x;
      if b.x != x {
        num := gf.TableMul(num, b.x);
        den := gf.TableMul(den, Add(b.x, x));
      }
      k := k + 1;
    }
    assert xs[k..] == [];
    MulOne(num);
    MulOne(den);
    DenIsNonzero(xs, x);
  }

  // Taking one more term into the running sum.
  lemma SumTurn(y: Byte, term: Byte, points: seq<Byte>, xs: seq<Byte>, ys: seq<Byte>)
    requires |xs| == |ys| > 0 && term == Mul(ys[0], Weight(ByteField(), points, xs[0]))
    ensures Add(Add(y, term), WeightedSum(ByteField(), points, xs[1..], ys[1..]))
         == Add(y, WeightedSum(ByteField(), points, xs, ys))
  {
    ByteFieldIsField();
    assert ByteField().LawsAt(y, term, WeightedSum(ByteField(), points, xs[1..], ys[1..]));
  }

  lemma AddZero(y: Byte)
    ensures Add(y, 0) == y && Add(0, y) == y
  {
    ByteFieldIsField();
    assert ByteField().LawsAt(y, 0, 0) && ByteField().LawsAt(0, y, 0);
  }

  method JoinByte(gf: Tables, chosen: seq<Part>, i: nat) returns (y: Byte)
    requires gf.Valid()
    requires forall k | 0 <= k < |chosen| :: i < |chosen[k].data|
    ensures y == Join(ByteField(), Xs(chosen), Column(chosen, i))
  {
    ghost var xs, ys := Xs(chosen), Column(chosen, i);
    y := 0;
    AddZero(Join(ByteField(), xs, ys));
    assert xs[0..] == xs && ys[0..] == ys;
    var k := 0;
    while k < |chosen|
      invariant k <= |chosen|
      invariant Add(y, WeightedSum(ByteField(), xs, xs[k..], ys[k..])) == Join(ByteField(), xs, ys)
    {
      var a := chosen[k];
      var num, den := WeightFraction(gf, chosen, a.x);
      var quotient := gf.TableDiv(num, den);
      var term := gf.TableMul(a.data[i], quotient.value);
      assert xs[k..][1..] == xs[k + 1..] && ys[k..][1..] == ys[k + 1..];
      SumTurn(y, term, xs, xs[k..], ys[k..]);
      y := Add(y, term);
      k := k + 1;
    }
    AddZero(y);
  }

  // Whether a join is refused, in the order of the checks.
  predicate JoinRefused(parts: seq<Part>, threshold: nat) {
    |parts| < threshold || parts == [] || !SameLength(parts, |parts[0].data|)
  }

  method JoinSecretBytes(gf: Tables, parts: seq<Part>, threshold: nat) returns (r: Result<seq<Byte>>)
    requires gf.Valid()
    ensures r.Err? <==> JoinRefused(parts, threshold)
    ensures r.Ok? ==> r.value == Joined(parts[..threshold], |parts[0].data|)
  {
    if |parts| < threshold {
      return Err("not enough shares");
    }
    if parts == [] {
      return Err("cannot read properties of undefined (reading 'data')");
    }
    var length := |parts[0].data|;
    var k := 0;
    while k < |parts|
      invariant k <= |parts| && forall j | 0 <= j < k :: |parts[j].data| == length
    {
      if |parts[k].data| != length {
        return Err("share length mismatch");
      }
      k := k + 1;
    }
    var secret := new Byte[length];
    var chosen := parts[..threshold];
    var i := 0;
    while i < length
      invariant i <= length && gf.Valid()
      invariant forall j | 0 <= j < i :: secret[j] == Joined(chosen, length)[j]
    {
      var y := JoinByte(gf, chosen, i);
      secret[i] := y;
      i := i + 1;
    }
    return Ok(secret[..]);
  }

  // ---------- the two theorems ----------

  ghost predicate SharesOf(parts: seq<Part>, secret: seq<Byte>, threshold: nat, noise: Noise)
    requires threshold > 0
  {
    forall k | 0 <= k < |parts| :: parts[k].data == ShareOf(secret, threshold, noise, parts[k].x)
  }

  // Any `threshold` shares with different indexes, in any order, join to the secret.
  lemma SplitThenJoin(secret: seq<Byte>, threshold: nat, noise: Noise, parts: seq<Part>)
    requires threshold > 0 && |parts| == threshold
    requires SharesOf(parts, secret, threshold, noise) && Distinct(Xs(parts))
    ensures SameLength(parts, |secret|) && Joined(parts, |secret|) == secret
  {
    ByteFieldIsField();
    var F := ByteField();
    forall i | 0 <= i < |secret| ensures Joined(parts, |secret|)[i] == secret[i] {
      var p := Coefficients(secret, threshold, noise, i);
      assert Column(parts, i) == Evals(F, p, Xs(parts));
      JoinRecovers(F, p, Xs(parts));
      EvalAtZero(F, p);
    }
  }

  // Indexes recover when every secret, split with any randomness, comes back from them.
  ghost predicate RecoversSecrets(xs: seq<Byte>) {
    forall secret: seq<Byte>, noise: Noise, parts: seq<Part>
      | xs != [] && Xs(parts) == xs && SharesOf(parts, secret, |xs|, noise)
      :: SameLength(parts, |secret|) && Joined(parts, |secret|) == secret
  }

  lemma SharesAt(xs: seq<Byte>, secret: seq<Byte>, threshold: nat, noise: Noise) returns (parts: seq<Part>)
    requires threshold > 0
    ensures Xs(parts) == xs && SharesOf(parts, secret, threshold, noise) && SameLength(parts, |secret|)
  {
    parts := seq(|xs|, k requires 0 <= k < |xs| => Part(xs[k], ShareOf(secret, threshold, noise, xs[k])));
  }

  // Any polynomial can come up when a one-byte secret is split.
  lemma NoiseFor(p: seq<Byte>, secret: seq<Byte>) returns (noise: Noise)
    requires p != [] && secret == [p[0]]
    ensures Coefficients(secret, |p|, noise, 0) == p
  {
    noise := (b: nat, c: nat) => if c < |p| then p[c] else 0;
  }

  lemma RepeatedIndexLoses(xs: seq<Byte>, i: nat, j: nat)
    requires 0 !in xs && i < j < |xs| && xs[i] == xs[j]
    ensures !RecoversSecrets(xs)
  {
    ByteFieldIsField();
    var p := RepeatedPointLoses(ByteField(), xs, i, j);
    EvalAtZero(ByteField(), p);
    var secret: seq<Byte> := [p[0]];
    var noise := NoiseFor(p, secret);
    var parts := SharesAt(xs, secret, |xs|, noise);
    assert Column(parts, 0) == Evals(ByteField(), p, xs);
    assert Joined(parts, |secret|)[0] != secret[0];
  }

  // Repeated indexes are not rejected, and then some secret is lost: a join recovers every
  // secret exactly when the chosen indexes are pairwise different.
  lemma RecoversSecretsIffDistinct(xs: seq<Byte>)
    requires 0 !in xs
    ensures RecoversSecrets(xs) <==> Distinct(xs)
  {
    if Distinct(xs) {
      forall secret: seq<Byte>, noise: Noise, parts: seq<Part>
        | xs != [] && Xs(parts) == xs && SharesOf(parts, secret, |xs|, noise)
        ensures SameLength(parts, |secret|) && Joined(parts, |secret|) == secret
      {
        SplitThenJoin(secret, |xs|, noise, parts);
      }
    } else {
      var i, j :| 0 <= i < j < |xs| && xs[i] == xs[j];
      RepeatedIndexLoses(xs, i, j);
    }
  }

  // Row i of a table of polynomials explains byte i of the observed shares.
  ghost predicate Consistent(rows: seq<seq<Byte>>, secret: seq<Byte>, observed: seq<Part>)
    requires SameLength(observed, |secret|)
  {
    |rows| == |secret| &&
    forall i | 0 <= i < |rows| :: Explains(ByteField(), rows[i], secret[i], Xs(observed), Column(observed, i))
  }

  // One share short of the threshold, every candidate secret of the right length is
  // explained by exactly one choice of all the random coefficients.
  lemma PerfectSecrecy(candidate: seq<Byte>, observed: seq<Part>) returns (rows: seq<seq<Byte>>)
    requires SameLength(observed, |candidate|)
    requires Distinct(Xs(observed)) && 0 !in Xs(observed)
    ensures Consistent(rows, candidate, observed)
    ensures forall other | Consistent(other, candidate, observed) :: other == rows
  {
    ByteFieldIsField();
    rows := [];
    while |rows| < |candidate|
      invariant |rows| <= |candidate|
      invariant forall i | 0 <= i < |rows| ::
        Explains(ByteField(), rows[i], candidate[i], Xs(observed), Column(observed, i))
      invariant forall i, q | 0 <= i < |rows| &&
        Explains(ByteField(), q, candidate[i], Xs(observed), Column(observed, i)) :: q == rows[i]
    {
      var i := |rows|;
      var p := OneExplanation(ByteField(), candidate[i], Xs(observed), Column(observed, i));
      rows := rows + [p];
    }
  }

  // ---------- the counts that are accepted ----------

  function Zeros(n: nat): (z: seq<Byte>)
    ensures |z| == n && forall k | 0 <= k < n :: z[k] == 0
  {
    seq(n, k => 0)
  }

  // Split with some coefficients, this secret has this share.
  ghost predicate CouldBe(candidate: seq<Byte>, threshold: nat, share: seq<Byte>, x: Byte)
    requires threshold > 0
  {
    exists other: Noise :: ShareOf(candidate, threshold, other, x) == share
  }

  // One share fits every secret of its length.
  ghost predicate OneShareSaysNothing(threshold: nat)
    requires threshold > 0
  {
    forall secret: seq<Byte>, noise: Noise, x: Byte, candidate: seq<Byte> | x != 0 && |candidate| == |secret| ::
      CouldBe(candidate, threshold, ShareOf(secret, threshold, noise, x), x)
  }

  lemma FitsAnySecret(secret: seq<Byte>, threshold: nat, noise: Noise, x: Byte, candidate: seq<Byte>)
    returns (other: Noise)
    requires threshold >= 2 && x != 0 && |candidate| == |secret|
    ensures ShareOf(candidate, threshold, other, x) == ShareOf(secret, threshold, noise, x)
  {
    var share := ShareOf(secret, threshold, noise, x);
    ByteFieldIsField();
    var slopes := seq(|candidate|, i requires 0 <= i < |candidate| => Slope(ByteField(), candidate[i], share[i], x));
    other := (i: nat, c: nat) => if c == 1 && i < |slopes| then slopes[i] else 0;
    forall i | 0 <= i < |candidate| ensures ShareOf(candidate, threshold, other, x)[i] == share[i] {
      LineThrough(ByteField(), candidate[i], share[i], x, Zeros(threshold - 2));
      assert Coefficients(candidate, threshold, other, i) == [candidate[i]] + ([slopes[i]] + Zeros(threshold - 2));
    }
  }

  // With a threshold of one every share is the secret.
  lemma OneOfAnyIsACopy(secret: seq<Byte>, noise: Noise, x: Byte)
    ensures ShareOf(secret, 1, noise, x) == secret
  {
    forall i | 0 <= i < |secret| ensures ShareOf(secret, 1, noise, x)[i] == secret[i] {
      ByteFieldIsField();
      EvalConstant(ByteField(), secret[i], [], x);
      assert Coefficients(secret, 1, noise, i) == [secret[i]] + [];
    }
  }

  lemma OneIsNotEnough()
    ensures !OneShareSaysNothing(1)
  {
    var zero: Noise := (i, c) => 0;
    var secret: seq<Byte>, candidate: seq<Byte>, x: Byte := [0], [1], 1;
    var share := ShareOf(secret, 1, zero, x);
    forall other: Noise ensures ShareOf(candidate, 1, other, x) != share {
      OneOfAnyIsACopy(candidate, other, x);
      OneOfAnyIsACopy(secret, zero, x);
    }
    assert !CouldBe(candidate, 1, share, x);
  }

  // A split is accepted exactly when its shares suffice to join again, there is a byte for every
  // index with one to spare, and one share alone says nothing about the secret.
  lemma AcceptedIff(total: int, threshold: int)
    ensures !BadSplit(total, threshold) <==> 0 < threshold <= total <= 254 && OneShareSaysNothing(threshold)
  {
    if threshold >= 2 {
      forall secret: seq<Byte>, noise: Noise, x: Byte, candidate: seq<Byte> | x != 0 && |candidate| == |secret|
        ensures CouldBe(candidate, threshold, ShareOf(secret, threshold, noise, x), x)
      {
        var other := FitsAnySecret(secret, threshold, noise, x, candidate);
      }
    } else if threshold == 1 {
      OneIsNotEnough();
    }
  }
}
