/** The straight line fitted to memory or disk readings: least squares over the reals. */
module Trend {
  import opened Outcomes

  datatype Point = Point(t: real, v: real)

  datatype Line = Line(slope: real, intercept: real) {
    function At(t: real): real { intercept + slope * t }
  }

  const MIN_POINTS := 8

  function Sq(x: real): real {
    x * x
  }

  lemma ProductSign(x: real, y: real, z: real)
    requires z == x * y && ((x > 0.0 && y > 0.0) || (x < 0.0 && y < 0.0))
    ensures z > 0.0
  {
  }

  lemma SquareSign(x: real)
    ensures Sq(x) >= 0.0
    ensures x != 0.0 ==> Sq(x) > 0.0
  {
    if x != 0.0 {
      ProductSign(x, x, Sq(x));
    }
  }

  // ---------- sums over the points ----------

  function SumT(points: seq<Point>): real {
    if points == [] then 0.0 else SumT(points[..|points| - 1]) + points[|points| - 1].t
  }

  function SumV(points: seq<Point>): real {
    if points == [] then 0.0 else SumV(points[..|points| - 1]) + points[|points| - 1].v
  }

  function MeanT(points: seq<Point>): real
    requires points != []
  {
    SumT(points) / |points| as real
  }

  function MeanV(points: seq<Point>): real
    requires points != []
  {
    SumV(points) / |points| as real
  }

  // About a centre (t, v): the spread of the times, and how the values go with them.
  function Sxx(points: seq<Point>, t: real): real {
    if points == [] then 0.0 else Sxx(points[..|points| - 1], t) + Sq(points[|points| - 1].t - t)
  }

  function Sxy(points: seq<Point>, t: real, v: real): real {
    if points == [] then 0.0
    else Sxy(points[..|points| - 1], t, v) + (points[|points| - 1].t - t) * (points[|points| - 1].v - v)
  }

  function Syy(points: seq<Point>, v: real): real {
    if points == [] then 0.0 else Syy(points[..|points| - 1], v) + Sq(points[|points| - 1].v - v)
  }

  // The squared residuals of a line.
  function Residuals(points: seq<Point>, line: Line): real {
    if points == [] then 0.0
    else Residuals(points[..|points| - 1], line) + Sq(points[|points| - 1].v - line.At(points[|points| - 1].t))
  }

  // ---------- the fit ----------

  // Through the centre with the slope the spreads give; none without a spread.
  function Through(meanT: real, meanV: real, sxx: real, sxy: real): Option<Line> {
    if sxx <= 0.0 then None
    else
      var slope := sxy / sxx;
      Some(Line(slope, meanV - slope * meanT))
  }

  function Fit(points: seq<Point>): Option<Line> {
    if |points| < MIN_POINTS then None
    else
      var meanT, meanV := MeanT(points), MeanV(points);
      Through(meanT, meanV, Sxx(points, meanT), Sxy(points, meanT, meanV))
  }

  method Means(points: seq<Point>) returns (meanT: real, meanV: real)
    requires points != []
    ensures meanT == MeanT(points) && meanV == MeanV(points)
  {
    var sumT, sumV := 0.0, 0.0;
    var i := 0;
    while i < |points|
      invariant 0 <= i <= |points| && sumT == SumT(points[..i]) && sumV == SumV(points[..i])
    {
      assert points[..i + 1][..i] == points[..i];
      sumT, sumV := sumT + points[i].t, sumV + points[i].v;
      i := i + 1;
    }
    assert points[..i] == points;
    meanT, meanV := sumT / |points| as real, sumV / |points| as real;
  }

  method Spreads(points: seq<Point>, meanT: real, meanV: real) returns (sxx: real, sxy: real)
    ensures sxx == Sxx(points, meanT) && sxy == Sxy(points, meanT, meanV)
  {
    sxx, sxy := 0.0, 0.0;
    var i := 0;
    while i < |points|
      invariant 0 <= i <= |points| && sxx == Sxx(points[..i], meanT) && sxy == Sxy(points[..i], meanT, meanV)
    {
      assert points[..i + 1][..i] == points[..i];
      var p := points[i];
      sxx, sxy := sxx + Sq(p.t - meanT), sxy + (p.t - meanT) * (p.v - meanV);
      i := i + 1;
    }
    assert points[..i] == points;
  }

  method SquaredResiduals(points: seq<Point>, line: Line) returns (ss: real)
    ensures ss == Residuals(points, line)
  {
    ss := 0.0;
    var i := 0;
    while i < |points|
      invariant 0 <= i <= |points| && ss == Residuals(points[..i], line)
    {
      assert points[..i + 1][..i] == points[..i];
      ss := ss + Sq(points[i].v - line.At(points[i].t));
      i := i + 1;
    }
    assert points[..i] == points;
  }

  // The fitted line, and the squares of the deviation of the residuals and of the error of the slope.
  method LinearTrend(points: seq<Point>) returns (r: Option<Line>, variance: real, slopeVariance: real)
    ensures r == Fit(points)
    ensures r.Some? ==> variance == Residuals(points, r.value) / (|points| - 2) as real
    ensures r.Some? ==> slopeVariance == SlopeVariance(points, r.value)
  {
    variance, slopeVariance := 0.0, 0.0;
    if |points| < MIN_POINTS {
      r := None;
      return;
    }
    var meanT, meanV := Means(points);
    var sxx, sxy := Spreads(points, meanT, meanV);
    r := Through(meanT, meanV, sxx, sxy);
    if r.Some? {
      var ss := SquaredResiduals(points, r.value);
      variance := ss / (|points| - 2) as real;
      slopeVariance := variance / sxx;
    }
  }

  function SlopeVariance(points: seq<Point>, fit: Line): real
    requires Fit(points) == Some(fit)
  {
    Residuals(points, fit) / (|points| - 2) as real / Sxx(points, MeanT(points))
  }

  // Whether the slope is at least twice its own error; without an error any slope is.
  predicate Significant(points: seq<Point>, fit: Line)
    requires Fit(points) == Some(fit)
  {
    TwiceItsError(fit.slope, SlopeVariance(points, fit))
  }

  predicate TwiceItsError(slope: real, variance: real) {
    if variance > 0.0 then Sq(slope) >= 4.0 * variance else slope != 0.0
  }

  // ---------- when there is a fit ----------

  predicate SameTime(points: seq<Point>) {
    forall i, j | 0 <= i < |points| && 0 <= j < |points| :: points[i].t == points[j].t
  }

  lemma {:induction false} SpreadSign(points: seq<Point>, t: real)
    ensures Sxx(points, t) >= 0.0
    ensures Sxx(points, t) == 0.0 <==> forall i | 0 <= i < |points| :: points[i].t == t
    decreases |points|
  {
    if points != [] {
      var n := |points| - 1;
      SpreadSign(points[..n], t);
      SquareSign(points[n].t - t);
      assert forall i | 0 <= i < n :: points[..n][i] == points[i];
      assert points[..n] + [points[n]] == points;
    }
  }

  lemma {:induction false} ConstantSum(points: seq<Point>, t: real)
    requires forall i | 0 <= i < |points| :: points[i].t == t
    ensures SumT(points) == |points| as real * t
    decreases |points|
  {
    if points != [] {
      ConstantSum(points[..|points| - 1], t);
    }
  }

  // None exactly for too few points or for no spread in time.
  lemma FitIff(points: seq<Point>)
    ensures Fit(points).Some? <==> |points| >= 8 && !SameTime(points)
  {
    if |points| >= MIN_POINTS {
      SpreadSign(points, MeanT(points));
      if SameTime(points) {
        ConstantSum(points, points[0].t);
      }
    }
  }

  // ---------- it is the best line, and the only one ----------

  // How far the points lie from a centre, signs kept.
  function SumU(points: seq<Point>, t: real): real {
    if points == [] then 0.0 else SumU(points[..|points| - 1], t) + (points[|points| - 1].t - t)
  }

  function SumW(points: seq<Point>, v: real): real {
    if points == [] then 0.0 else SumW(points[..|points| - 1], v) + (points[|points| - 1].v - v)
  }

  datatype Sums = Sums(n: real, syy: real, sxy: real, sxx: real, sumW: real, sumU: real)

  function Plus(a: Sums, b: Sums): Sums {
    Sums(a.n + b.n, a.syy + b.syy, a.sxy + b.sxy, a.sxx + b.sxx, a.sumW + b.sumW, a.sumU + b.sumU)
  }

  function SumsOf(points: seq<Point>, t: real, v: real): Sums {
    Sums(|points| as real, Syy(points, v), Sxy(points, t, v), Sxx(points, t), SumW(points, v), SumU(points, t))
  }

  function SumsOfPoint(p: Point, t: real, v: real): Sums {
    Sums(1.0, Sq(p.v - v), (p.t - t) * (p.v - v), Sq(p.t - t), p.v - v, p.t - t)
  }

  lemma SumsAdd(points: seq<Point>, t: real, v: real)
    requires points != []
    ensures SumsOf(points, t, v) == Plus(SumsOf(points[..|points| - 1], t, v), SumsOfPoint(points[|points| - 1], t, v))
  {
  }

  // Squared residuals, in terms of the sums, of a line of slope s that passes c from the centre.
  function Expanded(a: Sums, s: real, c: real): real {
    a.syy - 2.0 * (s * a.sxy) + Sq(s) * a.sxx + 2.0 * (c * a.sumW) - 2.0 * (c * (s * a.sumU)) + a.n * Sq(c)
  }

  lemma Distributes(x: real, a: real, b: real)
    ensures x * (a + b) == x * a + x * b
  {
  }

  lemma ExpandedAdds(a: Sums, b: Sums, s: real, c: real)
    ensures Expanded(Plus(a, b), s, c) == Expanded(a, s, c) + Expanded(b, s, c)
  {
    Distributes(s, a.sxy, b.sxy);
    Distributes(Sq(s), a.sxx, b.sxx);
    Distributes(c, a.sumW, b.sumW);
    Distributes(s, a.sumU, b.sumU);
    Distributes(c, s * a.sumU, s * b.sumU);
    Distributes(Sq(c), a.n, b.n);
  }

  lemma ResidualOfPoint(p: Point, line: Line, t: real, v: real)
    ensures Sq(p.v - line.At(p.t)) == Expanded(SumsOfPoint(p, t, v), line.slope, v - line.At(t))
  {
    var u, w, s, c := p.t - t, p.v - v, line.slope, v - line.At(t);
    assert p.v - line.At(p.t) == w - s * u + c;
    SquareOfThree(u, w, s, c);
  }

  lemma SquareOfThree(u: real, w: real, s: real, c: real)
    ensures Sq(w - s * u + c) == Expanded(Sums(1.0, Sq(w), u * w, Sq(u), w, u), s, c)
  {
  }

  lemma ExpandedOfNone(s: real, c: real)
    ensures Expanded(Sums(0.0, 0.0, 0.0, 0.0, 0.0, 0.0), s, c) == 0.0
  {
  }

  lemma {:induction false} ResidualsExpand(points: seq<Point>, line: Line, t: real, v: real)
    ensures Residuals(points, line) == Expanded(SumsOf(points, t, v), line.slope, v - line.At(t))
    decreases |points|
  {
    if points == [] {
      ExpandedOfNone(line.slope, v - line.At(t));
    } else {
      var front, p := points[..|points| - 1], points[|points| - 1];
      ResidualsExpand(front, line, t, v);
      ResidualOfPoint(p, line, t, v);
      SumsAdd(points, t, v);
      ExpandedAdds(SumsOf(front, t, v), SumsOfPoint(p, t, v), line.slope, v - line.At(t));
    }
  }

  lemma {:induction false} SumsAbout(points: seq<Point>, t: real, v: real)
    ensures SumU(points, t) == SumT(points) - |points| as real * t
    ensures SumW(points, v) == SumV(points) - |points| as real * v
    decreases |points|
  {
    if points != [] {
      SumsAbout(points[..|points| - 1], t, v);
    }
  }

  // About the means the signed distances cancel.
  lemma MeansCancel(points: seq<Point>)
    requires points != []
    ensures SumU(points, MeanT(points)) == 0.0 && SumW(points, MeanV(points)) == 0.0
  {
    SumsAbout(points, MeanT(points), MeanV(points));
  }

  lemma CompleteSquare(a: Sums, q: real, s: real, c: real)
    requires a.sxy == q * a.sxx && a.sumW == 0.0 && a.sumU == 0.0
    ensures Expanded(a, s, c) == Expanded(a, q, 0.0) + a.sxx * Sq(s - q) + a.n * Sq(c)
  {
    assert s * a.sxy == s * q * a.sxx;
    assert a.sxx * Sq(s - q) == Sq(s) * a.sxx - 2.0 * (s * q * a.sxx) + Sq(q) * a.sxx;
    assert q * a.sxy == Sq(q) * a.sxx;
  }

  lemma Product(a: real, b: real)
    requires a > 0.0 && b >= 0.0
    ensures a * b >= 0.0 && (b > 0.0 ==> a * b > 0.0)
  {
    if b > 0.0 {
      ProductSign(a, b, a * b);
    }
  }

  lemma NoWorse(n: real, sxx: real, d: real, c: real)
    requires n > 0.0 && sxx > 0.0
    ensures sxx * Sq(d) + n * Sq(c) >= 0.0
    ensures d != 0.0 || c != 0.0 ==> sxx * Sq(d) + n * Sq(c) > 0.0
  {
    SquareSign(d);
    SquareSign(c);
    Product(sxx, Sq(d));
    Product(n, Sq(c));
  }

  // Of all lines, by slope and by distance from the centre, the fitted slope through the centre
  // has the least squares, strictly.
  lemma LeastSquares(a: Sums, q: real, s: real, c: real)
    requires a.n > 0.0 && a.sxx > 0.0 && a.sxy == q * a.sxx && a.sumW == 0.0 && a.sumU == 0.0
    ensures Expanded(a, q, 0.0) <= Expanded(a, s, c)
    ensures s != q || c != 0.0 ==> Expanded(a, q, 0.0) < Expanded(a, s, c)
  {
    CompleteSquare(a, q, s, c);
    NoWorse(a.n, a.sxx, s - q, c);
  }

  // The fitted line has the slope the spreads give and passes through the centre.
  predicate Centred(points: seq<Point>, fit: Line, t: real, v: real) {
    && points != [] && SumW(points, v) == 0.0 && SumU(points, t) == 0.0
    && Sxx(points, t) > 0.0 && Sxy(points, t, v) == fit.slope * Sxx(points, t)
    && fit.At(t) == v
  }

  lemma Quotient(x: real, y: real)
    requires y > 0.0
    ensures x == x / y * y
  {
  }

  lemma FitIsCentred(points: seq<Point>, fit: Line)
    requires Fit(points) == Some(fit)
    ensures Centred(points, fit, MeanT(points), MeanV(points))
  {
    MeansCancel(points);
    var t, v := MeanT(points), MeanV(points);
    ThroughIsCentred(t, v, Sxx(points, t), Sxy(points, t, v), fit);
  }

  lemma ThroughIsCentred(t: real, v: real, sxx: real, sxy: real, fit: Line)
    requires Through(t, v, sxx, sxy) == Some(fit)
    ensures sxx > 0.0 && sxy == fit.slope * sxx && fit.At(t) == v
  {
    Quotient(sxy, sxx);
  }

  lemma SameLine(a: Line, b: Line, t: real)
    requires a.slope == b.slope && a.At(t) == b.At(t)
    ensures a == b
  {
  }

  lemma ResidualsAbout(points: seq<Point>, line: Line, t: real, v: real, s: real, c: real)
    requires line.slope == s && c == v - line.At(t)
    ensures Residuals(points, line) == Expanded(SumsOf(points, t, v), s, c)
  {
    ResidualsExpand(points, line, t, v);
  }

  lemma CentredIsBest(points: seq<Point>, fit: Line, line: Line, t: real, v: real)
    requires Centred(points, fit, t, v)
    ensures Residuals(points, fit) <= Residuals(points, line)
    ensures Residuals(points, fit) == Residuals(points, line) ==> line == fit
  {
    var a, c := SumsOf(points, t, v), v - line.At(t);
    ResidualsAbout(points, fit, t, v, fit.slope, 0.0);
    ResidualsAbout(points, line, t, v, line.slope, c);
    LeastSquares(a, fit.slope, line.slope, c);
    if line.slope == fit.slope && c == 0.0 {
      SameLine(line, fit, t);
    }
  }

  // No line has smaller squared residuals, and only the fitted one has as small.
  lemma FitIsBest(points: seq<Point>, fit: Line, line: Line)
    requires Fit(points) == Some(fit)
    ensures Residuals(points, fit) <= Residuals(points, line)
    ensures Residuals(points, fit) == Residuals(points, line) ==> line == fit
  {
    FitIsCentred(points, fit);
    CentredIsBest(points, fit, line, MeanT(points), MeanV(points));
  }

  // ---------- what a significant slope is ----------

  function Flat(points: seq<Point>): Line
    requires points != []
  {
    Line(0.0, MeanV(points))
  }

  lemma {:induction false} ResidualsSign(points: seq<Point>, line: Line)
    ensures Residuals(points, line) >= 0.0
    decreases |points|
  {
    if points != [] {
      ResidualsSign(points[..|points| - 1], line);
      SquareSign(points[|points| - 1].v - line.At(points[|points| - 1].t));
    }
  }

  lemma NoSlope(a: Sums)
    ensures Expanded(a, 0.0, 0.0) == a.syy
  {
    assert Sq(0.0) == 0.0;
  }

  lemma BestSlope(a: Sums, q: real)
    requires a.sxy == q * a.sxx
    ensures Expanded(a, q, 0.0) == a.syy - a.sxx * Sq(q)
  {
    assert q * a.sxy == a.sxx * Sq(q);
    assert Sq(0.0) == 0.0;
  }

  lemma FlatResiduals(points: seq<Point>, t: real, v: real)
    ensures Residuals(points, Line(0.0, v)) == Syy(points, v)
  {
    assert Line(0.0, v).At(t) == v;
    ResidualsExpand(points, Line(0.0, v), t, v);
    NoSlope(SumsOf(points, t, v));
  }

  lemma FittedResiduals(points: seq<Point>, fit: Line, t: real, v: real)
    requires Sxy(points, t, v) == fit.slope * Sxx(points, t) && fit.At(t) == v
    ensures Residuals(points, fit) == Syy(points, v) - Sxx(points, t) * Sq(fit.slope)
  {
    ResidualsExpand(points, fit, t, v);
    BestSlope(SumsOf(points, t, v), fit.slope);
  }

  // What the slope explains of the residuals of the flat line.
  lemma Explained(points: seq<Point>, fit: Line, t: real, v: real)
    requires Centred(points, fit, t, v)
    ensures Residuals(points, Line(0.0, v)) == Residuals(points, fit) + Sxx(points, t) * Sq(fit.slope)
  {
    FlatResiduals(points, t, v);
    FittedResiduals(points, fit, t, v);
  }

  lemma Scaled(x: real, y: real, k: real)
    requires k > 0.0
    ensures x >= y <==> k * x >= k * y
  {
    if x >= y {
      Product(k, x - y);
    } else {
      Product(k, y - x);
    }
  }

  lemma QuotientSign(r: real, k: real)
    requires k > 0.0
    ensures r / k > 0.0 <==> r > 0.0
  {
    Quotient(r, k);
    Scaled(0.0, r / k, k);
  }

  // For a slope q with q2 its square, r the residuals over k degrees of freedom and s the spread.
  lemma ErrorBound(q2: real, r: real, k: real, s: real)
    requires k > 0.0 && s > 0.0
    ensures q2 >= 4.0 * (r / k / s) <==> k * (s * q2) >= 4.0 * r
    ensures r / k / s > 0.0 <==> r > 0.0
  {
    var e := r / k / s;
    Quotient(r / k, s);
    Quotient(r, k);
    assert k * (s * (4.0 * e)) == 4.0 * r by {
      assert s * e == r / k;
      assert s * (4.0 * e) == 4.0 * (r / k);
      assert k * (4.0 * (r / k)) == 4.0 * (k * (r / k));
    }
    Scaled(q2, 4.0 * e, s);
    Scaled(s * q2, s * (4.0 * e), k);
    QuotientSign(r, k);
    QuotientSign(r / k, s);
  }

  lemma Shares(n: real, r: real, x: real)
    ensures (n - 2.0) * (r + x) >= (n + 2.0) * r <==> (n - 2.0) * x >= 4.0 * r
  {
    assert (n - 2.0) * (r + x) == (n - 2.0) * r + (n - 2.0) * x;
    assert (n + 2.0) * r == (n - 2.0) * r + 4.0 * r;
  }

  // What n points leave of the squared residuals of the flat line.
  predicate LeavesLittle(n: real, slope: real, flat: real, fitted: real) {
    slope != 0.0 && (n - 2.0) * flat >= (n + 2.0) * fitted
  }

  lemma Weighed(n: real, q: real, r: real, s: real, flat: real)
    requires n > 2.0 && r >= 0.0 && s > 0.0 && flat == r + s * Sq(q)
    ensures TwiceItsError(q, r / (n - 2.0) / s) <==> LeavesLittle(n, q, flat, r)
  {
    ErrorBound(Sq(q), r, n - 2.0, s);
    Shares(n, r, s * Sq(q));
    SquareSign(q);
    Product(s, Sq(q));
    Product(n - 2.0, s * Sq(q));
    if q == 0.0 {
      assert Sq(q) == 0.0;
      assert s * Sq(q) == 0.0;
      assert (n - 2.0) * (s * Sq(q)) == 0.0;
    }
  }

  // The figures of a fit: the error of its slope, and the residuals of it and of the flat line.
  predicate Figures(n: real, slope: real, error: real, flat: real, fitted: real) {
    TwiceItsError(slope, error) <==> LeavesLittle(n, slope, flat, fitted)
  }

  lemma FiguresOf(points: seq<Point>, fit: Line, s: real)
    requires Fit(points) == Some(fit) && s == Sxx(points, MeanT(points)) && s > 0.0
    requires Residuals(points, Flat(points)) == Residuals(points, fit) + s * Sq(fit.slope)
    ensures Figures(|points| as real, fit.slope, SlopeVariance(points, fit), Residuals(points, Flat(points)), Residuals(points, fit))
  {
    ResidualsSign(points, fit);
    assert (|points| - 2) as real == |points| as real - 2.0;
    Weighed(|points| as real, fit.slope, Residuals(points, fit), s, Residuals(points, Flat(points)));
  }

  lemma SlopeExplains(points: seq<Point>, fit: Line) returns (s: real)
    requires Fit(points) == Some(fit)
    ensures s == Sxx(points, MeanT(points)) && s > 0.0
    ensures Residuals(points, Flat(points)) == Residuals(points, fit) + s * Sq(fit.slope)
  {
    s := Sxx(points, MeanT(points));
    FitIsCentred(points, fit);
    Explained(points, fit, MeanT(points), MeanV(points));
  }

  // A trend is significant exactly when it has a slope and leaves at most (n - 2) / (n + 2) of the
  // squared residuals of the flat line through the mean.
  lemma SignificantIff(points: seq<Point>, fit: Line)
    requires Fit(points) == Some(fit)
    ensures Significant(points, fit) <==>
            LeavesLittle(|points| as real, fit.slope, Residuals(points, Flat(points)), Residuals(points, fit))
  {
    var s := SlopeExplains(points, fit);
    FiguresOf(points, fit, s);
  }
}
