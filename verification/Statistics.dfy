/** Single-pass statistics over a window of values: internal/anomaly/detector.go. */
module Statistics {
  import opened Reals

  // Products are named so that the inductive proofs can treat them as atoms.

  function Mul(a: real, b: real): real {
    a * b
  }

  function Sq(a: real): real {
    a * a
  }

  lemma MulAdds(a: real, b: real, c: real)
    ensures Mul(a, b + c) == Mul(a, b) + Mul(a, c)
    ensures Mul(b + c, a) == Mul(b, a) + Mul(c, a)
  {
  }

  lemma SqDiffers(a: real, b: real)
    ensures Sq(a - b) == Sq(a) - 2.0 * Mul(b, a) + Sq(b)
  {
  }

  function Sum(v: seq<real>): real {
    if v == [] then 0.0 else Sum(v[..|v| - 1]) + v[|v| - 1]
  }

  function SumSq(v: seq<real>): real {
    if v == [] then 0.0 else SumSq(v[..|v| - 1]) + Sq(v[|v| - 1])
  }

  /** Sum of squared distances from c. */
  function SquaredDeviations(v: seq<real>, c: real): real {
    if v == [] then 0.0 else SquaredDeviations(v[..|v| - 1], c) + Sq(v[|v| - 1] - c)
  }

  lemma {:induction false} Expand(v: seq<real>, c: real)
    ensures SquaredDeviations(v, c) == SumSq(v) - 2.0 * Mul(c, Sum(v)) + Mul(|v| as real, Sq(c))
  {
    if v == [] {
    } else {
      hide Mul, Sq;
      var init, x := v[..|v| - 1], v[|v| - 1];
      Expand(init, c);
      SqDiffers(x, c);
      MulAdds(c, Sum(init), x);
      MulAdds(Sq(c), |init| as real, 1.0);
      MulOne(Sq(c));
    }
  }

  lemma MulOne(a: real)
    ensures Mul(1.0, a) == a
  {
  }

  /** The algebra of one online update: n values of mean m, one more value x, new mean m'. */
  lemma UpdateAlgebra(n: real, m: real, x: real, m': real)
    requires (n + 1.0) * m' == n * m + x
    ensures Sq(x) - Mul(n + 1.0, Sq(m')) + Mul(n, Sq(m)) == (x - m) * (x - m')
  {
    var k := n + 1.0;
    assert k * (m' * m') == m' * (k * m') == m' * (n * m + x) == m' * (n * m) + m' * x;
    assert (x - m) * (x - m') == x * x - x * m' - m * x + m * m';
    assert m * (k * m') == m * (n * m + x) == n * (m * m) + m * x;
    assert m * (k * m') == m' * (n * m) + m * m';
  }

  /** The sum of squared deviations from the mean, by the mean alone. */
  lemma AtMean(v: seq<real>, m: real)
    requires Sum(v) == |v| as real * m
    ensures SquaredDeviations(v, m) == SumSq(v) - Mul(|v| as real, Sq(m))
  {
    hide Mul, Sq, SquaredDeviations, SumSq;
    Expand(v, m);
    MeanProduct(|v| as real, m);
  }

  lemma MeanProduct(n: real, m: real)
    ensures Mul(m, n * m) == Mul(n, Sq(m))
  {
  }

  /** One step of the online update. */
  lemma WelfordStep(v: seq<real>, x: real, m: real, m': real)
    requires Sum(v) == |v| as real * m && m' == m + (x - m) / (|v| + 1) as real
    ensures Sum(v + [x]) == (|v| + 1) as real * m'
    ensures SquaredDeviations(v + [x], m') == SquaredDeviations(v, m) + (x - m) * (x - m')
  {
    hide SquaredDeviations, Mul;
    var n := |v| as real;
    assert (v + [x])[..|v|] == v && |v + [x]| as real == n + 1.0;
    NewMean(n, m, x, m');
    UpdateAlgebra(n, m, x, m');
    AtMean(v, m);
    AtMean(v + [x], m');
  }

  lemma NewMean(n: real, m: real, x: real, m': real)
    requires n >= 0.0 && m' == m + (x - m) / (n + 1.0)
    ensures (n + 1.0) * m' == n * m + x
  {
    DivideBack(x - m, n + 1.0);
    var e := (x - m) / (n + 1.0);
    assert (n + 1.0) * (m + e) == n * m + m + (n + 1.0) * e;
  }

  /** Mean and the square of the sample standard deviation. */
  method MeanVariance(vals: seq<real>) returns (mean: real, variance: real)
    ensures vals == [] ==> mean == 0.0 && variance == 0.0
    ensures vals != [] ==> |vals| as real * mean == Sum(vals)
    ensures |vals| == 1 ==> variance == 0.0
    ensures |vals| > 1 ==> variance * (|vals| - 1) as real == SquaredDeviations(vals, mean)
  {
    hide Sum, SquaredDeviations;
    var n := |vals|;
    if n == 0 {
      return 0.0, 0.0;
    }
    var m, s := 0.0, 0.0;
    NothingSummed();
    assert vals[..0] == [];
    for i := 0 to n
      invariant Sum(vals[..i]) == i as real * m
      invariant s == SquaredDeviations(vals[..i], m)
    {
      var v := vals[i];
      var delta := v - m;
      var m' := m + delta / (i + 1) as real;
      WelfordStep(vals[..i], v, m, m');
      assert vals[..i] + [v] == vals[..i + 1];
      m := m';
      s := s + delta * (v - m);
    }
    assert vals[..n] == vals;
    mean, variance := m, 0.0;
    if n > 1 {
      DivideBack(s, (n - 1) as real);
      variance := s / (n - 1) as real;
    }
  }

  lemma NothingSummed()
    ensures Sum([]) == 0.0 && forall c :: SquaredDeviations([], c) == 0.0
  {
  }

  /** The square of the volatility: the sample variance of the first differences. */
  method VolatilitySquared(vals: seq<real>) returns (variance: real)
    ensures |vals| <= 2 ==> variance == 0.0
    ensures |vals| > 2 ==> exists mean ::
              && (|vals| - 1) as real * mean == vals[|vals| - 1] - vals[0]
              && variance * (|vals| - 2) as real == SquaredDeviations(Differences(vals), mean)
  {
    hide SquaredDeviations, Sum;
    if |vals| < 2 {
      return 0.0;
    }
    var diffs := [];
    for i := 1 to |vals|
      invariant |diffs| == i - 1 && forall k :: 0 <= k < i - 1 ==> diffs[k] == vals[k + 1] - vals[k]
    {
      diffs := diffs + [vals[i] - vals[i - 1]];
    }
    assert diffs == Differences(vals);
    var mean;
    mean, variance := MeanVariance(diffs);
    Telescope(vals);
  }

  function Differences(v: seq<real>): seq<real>
    requires |v| > 0
  {
    seq(|v| - 1, i requires 0 <= i < |v| - 1 => v[i + 1] - v[i])
  }

  lemma {:induction false} Telescope(v: seq<real>)
    requires |v| > 0
    ensures Sum(Differences(v)) == v[|v| - 1] - v[0]
  {
    if |v| > 1 {
      var init := v[..|v| - 1];
      Telescope(init);
      assert Differences(v)[..|v| - 2] == Differences(init);
    }
  }

  // ---- Linear regression ----

  /** Sum of squared residuals of the line a + b*i over the values at positions i. */
  function Residuals(v: seq<real>, a: real, b: real): real {
    if v == [] then 0.0
    else Residuals(v[..|v| - 1], a, b) + Sq(v[|v| - 1] - (a + Mul(b, (|v| - 1) as real)))
  }

  function SumX(n: nat): real {
    if n == 0 then 0.0 else SumX(n - 1) + (n - 1) as real
  }

  function SumXX(n: nat): real {
    if n == 0 then 0.0 else SumXX(n - 1) + Sq((n - 1) as real)
  }

  function SumXY(v: seq<real>): real {
    if v == [] then 0.0 else SumXY(v[..|v| - 1]) + Mul((|v| - 1) as real, v[|v| - 1])
  }

  function Denominator(n: nat): real {
    n as real * SumXX(n) - SumX(n) * SumX(n)
  }

  lemma {:induction false} ClosedForms(n: nat)
    ensures 2.0 * SumX(n) == Mul(n as real, n as real - 1.0)
    ensures 6.0 * SumXX(n) == Mul(n as real, n as real - 1.0) * (2.0 * n as real - 1.0)
  {
    if n > 0 {
      hide Mul, Sq;
      ClosedForms(n - 1);
      assert (n - 1) as real == n as real - 1.0;
      ClosedStep(n as real);
    }
  }

  lemma ClosedStep(x: real)
    ensures Mul(x - 1.0, x - 1.0 - 1.0) + 2.0 * (x - 1.0) == Mul(x, x - 1.0)
    ensures Mul(x - 1.0, x - 1.0 - 1.0) * (2.0 * (x - 1.0) - 1.0) + 6.0 * Sq(x - 1.0)
            == Mul(x, x - 1.0) * (2.0 * x - 1.0)
  {
    var y := x - 1.0;
    assert y * (y - 1.0) + 2.0 * y == (y + 1.0) * y;
    assert y * (y - 1.0) * (2.0 * y - 1.0) + 6.0 * (y * y) == y * ((y - 1.0) * (2.0 * y - 1.0) + 6.0 * y);
    assert (y - 1.0) * (2.0 * y - 1.0) + 6.0 * y == (y + 1.0) * (2.0 * y + 1.0);
    assert y * ((y + 1.0) * (2.0 * y + 1.0)) == (y + 1.0) * y * (2.0 * y + 1.0);
  }

  /** With at least two positions the denominator of the slope is positive: it is n*n*(n*n - 1)/12. */
  lemma DenominatorPositive(n: nat)
    requires n >= 2
    ensures Denominator(n) > 0.0
  {
    ClosedForms(n);
    DenominatorAlgebra(n as real, SumX(n), SumXX(n));
  }

  lemma DenominatorAlgebra(n: real, sx: real, sxx: real)
    requires n >= 2.0 && 2.0 * sx == Mul(n, n - 1.0) && 6.0 * sxx == Mul(n, n - 1.0) * (2.0 * n - 1.0)
    ensures n * sxx - sx * sx > 0.0
  {
    var p := n * (n - 1.0);
    assert p > 0.0;
    assert 4.0 * (sx * sx) == p * p;
    assert 6.0 * (n * sxx) == n * (p * (2.0 * n - 1.0)) == p * (n * (2.0 * n - 1.0));
    assert 12.0 * (n * sxx - sx * sx) == p * (2.0 * (n * (2.0 * n - 1.0)) - 3.0 * p);
    assert 2.0 * (n * (2.0 * n - 1.0)) - 3.0 * p == n * (n + 1.0);
    var r := n * (n + 1.0);
    assert r > 0.0;
    assert 12.0 * (n * sxx - sx * sx) == p * r;
    ProductPositive(p, r);
  }

  lemma ProductPositive(a: real, b: real)
    requires a > 0.0 && b > 0.0
    ensures a * b > 0.0
  {
  }

  function SlopeNumerator(v: seq<real>): real {
    |v| as real * SumXY(v) - SumX(|v|) * Sum(v)
  }

  /** The least-squares slope and intercept of the values at positions 0, 1, 2, ... */
  function Slope(v: seq<real>): real
    requires |v| >= 2
  {
    DenominatorPositive(|v|);
    SlopeNumerator(v) / Denominator(|v|)
  }

  function Intercept(v: seq<real>): real
    requires |v| >= 2
  {
    (Sum(v) - Mul(Slope(v), SumX(|v|))) / |v| as real
  }

  lemma FitEquations(v: seq<real>)
    requires |v| >= 2
    ensures Slope(v) * Denominator(|v|) == SlopeNumerator(v)
    ensures |v| as real * Intercept(v) == Sum(v) - Slope(v) * SumX(|v|)
  {
    hide Denominator, SlopeNumerator, Sum, SumX;
    DenominatorPositive(|v|);
    DivideBack(SlopeNumerator(v), Denominator(|v|));
    DivideBack(Sum(v) - Mul(Slope(v), SumX(|v|)), |v| as real);
  }

  /** The regression slope, from sums gathered in one pass. */
  method LinearSlope(vals: seq<real>) returns (slope: real)
    ensures |vals| < 2 ==> slope == 0.0
    ensures |vals| >= 2 ==> slope == Slope(vals)
  {
    hide SumX, SumXX, SumXY, Sum, Denominator, Mul, Sq;
    if |vals| < 2 {
      return 0.0;
    }
    var n := |vals| as real;
    var sumX, sumY, sumXY, sumX2 := 0.0, 0.0, 0.0, 0.0;
    SumsStart();
    assert vals[..0] == [];
    for i := 0 to |vals|
      invariant sumX == SumX(i) && sumX2 == SumXX(i) && sumY == Sum(vals[..i]) && sumXY == SumXY(vals[..i])
    {
      var x, y := i as real, vals[i];
      SumsStep(vals[..i], y);
      assert vals[..i] + [y] == vals[..i + 1];
      sumX := sumX + x;
      sumY := sumY + y;
      sumXY := sumXY + Mul(x, y);
      sumX2 := sumX2 + Sq(x);
    }
    assert vals[..|vals|] == vals;
    var denom := n * sumX2 - sumX * sumX;
    DenominatorPositive(|vals|);
    IsDenominator(|vals|);
    if denom == 0.0 {
      return 0.0;
    }
    slope := (n * sumXY - sumX * sumY) / denom;
  }

  lemma IsDenominator(n: nat)
    ensures Denominator(n) == n as real * SumXX(n) - SumX(n) * SumX(n)
  {
  }

  lemma SumsStart()
    ensures SumX(0) == 0.0 && SumXX(0) == 0.0 && Sum([]) == 0.0 && SumXY([]) == 0.0
  {
  }

  lemma SumsStep(v: seq<real>, y: real)
    ensures SumX(|v| + 1) == SumX(|v|) + |v| as real
    ensures SumXX(|v| + 1) == SumXX(|v|) + Sq(|v| as real)
    ensures Sum(v + [y]) == Sum(v) + y
    ensures SumXY(v + [y]) == SumXY(v) + Mul(|v| as real, y)
  {
    assert (v + [y])[..|v|] == v;
  }

  // ---- What the slope means ----

  /** The residuals of a line by the sums of the values. */
  function ResidualsBySums(n: real, sx: real, sxx: real, sy: real, sxy: real, syy: real, a: real, b: real): real {
    syy - 2.0 * Mul(a, sy) - 2.0 * Mul(b, sxy) + Mul(n, Sq(a)) + 2.0 * Mul(Mul(a, b), sx) + Mul(Sq(b), sxx)
  }

  lemma ResidualAlgebra(x: real, y: real, a: real, b: real)
    ensures Sq(y - (a + Mul(b, x))) ==
            Sq(y) - 2.0 * Mul(a, y) - 2.0 * Mul(b, Mul(x, y)) + Sq(a) + 2.0 * Mul(Mul(a, b), x) + Mul(Sq(b), Sq(x))
  {
    var bx := b * x;
    assert (y - (a + bx)) * (y - (a + bx)) == y * y - 2.0 * (a * y) - 2.0 * (bx * y) + a * a + 2.0 * (a * bx) + bx * bx;
    assert bx * y == b * (x * y) && a * bx == a * b * x;
    assert bx * bx == b * b * (x * x);
  }

  lemma {:induction false} ResidualsExpand(v: seq<real>, a: real, b: real)
    ensures Residuals(v, a, b) ==
            ResidualsBySums(|v| as real, SumX(|v|), SumXX(|v|), Sum(v), SumXY(v), SumSq(v), a, b)
  {
    if v != [] {
      hide Mul, Sq;
      var init, y := v[..|v| - 1], v[|v| - 1];
      var n, x := |init|, |init| as real;
      ResidualsExpand(init, a, b);
      ResidualAlgebra(x, y, a, b);
      MulAdds(a, Sum(init), y);
      MulAdds(b, SumXY(init), Mul(x, y));
      MulAdds(Sq(a), x, 1.0);
      MulOne(Sq(a));
      MulAdds(Mul(a, b), SumX(n), x);
      MulAdds(Sq(b), SumXX(n), Sq(x));
    }
  }

  lemma SquareOfSum(a: real, p: real, s: real)
    ensures Mul(s, Sq(a + p)) == Mul(s, Sq(a)) + 2.0 * Mul(s, Mul(a, p)) + Mul(s, Sq(p))
    ensures Mul(Sq(a + p), s) == Mul(s, Sq(a + p))
  {
    assert (a + p) * (a + p) == a * a + 2.0 * (a * p) + p * p;
    assert s * (a * a + 2.0 * (a * p) + p * p) == s * (a * a) + 2.0 * (s * (a * p)) + s * (p * p);
  }

  lemma ProductOfSums(a: real, p: real, b: real, q: real, s: real)
    ensures Mul(Mul(a + p, b + q), s) == Mul(Mul(a, b), s) + Mul(s, Mul(a, q)) + Mul(s, Mul(p, b)) + Mul(Mul(p, q), s)
  {
    assert (a + p) * (b + q) == a * b + a * q + p * b + p * q;
  }

  lemma NormalEquation(t: real, s1: real, c1: real, s2: real, c2: real)
    ensures Mul(t, s1 * c1 + s2 * c2) == Mul(s1, Mul(c1, t)) + Mul(s2, Mul(t, c2))
  {
  }

  /** With the normal equations satisfied, leaving (a, b) by (p, q) adds a quadratic form in p and q. */
  lemma LeaveFit(n: real, sx: real, sxx: real, sy: real, sxy: real, syy: real, a: real, b: real, p: real, q: real)
    requires sy == n * a + sx * b && sxy == sx * a + sxx * b
    ensures ResidualsBySums(n, sx, sxx, sy, sxy, syy, a + p, b + q)
         == ResidualsBySums(n, sx, sxx, sy, sxy, syy, a, b)
            + (Mul(n, Sq(p)) + 2.0 * Mul(Mul(p, q), sx) + Mul(sxx, Sq(q)))
  {
    hide Mul, Sq;
    MulAdds(sy, a, p);
    MulAdds(sxy, b, q);
    SquareOfSum(a, p, n);
    ProductOfSums(a, p, b, q, sx);
    SquareOfSum(b, q, sxx);
    SquareOfSum(b, 0.0, sxx);
    NormalEquation(p, n, a, sx, b);
    NormalEquation(q, sx, a, sxx, b);
    Commutes(q, b);
  }

  lemma Commutes(a: real, b: real)
    ensures Mul(a, b) == Mul(b, a)
  {
  }

  lemma PositiveForm(n: real, sx: real, sxx: real, p: real, q: real)
    requires n > 0.0 && n * sxx - sx * sx > 0.0
    ensures Mul(n, Sq(p)) + 2.0 * Mul(Mul(p, q), sx) + Mul(sxx, Sq(q)) >= 0.0
  {
    var form, d, u := n * (p * p) + 2.0 * (p * q * sx) + sxx * (q * q), n * sxx - sx * sx, n * p + sx * q;
    assert u * u == n * n * (p * p) + 2.0 * (n * (p * q * sx)) + sx * sx * (q * q);
    assert d * (q * q) == n * (sxx * (q * q)) - sx * sx * (q * q);
    assert n * form == n * n * (p * p) + 2.0 * (n * (p * q * sx)) + n * (sxx * (q * q));
    assert u * u >= 0.0;
    assert q * q >= 0.0;
    assert d * (q * q) >= 0.0;
    Cancel(0.0, form, n);
  }

  /** The fit satisfies the normal equations of the sums. */
  lemma FitIsNormal(n: real, sx: real, sxx: real, sy: real, sxy: real, a: real, b: real)
    requires n > 0.0 && b * (n * sxx - sx * sx) == n * sxy - sx * sy && n * a == sy - b * sx
    ensures sy == n * a + sx * b && sxy == sx * a + sxx * b
  {
    assert sy == n * a + sx * b;
    assert sx * sy == n * (sx * a) + sx * (sx * b);
    assert b * (n * sxx - sx * sx) == n * (sxx * b) - sx * (sx * b);
    assert n * sxy == n * (sx * a) + n * (sxx * b);
    assert n * (sx * a + sxx * b) == n * (sx * a) + n * (sxx * b);
    CancelEqual(sxy, sx * a + sxx * b, n);
  }

  /** No line, of any slope and intercept, leaves smaller squared residuals than the one with this slope. */
  lemma SlopeIsLeastSquares(v: seq<real>, a: real, b: real)
    requires |v| >= 2
    ensures Residuals(v, Intercept(v), Slope(v)) <= Residuals(v, a, b)
  {
    hide Residuals, ResidualsBySums, Mul, Sq, SumX, SumXX, SumXY, Sum, SumSq, Slope, Intercept;
    var n, sx, sxx, sy, sxy := |v| as real, SumX(|v|), SumXX(|v|), Sum(v), SumXY(v);
    var a0, b0 := Intercept(v), Slope(v);
    DenominatorPositive(|v|);
    ResidualsExpand(v, a0, b0);
    ResidualsExpand(v, a, b);
    FitEquations(v);
    FitIsNormal(n, sx, sxx, sy, sxy, a0, b0);
    LeaveFit(n, sx, sxx, sy, sxy, SumSq(v), a0, b0, a - a0, b - b0);
    PositiveForm(n, sx, sxx, a - a0, b - b0);
    assert a0 + (a - a0) == a && b0 + (b - b0) == b;
  }

  /** The values of a straight line at the first n positions. */
  function Line(a: real, b: real, n: nat): (v: seq<real>)
    ensures |v| == n
  {
    if n == 0 then [] else Line(a, b, n - 1) + [a + Mul(b, (n - 1) as real)]
  }

  lemma {:induction false} LineSums(a: real, b: real, m: nat)
    ensures Sum(Line(a, b, m)) == Mul(a, m as real) + Mul(b, SumX(m))
    ensures SumXY(Line(a, b, m)) == Mul(a, SumX(m)) + Mul(b, SumXX(m))
  {
    if m > 0 {
      hide Mul, Sq;
      var v, n := Line(a, b, m), m - 1;
      var x := n as real;
      assert v[..n] == Line(a, b, n) && v[n] == a + Mul(b, x);
      LineSums(a, b, n);
      MulAdds(a, x, 1.0);
      MulOne(a);
      Commutes(a, 1.0);
      MulAdds(b, SumX(n), x);
      MulAdds(a, SumX(n), x);
      MulAdds(b, SumXX(n), Sq(x));
      MulAdds(x, a, Mul(b, x));
      Commutes(x, a);
      XTimes(x, b);
    }
  }

  lemma XTimes(x: real, b: real)
    ensures Mul(x, Mul(b, x)) == Mul(b, Sq(x))
  {
  }

  /** On a straight line the slope is exact. */
  lemma SlopeOfLine(a: real, b: real, m: nat)
    requires m >= 2
    ensures Slope(Line(a, b, m)) == b
  {
    hide SumX, SumXX, SumXY, Sum, Slope, Line, Mul;
    var v := Line(a, b, m);
    LineSums(a, b, m);
    LineAlgebra(m as real, SumX(m), SumXX(m), a, b);
    assert SlopeNumerator(v) == b * Denominator(m);
    DenominatorPositive(m);
    FitEquations(v);
    CancelEqual(Slope(v), b, Denominator(m));
  }

  lemma LineAlgebra(n: real, sx: real, sxx: real, a: real, b: real)
    ensures n * (Mul(a, sx) + Mul(b, sxx)) - sx * (Mul(a, n) + Mul(b, sx)) == b * (n * sxx - sx * sx)
  {
    assert n * (a * sx + b * sxx) == n * (a * sx) + n * (b * sxx);
    assert sx * (a * n + b * sx) == sx * (a * n) + sx * (b * sx);
    assert n * (a * sx) == sx * (a * n);
    assert b * (n * sxx - sx * sx) == n * (b * sxx) - sx * (b * sx);
  }
}
