/** Skewness, excess kurtosis and the asymptotic Sharpe denominator built from them. */
module SharpeMoments {
  import opened Numbers

  // ----- The source's computations ------------------------------------------------------------

  function Squares(d: seq<real>): (r: real)
    ensures r >= 0.0
  {
    if |d| == 0 then 0.0 else Squares(d[..|d| - 1]) + Square(d[|d| - 1])
  }

  function Cube(x: real): real {
    Times(Square(x), x)
  }

  function Fourth(x: real): real {
    Square(Square(x))
  }

  function Cubes(d: seq<real>): real {
    if |d| == 0 then 0.0 else Cubes(d[..|d| - 1]) + Cube(d[|d| - 1])
  }

  function Fourths(d: seq<real>): real {
    if |d| == 0 then 0.0 else Fourths(d[..|d| - 1]) + Fourth(d[|d| - 1])
  }

  predicate AllEqual(values: seq<real>) {
    forall i :: 0 <= i < |values| ==> values[i] == values[0]
  }

  function SampleVariance(values: seq<real>): real
    requires |values| >= 2
  {
    Ratio(Squares(Deviations(values)), (|values| - 1) as real)
  }

  /** s is what the sample standard deviation returns: zero for equal values, else the root of the variance. */
  predicate IsStandardDeviation(values: seq<real>, s: real)
    requires |values| >= 2
  {
    if AllEqual(values) then s == 0.0 else s >= 0.0 && Square(s) == SampleVariance(values)
  }

  function Standardized(values: seq<real>, s: real): (z: seq<real>)
    requires |values| > 0 && s != 0.0
    ensures |z| == |values|
  {
    seq(|values|, i requires 0 <= i < |values| => Ratio(values[i] - Average(values), s))
  }

  /** The skewness before it is rounded. */
  function RawSkewness(values: seq<real>, s: real): Option<real> {
    if |values| < 3 || s == 0.0 then None
    else Some(Ratio(Cubes(Standardized(values, s)), |values| as real))
  }

  /** The excess kurtosis before it is rounded. */
  function RawExcessKurtosis(values: seq<real>, s: real): Option<real> {
    if |values| < 4 || s == 0.0 then None
    else Some(Ratio(Fourths(Standardized(values, s)), |values| as real) - 3.0)
  }

  /** The variance of the Sharpe estimate up to 1 / (n - 1); the callers give up when it is not positive. */
  function DenominatorTerm(sharpe: real, skewness: real, excessKurtosis: real): real {
    1.0 - Times(skewness, sharpe) + Times((excessKurtosis + 2.0) / 4.0, Square(sharpe))
  }

  // ----- Standardized values have mean zero and mean square (n - 1) / n ---------------------------

  lemma {:induction false} DeviationSums(values: seq<real>, mean: real, d: seq<real>)
    requires |d| == |values| && forall i :: 0 <= i < |d| ==> d[i] == values[i] - mean
    ensures Sum(d) == Sum(values) - Times(|values| as real, mean)
  {
    var n := |d|;
    if n == 0 {
      ZeroProduct(0.0, mean);
    } else {
      DeviationSums(values[..n - 1], mean, d[..n - 1]);
      assert Times(n as real, mean) == Times((n - 1) as real, mean) + mean;
    }
  }

  lemma {:induction false} ScaledSums(d: seq<real>, z: seq<real>, s: real)
    requires |d| == |z| && forall i :: 0 <= i < |z| ==> Times(z[i], s) == d[i]
    ensures Times(Sum(z), s) == Sum(d) && Times(Squares(z), Square(s)) == Squares(d)
  {
    var n := |d|;
    if n == 0 {
      ZeroProduct(0.0, s);
      ZeroProduct(0.0, Square(s));
    } else {
      ScaledSums(d[..n - 1], z[..n - 1], s);
      ScaledTerm(Sum(z[..n - 1]), Squares(z[..n - 1]), z[n - 1], s);
    }
  }

  lemma ScaledTerm(total: real, squares: real, x: real, s: real)
    ensures Times(total + x, s) == Times(total, s) + Times(x, s)
    ensures Times(squares + Square(x), Square(s)) == Times(squares, Square(s)) + Square(Times(x, s))
  {
  }

  lemma CancelRight(x: real, y: real, s: real)
    requires s != 0.0 && Times(x, s) == Times(y, s)
    ensures x == y
  {
  }

  lemma MeanTimesCount(total: real, n: real)
    requires n != 0.0
    ensures Times(n, Ratio(total, n)) == total
  {
  }

  lemma UnitMoments(total: real, squares: real, s: real, variance: real, df: real)
    requires s > 0.0 && Square(s) > 0.0 && Times(total, s) == 0.0 && Times(squares, Square(s)) == Times(variance, df)
    requires Square(s) == variance
    ensures total == 0.0 && squares == df
  {
    ZeroProduct(0.0, s);
    CancelRight(total, 0.0, s);
    assert Times(variance, df) == Times(df, Square(s));
    CancelRight(squares, df, Square(s));
  }

  lemma StandardizedMoments(values: seq<real>, s: real)
    requires |values| >= 2 && s > 0.0 && IsStandardDeviation(values, s)
    ensures Sum(Standardized(values, s)) == 0.0
    ensures Squares(Standardized(values, s)) == (|values| - 1) as real
  {
    var d, z, n := Deviations(values), Standardized(values, s), |values| as real;
    DeviationSums(values, Average(values), d);
    MeanTimesCount(Sum(values), n);
    ScaledSums(d, z, s);
    SquarePositive(s);
    UnitMoments(Sum(z), Squares(z), s, SampleVariance(values), (|values| - 1) as real);
  }

  // ----- Pearson's inequality --------------------------------------------------------------------

  function Residual(x: real, a: real, b: real): real {
    Square(x) - Times(a, x) - b
  }

  function ResidualSquares(z: seq<real>, a: real, b: real): (r: real)
    ensures r >= 0.0
  {
    if |z| == 0 then 0.0 else ResidualSquares(z[..|z| - 1], a, b) + Square(Residual(z[|z| - 1], a, b))
  }

  /** The residual sum in terms of the four power sums and the count. */
  function Expanded(fourths: real, cubes: real, squares: real, sum: real, n: real, a: real, b: real): real {
    fourths - 2.0 * Times(a, cubes) + Times(Square(a) - 2.0 * b, squares)
    + 2.0 * Times(Times(a, b), sum) + Times(n, Square(b))
  }

  lemma {:induction false} ResidualsExpand(z: seq<real>, a: real, b: real)
    ensures ResidualSquares(z, a, b) == Expanded(Fourths(z), Cubes(z), Squares(z), Sum(z), |z| as real, a, b)
  {
    var n := |z|;
    if n == 0 {
      ExpandedZero(a, b);
    } else {
      var y := z[..n - 1];
      ResidualsExpand(y, a, b);
      ExpandedStep(Fourths(y), Cubes(y), Squares(y), Sum(y), (n - 1) as real, z[n - 1], a, b);
    }
  }

  lemma ExpandedZero(a: real, b: real)
    ensures Expanded(0.0, 0.0, 0.0, 0.0, 0.0, a, b) == 0.0
  {
  }

  lemma ExpandedStep(f: real, c: real, q: real, t: real, n: real, x: real, a: real, b: real)
    ensures Expanded(f + Fourth(x), c + Cube(x), q + Square(x), t + x, n + 1.0, a, b)
            == Expanded(f, c, q, t, n, a, b) + Square(Residual(x, a, b))
  {
    ResidualSquare(x, a, b);
    Distribute(c, Cube(x), a);
    Distribute(q, Square(x), Square(a) - 2.0 * b);
    Distribute(t, x, Times(a, b));
    Distribute(n, 1.0, Square(b));
  }

  lemma ResidualSquare(x: real, a: real, b: real)
    ensures Square(Residual(x, a, b)) ==
            Fourth(x) - 2.0 * Times(a, Cube(x)) + Times(Square(a) - 2.0 * b, Square(x)) + 2.0 * Times(Times(a, b), x) + Square(b)
  {
  }

  /** The best quadratic leaves a * cubes + b * squares unexplained. */
  lemma BestQuadratic(f: real, c: real, q: real, n: real, a: real, b: real)
    requires Times(a, q) == c && Times(b, n) == q && Expanded(f, c, q, 0.0, n, a, b) >= 0.0
    ensures f >= Times(a, c) + Times(b, q)
  {
    assert Times(Square(a) - 2.0 * b, q) == Times(a, Times(a, q)) - 2.0 * Times(b, q);
    assert Times(n, Square(b)) == Times(b, Times(b, n));
    ZeroProduct(0.0, Times(a, b));
  }

  /** Kurtosis is at least n / (n - 1) times skewness squared plus the squared mean square, for every sample of four or more. */
  lemma KurtosisBound(values: seq<real>, s: real)
    requires |values| >= 4 && s > 0.0 && IsStandardDeviation(values, s)
    ensures var n := |values| as real;
            RawExcessKurtosis(values, s).value + 3.0 >=
            Times(Ratio(n, n - 1.0), Square(RawSkewness(values, s).value)) + Square(Ratio(n - 1.0, n))
  {
    var z := Standardized(values, s);
    var n := |values| as real;
    var q := n - 1.0;
    StandardizedMoments(values, s);
    var f, c := Fourths(z), Cubes(z);
    var a, b := Ratio(c, q), Ratio(q, n);
    ResidualsExpand(z, a, b);
    BestQuadratic(f, c, q, n, a, b);
    DividePearson(f, c, q, n, a, b, Ratio(f, n), Ratio(c, n));
  }

  lemma DividePearson(f: real, c: real, q: real, n: real, a: real, b: real, k: real, g: real)
    requires n > q > 0.0 && Times(a, q) == c && Times(b, n) == q && Times(k, n) == f && Times(g, n) == c
    requires f >= Times(a, c) + Times(b, q)
    ensures k >= Times(Ratio(n, q), Square(g)) + Square(b)
  {
    var w := Ratio(n, q);
    assert Times(Times(g, w), q) == Times(g, n);
    CancelRight(a, Times(g, w), q);
    assert Times(a, c) == Times(Times(w, Square(g)), n);
    assert Times(b, q) == Times(Square(b), n);
    Distribute(Times(w, Square(g)), Square(b), n);
    OrderRight(k, Times(w, Square(g)) + Square(b), n);
  }

  lemma OrderRight(x: real, y: real, n: real)
    requires n > 0.0 && Times(x, n) >= Times(y, n)
    ensures x >= y
  {
    if x < y {
      ProductPositive(y - x, n);
    }
  }

  // ----- The denominator -------------------------------------------------------------------------

  /** How far below the perfect square the denominator can fall. */
  function Margin(sharpe: real, n: real): real
    requires n > 0.0
  {
    SquarePositive(n);
    Times(Square(sharpe), Ratio(2.0 * n - 1.0, 4.0 * Square(n)))
  }

  lemma MarginIdentity(n: real)
    requires n > 0.0
    ensures Square(n) > 0.0 && Ratio(2.0 * n - 1.0, 4.0 * Square(n)) == (1.0 - Square(Ratio(n - 1.0, n))) / 4.0
  {
  }

  /** 1 / n less the margin: no sample of n returns has a smaller denominator. */
  function LeastTerm(sharpe: real, n: real): real
    requires n > 0.0
  {
    Ratio(1.0, n) - Margin(sharpe, n)
  }

  /** It is positive exactly below this Sharpe ratio, and zero there. */
  lemma LeastTermSign(sharpe: real, n: real)
    requires n > 0.0
    ensures LeastTerm(sharpe, n) > 0.0 <==> Times(Square(sharpe), 2.0 * n - 1.0) < 4.0 * n
    ensures LeastTerm(sharpe, n) >= 0.0 <==> Times(Square(sharpe), 2.0 * n - 1.0) <= 4.0 * n
  {
    SquarePositive(n);
    var least, scale, v := LeastTerm(sharpe, n), 4.0 * Square(n), Square(sharpe);
    assert Times(Ratio(1.0, n), scale) == 4.0 * n;
    ScaledRatio(v, 2.0 * n - 1.0, scale);
    Distribute(Ratio(1.0, n), -Margin(sharpe, n), scale);
    assert Times(-Margin(sharpe, n), scale) == -Times(v, 2.0 * n - 1.0);
    SignOfProduct(least, scale);
    SignOfProduct(-least, scale);
    assert Times(-least, scale) == -Times(least, scale);
  }

  lemma ScaledRatio(v: real, x: real, y: real)
    requires y > 0.0
    ensures Times(Times(v, Ratio(x, y)), y) == Times(v, x)
  {
  }

  lemma SignOfProduct(x: real, y: real)
    requires y > 0.0
    ensures Times(x, y) >= 0.0 <==> x >= 0.0
  {
    ZeroProduct(0.0, y);
    if x >= 0.0 {
      ProductNonNegative(x, y);
    } else {
      ProductPositive(-x, y);
    }
  }

  /** The smallest value over all skewnesses that the kurtosis bound leaves. */
  lemma LeastFromKurtosis(sharpe: real, g: real, x: real, b: real, w: real, margin: real)
    requires w > 0.0 && Times(w, b) == 1.0 && x + 3.0 >= Times(w, Square(g)) + Square(b)
    requires margin == Times(Square(sharpe), (1.0 - Square(b)) / 4.0)
    ensures DenominatorTerm(sharpe, g, x) >= 1.0 - b - margin
  {
    var u, v := Times(g, sharpe), Square(sharpe);
    ProductMonotone(v, (Times(w, Square(g)) + Square(b) - 1.0) / 4.0, (x + 2.0) / 4.0);
    ProductNonNegative(w, Square(u / 2.0 - b));
    CompleteSquare(w, b, u);
    SplitCurve(w, g, sharpe, b, margin);
  }

  lemma CompleteSquare(w: real, b: real, u: real)
    requires Times(w, b) == 1.0
    ensures Times(w, Square(u / 2.0 - b)) == Times(w, Square(u)) / 4.0 - u + b
  {
    assert Square(u / 2.0 - b) == Square(u) / 4.0 - Times(u, b) + Square(b);
    assert Times(w, Square(b)) == Times(Times(w, b), b);
    assert Times(w, Times(u, b)) == Times(Times(w, b), u);
  }

  lemma SplitCurve(w: real, g: real, sharpe: real, b: real, margin: real)
    requires margin == Times(Square(sharpe), (1.0 - Square(b)) / 4.0)
    ensures Times(Square(sharpe), (Times(w, Square(g)) + Square(b) - 1.0) / 4.0)
            == Times(w, Square(Times(g, sharpe))) / 4.0 - margin
  {
    assert Square(Times(g, sharpe)) == Times(Square(g), Square(sharpe));
    assert Times(w, Times(Square(g), Square(sharpe))) == Times(Square(sharpe), Times(w, Square(g)));
  }

  lemma DenominatorFromKurtosis(sharpe: real, g: real, x: real, b: real, margin: real)
    requires x + 3.0 >= Square(g) + Square(b) && margin == Times(Square(sharpe), (1.0 - Square(b)) / 4.0)
    ensures DenominatorTerm(sharpe, g, x) >= Square(1.0 - Times(g, sharpe) / 2.0) - margin
  {
    var k := (x + 2.0) / 4.0;
    ProductMonotone(Square(sharpe), (Square(g) + Square(b) - 1.0) / 4.0, k);
    assert Times(k, Square(sharpe)) == Square(sharpe) * k;
    assert Square(1.0 - Times(g, sharpe) / 2.0) == 1.0 - Times(g, sharpe) + Times(Square(g), Square(sharpe)) / 4.0;
    assert Square(sharpe) * ((Square(g) + Square(b) - 1.0) / 4.0) == Times(Square(g), Square(sharpe)) / 4.0 - margin;
  }

  /** The denominator is a perfect square up to a margin that vanishes like one over the sample size. */
  lemma DenominatorBound(values: seq<real>, s: real, sharpe: real)
    requires |values| >= 4 && s > 0.0 && IsStandardDeviation(values, s)
    ensures var g := RawSkewness(values, s).value;
            DenominatorTerm(sharpe, g, RawExcessKurtosis(values, s).value)
            >= Square(1.0 - Times(g, sharpe) / 2.0) - Margin(sharpe, |values| as real)
  {
    var n := |values| as real;
    KurtosisBound(values, s);
    MarginIdentity(n);
    AtLeastOnce(n, Square(RawSkewness(values, s).value));
    DenominatorFromKurtosis(sharpe, RawSkewness(values, s).value, RawExcessKurtosis(values, s).value,
                            Ratio(n - 1.0, n), Margin(sharpe, n));
  }

  lemma AtLeastOnce(n: real, x: real)
    requires n > 1.0 && x >= 0.0
    ensures Times(Ratio(n, n - 1.0), x) >= x
  {
    var w := Ratio(n, n - 1.0);
    OrderRight(w, 1.0, n - 1.0);
    ProductMonotone(x, 1.0, w);
  }

  /** Whatever the sample's shape, its size and Sharpe ratio alone bound the denominator from below. */
  lemma DenominatorAtLeast(values: seq<real>, s: real, sharpe: real)
    requires |values| >= 4 && s > 0.0 && IsStandardDeviation(values, s)
    ensures DenominatorTerm(sharpe, RawSkewness(values, s).value, RawExcessKurtosis(values, s).value)
            >= LeastTerm(sharpe, |values| as real)
  {
    var n := |values| as real;
    KurtosisBound(values, s);
    MarginIdentity(n);
    InverseRatios(n);
    LeastFromKurtosis(sharpe, RawSkewness(values, s).value, RawExcessKurtosis(values, s).value,
                      Ratio(n - 1.0, n), Ratio(n, n - 1.0), Margin(sharpe, n));
  }

  lemma InverseRatios(n: real)
    requires n > 1.0
    ensures Ratio(n, n - 1.0) > 0.0 && Times(Ratio(n, n - 1.0), Ratio(n - 1.0, n)) == 1.0
    ensures 1.0 - Ratio(n - 1.0, n) == Ratio(1.0, n)
  {
    var w, b := Ratio(n, n - 1.0), Ratio(n - 1.0, n);
    OrderRight(w, 1.0, n - 1.0);
    assert Times(Times(w, b), n) == Times(w, n - 1.0);
    CancelRight(Times(w, b), 1.0, n);
    Distribute(b, Ratio(1.0, n), n);
    CancelRight(b + Ratio(1.0, n), 1.0, n);
  }

  /** For n returns with S * S * (2n - 1) < 4n, so whenever S * S <= 2, the denominator passes the source's guard. */
  lemma DenominatorPositive(values: seq<real>, s: real, sharpe: real)
    requires |values| >= 4 && s > 0.0 && IsStandardDeviation(values, s)
    requires Times(Square(sharpe), 2.0 * |values| as real - 1.0) < 4.0 * |values| as real
    ensures DenominatorTerm(sharpe, RawSkewness(values, s).value, RawExcessKurtosis(values, s).value) > 0.0
  {
    DenominatorAtLeast(values, s, sharpe);
    LeastTermSign(sharpe, |values| as real);
  }

  /** What rounding both moments can take off the denominator. */
  function Slack(sharpe: real): real {
    0.0000005 * (Abs(sharpe) + Square(sharpe) / 4.0)
  }

  /** The term the source evaluates: its non-positive guard fires only for Sharpe ratios whose least term is within the slack. */
  lemma RoundedDenominatorAtLeast(values: seq<real>, s: real, sharpe: real)
    requires |values| >= 4 && s > 0.0 && IsStandardDeviation(values, s)
    ensures var term := DenominatorTerm(sharpe, ToFixed6(RawSkewness(values, s).value), ToFixed6(RawExcessKurtosis(values, s).value));
            && term >= LeastTerm(sharpe, |values| as real) - Slack(sharpe)
            && (term <= 0.0 ==> LeastTerm(sharpe, |values| as real) <= Slack(sharpe))
  {
    DenominatorAtLeast(values, s, sharpe);
    var g, x := RawSkewness(values, s).value, RawExcessKurtosis(values, s).value;
    DenominatorsClose(sharpe, g, ToFixed6(g), x, ToFixed6(x));
  }

  /** The term the source evaluates, with both moments rounded, and what rounding can add to the margin. */
  lemma RoundedDenominatorBound(values: seq<real>, s: real, sharpe: real)
    requires |values| >= 4 && s > 0.0 && IsStandardDeviation(values, s)
    ensures var g := RawSkewness(values, s).value;
            var term := DenominatorTerm(sharpe, ToFixed6(g), ToFixed6(RawExcessKurtosis(values, s).value));
            && term >= Square(1.0 - Times(g, sharpe) / 2.0) - Margin(sharpe, |values| as real) - Slack(sharpe)
            && (term <= 0.0 ==> Square(1.0 - Times(g, sharpe) / 2.0) <= Margin(sharpe, |values| as real) + Slack(sharpe))
  {
    DenominatorBound(values, s, sharpe);
    var g, x := RawSkewness(values, s).value, RawExcessKurtosis(values, s).value;
    DenominatorsClose(sharpe, g, ToFixed6(g), x, ToFixed6(x));
  }

  lemma DenominatorsClose(sharpe: real, g: real, g': real, x: real, x': real)
    requires Abs(g' - g) <= 0.0000005 && Abs(x' - x) <= 0.0000005
    ensures DenominatorTerm(sharpe, g', x') >=
            DenominatorTerm(sharpe, g, x) - Slack(sharpe)
  {
    SlopeClose(sharpe, g, g');
    CurveClose(Square(sharpe), (x + 2.0) / 4.0, (x' + 2.0) / 4.0);
  }

  lemma SlopeClose(sharpe: real, g: real, g': real)
    requires Abs(g' - g) <= 0.0000005
    ensures Times(g', sharpe) <= Times(g, sharpe) + 0.0000005 * Abs(sharpe)
  {
    if sharpe >= 0.0 {
      ProductMonotone(sharpe, g', g + 0.0000005);
      Distribute(g, 0.0000005, sharpe);
    } else {
      ProductMonotone(-sharpe, g - 0.0000005, g');
      Distribute(g, -0.0000005, sharpe);
      NegateRight(g - 0.0000005, sharpe);
      NegateRight(g', sharpe);
    }
  }

  lemma NegateRight(x: real, y: real)
    ensures Times(x, -y) == -Times(x, y)
  {
  }

  lemma CurveClose(q: real, k: real, k': real)
    requires q >= 0.0 && k' >= k - 0.000000125
    ensures Times(k', q) >= Times(k, q) - 0.0000005 * (q / 4.0)
  {
    ProductMonotone(q, k - 0.000000125, k');
  }

  /** The bound is attained below zero: four ordinary returns reach their least term. */
  lemma DenominatorCanBeNegative()
    ensures var values := [-0.03, -0.03, -0.03, -0.07];
            && IsStandardDeviation(values, 0.02)
            && RawSkewness(values, 0.02) == Some(-0.75) && RawExcessKurtosis(values, 0.02) == Some(-1.6875)
            && DenominatorTerm(Ratio(Average(values), 0.02), -0.75, -1.6875) == -0.1875 == LeastTerm(-2.0, 4.0)
  {
    var values := [-0.03, -0.03, -0.03, -0.07];
    SumsOfFour(-0.03, -0.03, -0.03, -0.07);
    assert Average(values) == -0.04;
    assert Deviations(values) == [0.01, 0.01, 0.01, -0.03];
    SumsOfFour(0.01, 0.01, 0.01, -0.03);
    assert values[3] != values[0];
    assert Standardized(values, 0.02) == [0.5, 0.5, 0.5, -1.5];
    SumsOfFour(0.5, 0.5, 0.5, -1.5);
  }

  lemma SumsAppend(xs: seq<real>, x: real)
    ensures Sum(xs + [x]) == Sum(xs) + x && Squares(xs + [x]) == Squares(xs) + Square(x)
    ensures Cubes(xs + [x]) == Cubes(xs) + Cube(x) && Fourths(xs + [x]) == Fourths(xs) + Fourth(x)
  {
  }

  lemma SumsOfFour(a: real, b: real, c: real, d: real)
    ensures Sum([a, b, c, d]) == a + b + c + d
    ensures Squares([a, b, c, d]) == Square(a) + Square(b) + Square(c) + Square(d)
    ensures Cubes([a, b, c, d]) == Cube(a) + Cube(b) + Cube(c) + Cube(d)
    ensures Fourths([a, b, c, d]) == Fourth(a) + Fourth(b) + Fourth(c) + Fourth(d)
  {
    SumsAppend([], a);
    SumsAppend([a], b);
    SumsAppend([a, b], c);
    SumsAppend([a, b, c], d);
    assert [] + [a] == [a] && [a] + [b] == [a, b] && [a, b] + [c] == [a, b, c] && [a, b, c] + [d] == [a, b, c, d];
  }

  /** Equal values are exactly the samples with no variance, so the early return changes no result. */
  lemma FlatExactlyWhenNoVariance(values: seq<real>, s: real)
    requires |values| >= 2 && IsStandardDeviation(values, s)
    ensures AllEqual(values) <==> SampleVariance(values) == 0.0
    ensures Square(s) == SampleVariance(values)
  {
    var d, n := Deviations(values), |values| as real;
    var df := (|values| - 1) as real;
    if AllEqual(values) {
      SumOfEqual(values, values[0]);
      MeanTimesCount(Sum(values), n);
      assert Times(n, values[0]) == Times(values[0], n) && Times(n, Average(values)) == Times(Average(values), n);
      CancelRight(Average(values), values[0], n);
      SquaresZero(d);
      ZeroProduct(0.0, df);
      CancelRight(SampleVariance(values), 0.0, df);
      ZeroProduct(s, s);
    }
    if SampleVariance(values) == 0.0 {
      ZeroProduct(SampleVariance(values), df);
      SquaresZero(d);
      forall i | 0 <= i < |values|
        ensures values[i] == values[0]
      {
        assert d[i] == values[i] - Average(values) && d[0] == values[0] - Average(values);
      }
    }
  }

  /** A sample of at least two values has a skewness exactly when it has three and they are not all equal, and an excess
      kurtosis exactly when it has four and they are not all equal. */
  lemma MomentsExistExactly(values: seq<real>, s: real)
    requires |values| >= 2 && IsStandardDeviation(values, s)
    ensures RawSkewness(values, s).Some? <==> |values| >= 3 && exists i, j :: 0 <= i < j < |values| && values[i] != values[j]
    ensures RawExcessKurtosis(values, s).Some? <==> |values| >= 4 && exists i, j :: 0 <= i < j < |values| && values[i] != values[j]
  {
    FlatExactlyWhenNoVariance(values, s);
    if s == 0.0 {
      ZeroProduct(0.0, 0.0);
    }
    if i :| 0 <= i < |values| && values[i] != values[0] {
      assert values[0] != values[i];
    }
  }

  lemma {:induction false} SumOfEqual(values: seq<real>, v: real)
    requires forall i :: 0 <= i < |values| ==> values[i] == v
    ensures Sum(values) == Times(|values| as real, v)
  {
    var n := |values|;
    if n == 0 {
      ZeroProduct(0.0, v);
    } else {
      SumOfEqual(values[..n - 1], v);
      assert Times(n as real, v) == Times((n - 1) as real, v) + v;
    }
  }

  lemma {:induction false} SquaresZero(d: seq<real>)
    ensures Squares(d) == 0.0 <==> forall i :: 0 <= i < |d| ==> d[i] == 0.0
  {
    if |d| > 0 {
      var x := d[|d| - 1];
      SquaresZero(d[..|d| - 1]);
      assert forall i :: 0 <= i < |d| - 1 ==> d[i] == d[..|d| - 1][i];
      if x != 0.0 {
        SquarePositive(x);
      }
    }
  }
}
