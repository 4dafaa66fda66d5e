/** The Sharpe ratio bound of the denominator is exact: above the square root of two some sample fails the guard. */
module SharpeMomentsSharp {
  import opened Numbers
  import opened SharpeMoments

  /** Every sample of four or more returns with this Sharpe ratio passes the source's guard. */
  ghost predicate AlwaysPositive(sharpe: real) {
    forall values: seq<real>, s: real ::
      |values| >= 4 && s > 0.0 && IsStandardDeviation(values, s) && Ratio(Average(values), s) == sharpe ==>
        DenominatorTerm(sharpe, RawSkewness(values, s).value, RawExcessKurtosis(values, s).value) > 0.0
  }

  // ----- Samples given by their standardized values ------------------------------------------------------

  function Shift(z: seq<real>, offset: real): (values: seq<real>)
    ensures |values| == |z|
  {
    seq(|z|, i requires 0 <= i < |z| => z[i] + offset)
  }

  /** Values with sum zero and square sum n - 1, moved to the mean S, have deviation one and Sharpe ratio S. */
  lemma ShiftedSample(z: seq<real>, sharpe: real)
    requires |z| >= 4 && Sum(z) == 0.0 && Squares(z) == (|z| - 1) as real
    ensures var values := Shift(z, sharpe);
            && IsStandardDeviation(values, 1.0) && Ratio(Average(values), 1.0) == sharpe
            && Standardized(values, 1.0) == z
  {
    var values, n := Shift(z, sharpe), |z| as real;
    DeviationSums(values, sharpe, z);
    MeanTimesCount(Sum(values), n);
    assert Times(n, Average(values)) == Times(Average(values), n) && Times(n, sharpe) == Times(sharpe, n);
    CancelRight(Average(values), sharpe, n);
    assert Deviations(values) == z;
    UnitRatio(n - 1.0);
    if AllEqual(values) {
      assert forall i :: 0 <= i < |z| ==> values[i] == values[0] && z[i] == z[0];
      SumOfEqual(z, z[0]);
      ZeroFactor(n, z[0]);
      SquaresZero(z);
    }
    assert Standardized(values, 1.0) == z;
  }

  lemma UnitRatio(x: real)
    requires x != 0.0
    ensures Ratio(x, x) == 1.0 && Square(1.0) == 1.0
  {
  }

  lemma ZeroFactor(n: real, x: real)
    requires n > 0.0 && Times(n, x) == 0.0
    ensures x == 0.0
  {
  }

  /** n times the denominator is 1 - S * S / 2 plus the squared distance from a quadratic, S * S / 4 times over. */
  lemma DenominatorIsDistance(z: seq<real>, sharpe: real, c: real)
    requires |z| >= 4 && Sum(z) == 0.0 && Squares(z) == (|z| - 1) as real && Times(sharpe, c) == 2.0
    ensures var n := |z| as real;
            Times(n, DenominatorTerm(sharpe, Ratio(Cubes(z), n), Ratio(Fourths(z), n) - 3.0))
            == 1.0 - Square(sharpe) / 2.0 + Times(Square(sharpe) / 4.0, ResidualSquares(z, c, 1.0))
  {
    var n := |z| as real;
    ResidualsExpand(z, c, 1.0);
    DistanceAlgebra(n, sharpe, c, Cubes(z), Fourths(z), Ratio(Cubes(z), n), Ratio(Fourths(z), n));
  }

  lemma DistanceAlgebra(n: real, sharpe: real, c: real, cubes: real, fourths: real, g: real, k: real)
    requires Times(sharpe, c) == 2.0 && Times(g, n) == cubes && Times(k, n) == fourths
    ensures Times(n, DenominatorTerm(sharpe, g, k - 3.0)) ==
            1.0 - Square(sharpe) / 2.0 + Times(Square(sharpe) / 4.0, Expanded(fourths, cubes, n - 1.0, 0.0, n, c, 1.0))
  {
    var v := Square(sharpe);
    assert Times(n, DenominatorTerm(sharpe, g, k - 3.0)) == n - Times(cubes, sharpe) + Times(v, fourths - n) / 4.0;
    assert Times(v, Times(c, cubes)) == 2.0 * Times(cubes, sharpe);
    assert Times(v, Square(c)) == 4.0;
    assert Times(v, Times(Square(c), n - 1.0)) == 4.0 * (n - 1.0);
    assert Expanded(fourths, cubes, n - 1.0, 0.0, n, c, 1.0)
        == fourths - 2.0 * Times(c, cubes) + Times(Square(c), n - 1.0) - 2.0 * (n - 1.0) + n;
  }

  // ----- A value close to a root of t * t - c * t - 1 ----------------------------------------------------------

  /** The quadratic with roots t and -1 / t when t - 1 / t is c. */
  function Curve(t: real, c: real): real {
    Residual(t, c, 1.0)
  }

  lemma CurveStep(t: real, e: real, c: real)
    ensures Curve(t + e, c) == Curve(t, c) + Times(e, 2.0 * t - c + e)
  {
  }

  /** Walking up a grid of width w until the sign changes. */
  lemma {:induction false} NearRootFrom(c: real, w: real, t: real, steps: nat) returns (root: real)
    requires -1.5 <= c <= 1.5 && 0.0 < w && 0.5 <= t && t + Times(steps as real, w) == 2.5 && Curve(t, c) <= 0.0
    ensures 0.5 <= root <= 2.5 && -6.5 * w <= Curve(root, c) <= 0.0
    decreases steps
  {
    if steps == 0 {
      ZeroProduct(0.0, w);
      CurveAtEnd(c);
    } else {
      var next := t + w;
      Distribute((steps - 1) as real, 1.0, w);
      ProductNonNegative((steps - 1) as real, w);
      if Curve(next, c) > 0.0 {
        CurveStep(t, w, c);
        ProductMonotone(w, 2.0 * t - c + w, 6.5);
        root := t;
      } else {
        root := NearRootFrom(c, w, next, steps - 1);
      }
    }
  }

  lemma CurveAtEnd(c: real)
    requires -1.5 <= c <= 1.5
    ensures Curve(2.5, c) > 0.0 && Curve(0.5, c) <= 0.0
  {
  }

  lemma NearRoot(c: real, a: nat) returns (root: real)
    requires -1.5 <= c <= 1.5 && a > 0
    ensures 0.5 <= root <= 2.5 && -Ratio(13.0, a as real) <= Curve(root, c) <= 0.0
  {
    var w := Ratio(2.0, a as real);
    CurveAtEnd(c);
    GridWidth(a as real);
    root := NearRootFrom(c, w, 0.5, a);
  }

  lemma GridWidth(a: real)
    requires a > 0.0
    ensures Ratio(2.0, a) > 0.0 && Times(a, Ratio(2.0, a)) == 2.0 && 6.5 * Ratio(2.0, a) == Ratio(13.0, a)
  {
  }

  // ----- Two clusters of pairs ------------------------------------------------------------------------------------

  /** count pairs x + k, x - k. */
  function Pairs(x: real, k: real, count: nat): (z: seq<real>)
    ensures |z| == 2 * count
  {
    if count == 0 then [] else Pairs(x, k, count - 1) + [x + k] + [x - k]
  }

  lemma ResidualsAppend(z: seq<real>, x: real, c: real)
    ensures ResidualSquares(z + [x], c, 1.0) == ResidualSquares(z, c, 1.0) + Square(Curve(x, c))
  {
    assert (z + [x])[..|z|] == z;
  }

  lemma OnePair(z: seq<real>, x: real, k: real, c: real, bound: real)
    requires Square(Curve(x + k, c)) <= bound && Square(Curve(x - k, c)) <= bound
    ensures var all := z + [x + k] + [x - k];
            && Sum(all) == Sum(z) + 2.0 * x && Squares(all) == Squares(z) + 2.0 * (Square(x) + Square(k))
            && ResidualSquares(all, c, 1.0) <= ResidualSquares(z, c, 1.0) + 2.0 * bound
  {
    SumsAppend(z, x + k);
    SumsAppend(z + [x + k], x - k);
    ResidualsAppend(z, x + k, c);
    ResidualsAppend(z + [x + k], x - k, c);
    assert Square(x + k) + Square(x - k) == 2.0 * (Square(x) + Square(k));
  }

  lemma TwoMore(m: real, x: real)
    ensures Times(m + 2.0, x) == Times(m, x) + 2.0 * x
  {
  }

  /** What appending count pairs adds to the sum, the squares and, at most, to the residuals. */
  lemma {:induction false} PairsAppended(z: seq<real>, x: real, k: real, count: nat, c: real, bound: real)
    requires Square(Curve(x + k, c)) <= bound && Square(Curve(x - k, c)) <= bound
    ensures var all, m := z + Pairs(x, k, count), 2.0 * count as real;
            && Sum(all) == Sum(z) + Times(m, x) && Squares(all) == Squares(z) + Times(m, Square(x) + Square(k))
            && ResidualSquares(all, c, 1.0) <= ResidualSquares(z, c, 1.0) + Times(m, bound)
  {
    if count == 0 {
      assert z + Pairs(x, k, 0) == z;
      ZeroProduct(0.0, x);
      ZeroProduct(0.0, Square(x) + Square(k));
      ZeroProduct(0.0, bound);
    } else {
      var fewer, m := z + Pairs(x, k, count - 1), 2.0 * (count - 1) as real;
      PairsAppended(z, x, k, count - 1, c, bound);
      assert z + Pairs(x, k, count) == fewer + [x + k] + [x - k];
      OnePair(fewer, x, k, c, bound);
      TwoMore(m, x);
      TwoMore(m, Square(x) + Square(k));
      TwoMore(m, bound);
    }
  }

  /** a pairs around x, b pairs around y and y once more. */
  function Clusters(x: real, a: nat, y: real, b: nat, k: real): (z: seq<real>)
    ensures |z| == 2 * a + 2 * b + 1
  {
    [] + Pairs(x, k, a) + Pairs(y, k, b) + [y]
  }

  lemma ClustersMoments(x: real, a: nat, y: real, b: nat, k: real, c: real, bound: real)
    requires Square(Curve(x + k, c)) <= bound && Square(Curve(x - k, c)) <= bound
    requires Square(Curve(y + k, c)) <= bound && Square(Curve(y - k, c)) <= bound && Square(Curve(y, c)) <= bound
    ensures var z, m, l := Clusters(x, a, y, b, k), 2.0 * a as real, 2.0 * b as real;
            && Sum(z) == Times(m, x) + Times(l + 1.0, y)
            && Squares(z) == Times(m, Square(x)) + Times(l + 1.0, Square(y)) + Times(m + l, Square(k))
            && ResidualSquares(z, c, 1.0) <= Times(m + l + 1.0, bound)
  {
    var m, l := 2.0 * a as real, 2.0 * b as real;
    var first := [] + Pairs(x, k, a);
    var second := first + Pairs(y, k, b);
    PairsAppended([], x, k, a, c, bound);
    PairsAppended(first, y, k, b, c, bound);
    SumsAppend(second, y);
    ResidualsAppend(second, y, c);
    Distribute(l, 1.0, y);
    Distribute(l, 1.0, Square(y));
    Distribute(Square(x), Square(k), m);
    Distribute(Square(y), Square(k), l);
    Distribute(m, l, Square(k));
    Distribute(m, l, bound);
    Distribute(m + l, 1.0, bound);
  }

  // ----- Placing the clusters so that the moments are exact ---------------------------------------------------------

  lemma SquareOfProduct(t: real, u: real)
    ensures Square(Times(t, u)) == Times(Square(t), Square(u)) == Square(-Times(t, u))
  {
  }

  lemma ScaledSquares(m: real, x: real, p: real, y: real, s: real)
    ensures Times(m, Times(s, x)) + Times(p, Times(s, y)) == Times(s, Times(m, x) + Times(p, y))
  {
  }

  lemma SquaredAway(x: real, y: real, d: real, r: real)
    requires Times(x, d) == r
    ensures Times(Times(Square(x), y), Square(d)) == Times(Square(r), y)
  {
    SquareOfProduct(x, d);
  }

  /** For m values at t * u and p at -t * v, all but one of them k off: with t = 2N / (N + E) and
      k = (E - N) / (N + E) the square sum is N whatever the square sum E at t = 1. */
  lemma ExactSquares(m: real, u: real, p: real, v: real, E: real, N: real, t: real, k: real)
    requires E == Times(m, Square(u)) + Times(p, Square(v)) && N + E > 0.0
    requires Times(t, N + E) == 2.0 * N && Times(k, N + E) == E - N
    ensures Times(m, Square(Times(t, u))) + Times(p, Square(-Times(t, v))) + Times(N, Square(k)) == N
  {
    var d := N + E;
    SquareOfProduct(t, u);
    SquareOfProduct(t, v);
    ScaledSquares(m, Square(u), p, Square(v), Square(t));
    SquaredAway(t, E, d, 2.0 * N);
    SquaredAway(k, N, d, E - N);
    assert Times(Square(2.0 * N), E) + Times(Square(E - N), N) == Times(N, Square(d));
    SquarePositive(d);
    assert Times(N, Square(k)) == Times(Square(k), N);
    Distribute(Times(Square(t), E), Times(N, Square(k)), Square(d));
    CancelRight(Times(Square(t), E) + Times(N, Square(k)), N, Square(d));
  }

  lemma AbsProduct(x: real, y: real, r: real)
    requires Abs(y) <= r
    ensures Abs(Times(x, y)) <= Times(Abs(x), r)
  {
    if x >= 0.0 {
      ProductMonotone(x, y, r);
      ProductMonotone(x, -r, y);
      assert Times(x, -r) == -Times(x, r);
    } else {
      ProductMonotone(-x, y, r);
      ProductMonotone(-x, -r, y);
      assert Times(-x, -r) == -Times(-x, r) && Times(x, y) == -Times(-x, y);
    }
  }

  /** If x * d is at most r and d at least m then x is at most r / m. */
  lemma SmallRatio(x: real, d: real, r: real, m: real)
    requires 0.0 < m <= d && r >= 0.0 && Abs(Times(x, d)) <= r
    ensures Abs(x) <= Ratio(r, m)
  {
    assert Abs(Times(x, d)) == Times(Abs(x), d);
    ProductMonotone(Abs(x), m, d);
    OrderRight(Ratio(r, m), Abs(x), m);
  }

  /** root is close to a root of the quadratic; p is a whole number next to m * root * root. */
  predicate Placed(c: real, root: real, m: real, p: real) {
    && -1.5 <= c <= 1.5 && 0.5 <= root <= 2.5 && m >= 40.0 && p >= 1.0
    && Abs(Curve(root, c)) <= Ratio(26.0, m) && Abs(p - Times(m, Square(root))) <= 1.0
  }

  lemma BalancedClusters(root: real, m: real, p: real, u: real, v: real)
    requires root > 0.0 && Times(u, Times(m, root)) == p && Times(v, root) == 1.0
    ensures Times(m, u) == Times(p, v)
  {
    assert Times(Times(m, u), root) == Times(u, Times(m, root));
    assert Times(Times(p, v), root) == Times(p, Times(v, root));
    CancelRight(Times(m, u), Times(p, v), root);
  }

  lemma ScaledGap(root: real, m: real, p: real, u: real, v: real, E: real, x: real)
    requires Times(u, Times(m, root)) == p && Times(v, root) == 1.0 && x == Times(m, Square(root))
    requires E == Times(m, Square(u)) + Times(p, Square(v))
    ensures Times(E - (m + p - 1.0), x) == Times(m + p, p - x) + x
  {
    assert Times(Times(m, Square(u)), x) == Square(Times(u, Times(m, root)));
    assert Times(Times(p, Square(v)), x) == Times(Times(p, m), Square(Times(v, root)));
    Distribute(Times(m, Square(u)), Times(p, Square(v)), x);
    Distribute(E, -(m + p - 1.0), x);
  }

  /** The square sum at t = 1 differs from m + p - 1 by at most seven. */
  lemma NearlyExact(c: real, root: real, m: real, p: real, u: real, v: real, E: real)
    requires Placed(c, root, m, p) && Times(u, Times(m, root)) == p && Times(v, root) == 1.0
    requires E == Times(m, Square(u)) + Times(p, Square(v))
    ensures E >= 0.0 && Abs(E - (m + p - 1.0)) <= 7.0
  {
    var x := Times(m, Square(root));
    RootSquare(root);
    ProductMonotone(m, 0.25, Square(root));
    ProductNonNegative(m, Square(u));
    ProductNonNegative(p, Square(v));
    ScaledGap(root, m, p, u, v, E, x);
    AbsProduct(m + p, p - x, 1.0);
    SmallRatio(E - (m + p - 1.0), x, m + p + x, x);
    SevenTimes(m, p, x);
  }

  lemma RootSquare(root: real)
    requires 0.5 <= root <= 2.5
    ensures 0.25 <= Square(root) <= 6.25
  {
    ProductMonotone(root, 0.5, root);
    ProductMonotone(0.5, 0.5, root);
    ProductMonotone(root, root, 2.5);
    ProductMonotone(2.5, root, 2.5);
  }

  lemma SevenTimes(m: real, p: real, x: real)
    requires x >= 10.0 && m <= 4.0 * x && p <= x + 1.0
    ensures Ratio(m + p + x, x) <= 7.0
  {
    OrderRight(7.0, Ratio(m + p + x, x), x);
  }

  lemma SmallOffset(m: real, p: real, E: real, k: real)
    requires m >= 40.0 && p >= 1.0 && E >= 0.0 && Abs(E - (m + p - 1.0)) <= 7.0
    requires Times(k, m + p - 1.0 + E) == E - (m + p - 1.0)
    ensures Abs(k) <= 7.0 * Ratio(1.0, m)
  {
    SmallRatio(k, m + p - 1.0 + E, 7.0, m);
    SmallWeights(m);
  }

  lemma CloseCentre(c: real, root: real, m: real, p: real, u: real)
    requires Placed(c, root, m, p) && Times(u, Times(m, root)) == p
    ensures Abs(u - root) <= 2.0 * Ratio(1.0, m)
  {
    ProductMonotone(m, 0.5, root);
    Distribute(u, -root, Times(m, root));
    assert Times(-root, Times(m, root)) == -Times(m, Square(root));
    SmallRatio(u - root, Times(m, root), 1.0, Times(0.5, m));
    HalfRatio(m);
  }

  lemma OneLess(k: real, x: real)
    ensures Times(1.0 - k, x) == x - Times(x, k)
  {
  }

  /** Members of the first cluster stay within 30 / m of the positive root. */
  lemma CloseMembers(root: real, m: real, u: real, t: real, k: real)
    requires root <= 2.5 && m >= 40.0 && t == 1.0 - k && Abs(k) <= 7.0 * Ratio(1.0, m)
    requires 0.5 <= root && Abs(u - root) <= 2.0 * Ratio(1.0, m)
    ensures Abs(Times(t, u) + k - root) <= Ratio(30.0, m) && Abs(Times(t, u) - k - root) <= Ratio(30.0, m)
  {
    var w := Ratio(1.0, m);
    SmallWeights(m);
    AbsProduct(u, k, 7.0 * w);
    ProductMonotone(7.0 * w, Abs(u), 3.0);
    OneLess(k, u);
  }

  /** And those of the second within 30 / m of the negative one. */
  lemma CloseOthers(m: real, v: real, t: real, k: real)
    requires m >= 40.0 && t == 1.0 - k && Abs(k) <= 7.0 * Ratio(1.0, m) && 0.0 <= v <= 2.0
    ensures Abs(-Times(t, v) + k + v) <= Ratio(30.0, m) && Abs(-Times(t, v) - k + v) <= Ratio(30.0, m)
    ensures Abs(-Times(t, v) + v) <= Ratio(30.0, m)
  {
    var w := Ratio(1.0, m);
    SmallWeights(m);
    AbsProduct(v, k, 7.0 * w);
    ProductMonotone(7.0 * w, Abs(v), 2.0);
    OneLess(k, v);
  }

  lemma InverseRange(root: real, v: real)
    requires 0.5 <= root && Times(v, root) == 1.0
    ensures 0.0 <= v <= 2.0
  {
    assert Times(2.0, root) >= Times(v, root) >= Times(0.0, root);
    OrderRight(2.0, v, root);
    OrderRight(v, 0.0, root);
  }

  lemma SmallWeights(m: real)
    requires m >= 40.0
    ensures 0.0 < Ratio(1.0, m) <= 0.025
    ensures Ratio(7.0, m) == 7.0 * Ratio(1.0, m) && Ratio(30.0, m) == 30.0 * Ratio(1.0, m)
    ensures Ratio(26.0, m) == 26.0 * Ratio(1.0, m) && Ratio(300.0, m) == 300.0 * Ratio(1.0, m)
  {
  }

  lemma HalfRatio(m: real)
    requires m > 0.0
    ensures Ratio(1.0, Times(0.5, m)) == 2.0 * Ratio(1.0, m)
  {
  }

  lemma SmallStep(slope: real, e: real, small: real, steep: real)
    requires Abs(e) <= small && Abs(slope) <= steep
    ensures Abs(Times(e, slope)) <= Times(small, steep)
  {
    AbsProduct(e, slope, steep);
    ProductMonotone(steep, Abs(e), small);
  }

  /** Near the positive root the quadratic is small. */
  lemma SmallAtRoot(c: real, root: real, m: real, e: real)
    requires -1.5 <= c <= 1.5 && 0.5 <= root <= 2.5 && m >= 40.0 && Abs(Curve(root, c)) <= Ratio(26.0, m)
    requires Abs(e) <= Ratio(30.0, m)
    ensures Square(Curve(root + e, c)) <= Square(Ratio(300.0, m))
  {
    SmallWeights(m);
    CurveStep(root, e, c);
    SmallStep(2.0 * root - c + e, e, Ratio(30.0, m), 7.5);
    SquareOfSmall(Curve(root + e, c), Ratio(300.0, m));
  }

  lemma SquareOfSmall(x: real, r: real)
    requires Abs(x) <= r
    ensures Square(x) <= Square(r)
  {
    ProductMonotone(Abs(x), Abs(x), r);
    ProductMonotone(r, Abs(x), r);
    assert Square(x) == Times(Abs(x), Abs(x));
  }

  /** And near the negative one. */
  lemma SmallAtOtherRoot(c: real, root: real, v: real, m: real, e: real)
    requires -1.5 <= c <= 1.5 && 0.5 <= root <= 2.5 && m >= 40.0 && Abs(Curve(root, c)) <= Ratio(26.0, m)
    requires Times(v, root) == 1.0 && 0.0 <= v <= 2.0 && Abs(e) <= Ratio(30.0, m)
    ensures Square(Curve(e - v, c)) <= Square(Ratio(300.0, m))
  {
    SmallWeights(m);
    CurveStep(-v, e, c);
    MirroredCurve(c, root, v);
    AbsProduct(Square(v), Curve(root, c), Ratio(26.0, m));
    ProductMonotone(2.0, v, 2.0);
    ProductMonotone(v, v, 2.0);
    ProductMonotone(Ratio(26.0, m), Square(v), 4.0);
    SmallStep(2.0 * -v - c + e, e, Ratio(30.0, m), 6.25);
    SquareOfSmall(Curve(e - v, c), Ratio(300.0, m));
  }

  lemma MirroredCurve(c: real, root: real, v: real)
    requires Times(v, root) == 1.0
    ensures Curve(-v, c) == -Times(Square(v), Curve(root, c))
  {
    assert Times(Square(v), Square(root)) == Square(Times(v, root));
    assert Times(Square(v), Times(c, root)) == Times(c, v);
  }

  /** Exactly standardized values whose distance from the quadratic is at most 720000 / m. */
  lemma CloseSample(c: real, a: nat) returns (z: seq<real>)
    requires -1.5 <= c <= 1.5 && a >= 20
    ensures |z| >= 4 && Sum(z) == 0.0 && Squares(z) == (|z| - 1) as real
    ensures ResidualSquares(z, c, 1.0) <= Ratio(720000.0, 2.0 * a as real)
  {
    var root := NearRoot(c, a);
    var m := 2.0 * a as real;
    DoubleRatio(a as real);
    var half := Times(a as real, Square(root));
    RootSquare(root);
    ProductMonotone(a as real, 0.25, Square(root));
    ProductMonotone(a as real, Square(root), 6.25);
    var b: nat := half.Floor;
    var p := 2.0 * b as real + 1.0;
    assert Times(m, Square(root)) == 2.0 * half;
    ProductMonotone(m, 0.5, root);
    var u, v := Ratio(p, Times(m, root)), Ratio(1.0, root);
    z := Placement(c, root, a, b, u, v);
    Few(m, p);
  }

  lemma DoubleRatio(a: real)
    requires a > 0.0
    ensures Ratio(26.0, 2.0 * a) == Ratio(13.0, a)
  {
  }

  lemma Few(m: real, p: real)
    requires m >= 40.0 && p <= 6.25 * m + 1.0
    ensures Times(m + p, Square(Ratio(300.0, m))) <= Ratio(720000.0, m)
  {
    var r := Square(Ratio(300.0, m));
    ProductMonotone(r, m + p, 8.0 * m);
    assert Times(Times(m, r), m) == 90000.0;
    assert Times(8.0 * m, r) == 8.0 * Times(m, r);
    CancelRight(8.0 * Times(m, r), Ratio(720000.0, m), m);
  }

  /** Both clusters' members have small residuals. */
  lemma SmallResiduals(c: real, root: real, m: real, p: real, u: real, v: real, t: real, k: real)
    requires Placed(c, root, m, p) && Times(u, Times(m, root)) == p && Times(v, root) == 1.0
    requires t == 1.0 - k && Abs(k) <= 7.0 * Ratio(1.0, m)
    ensures var x, y, bound := Times(t, u), -Times(t, v), Square(Ratio(300.0, m));
            && Square(Curve(x + k, c)) <= bound && Square(Curve(x - k, c)) <= bound
            && Square(Curve(y + k, c)) <= bound && Square(Curve(y - k, c)) <= bound && Square(Curve(y, c)) <= bound
  {
    var x, y := Times(t, u), -Times(t, v);
    CloseCentre(c, root, m, p, u);
    CloseMembers(root, m, u, t, k);
    InverseRange(root, v);
    CloseOthers(m, v, t, k);
    SmallAtRoot(c, root, m, x + k - root);
    SmallAtRoot(c, root, m, x - k - root);
    SmallAtOtherRoot(c, root, v, m, y + k + v);
    SmallAtOtherRoot(c, root, v, m, y - k + v);
    SmallAtOtherRoot(c, root, v, m, y + v);
    assert root + (x + k - root) == x + k && root + (x - k - root) == x - k;
    assert y + k + v - v == y + k && y - k + v - v == y - k && y + v - v == y;
  }

  lemma Placement(c: real, root: real, a: nat, b: nat, u: real, v: real) returns (z: seq<real>)
    requires a >= 20
    requires var m, p := 2.0 * a as real, 2.0 * b as real + 1.0;
             Placed(c, root, m, p) && Times(u, Times(m, root)) == p && Times(v, root) == 1.0
    ensures |z| >= 4 && Sum(z) == 0.0 && Squares(z) == (|z| - 1) as real
    ensures var m, p := 2.0 * a as real, 2.0 * b as real + 1.0;
            ResidualSquares(z, c, 1.0) <= Times(m + p, Square(Ratio(300.0, m)))
  {
    var m, p := 2.0 * a as real, 2.0 * b as real + 1.0;
    var N, E := m + p - 1.0, Times(m, Square(u)) + Times(p, Square(v));
    NearlyExact(c, root, m, p, u, v, E);
    BalancedClusters(root, m, p, u, v);
    var t, k := Ratio(2.0 * N, N + E), Ratio(E - N, N + E);
    Complements(N, E, t, k);
    SmallOffset(m, p, E, k);
    SmallResiduals(c, root, m, p, u, v, t, k);
    var x, y := Times(t, u), -Times(t, v);
    ClustersMoments(x, a, y, b, k, c, Square(Ratio(300.0, m)));
    ExactSquares(m, u, p, v, E, N, t, k);
    ZeroTotal(m, u, p, v, t);
    z := Clusters(x, a, y, b, k);
  }

  lemma Complements(N: real, E: real, t: real, k: real)
    requires N + E > 0.0 && Times(t, N + E) == 2.0 * N && Times(k, N + E) == E - N
    ensures t == 1.0 - k
  {
    Distribute(t, k, N + E);
    CancelRight(t + k, 1.0, N + E);
  }

  lemma ZeroTotal(m: real, u: real, p: real, v: real, t: real)
    requires Times(m, u) == Times(p, v)
    ensures Times(m, Times(t, u)) + Times(p, -Times(t, v)) == 0.0
  {
    assert Times(m, Times(t, u)) == Times(t, Times(m, u)) && Times(p, -Times(t, v)) == -Times(t, Times(p, v));
  }

  /** Standardized values close enough to the quadratic make a sample with a negative denominator. */
  lemma CloseSampleFails(z: seq<real>, sharpe: real, c: real)
    requires |z| >= 4 && Sum(z) == 0.0 && Squares(z) == (|z| - 1) as real
    requires Square(sharpe) > 2.0 && Times(c, sharpe) == 2.0 && Times(Square(sharpe), Square(c)) == 4.0
    requires ResidualSquares(z, c, 1.0) < 2.0 - Square(c)
    ensures var values := Shift(z, sharpe);
            && IsStandardDeviation(values, 1.0) && Ratio(Average(values), 1.0) == sharpe
            && DenominatorTerm(sharpe, RawSkewness(values, 1.0).value, RawExcessKurtosis(values, 1.0).value) < 0.0
  {
    var n := |z| as real;
    var d := DenominatorTerm(sharpe, Ratio(Cubes(z), n), Ratio(Fourths(z), n) - 3.0);
    ShiftedSample(z, sharpe);
    assert Times(sharpe, c) == 2.0;
    DenominatorIsDistance(z, sharpe, c);
    NegativeDistance(sharpe, c, ResidualSquares(z, c, 1.0));
    NegativeFactor(n, d);
  }

  lemma NegativeFactor(n: real, d: real)
    requires n > 0.0 && Times(n, d) < 0.0
    ensures d < 0.0
  {
    if d >= 0.0 {
      ProductNonNegative(n, d);
    }
  }

  /** Above the bound some sample has a negative denominator. */
  lemma SteepSharpeFails(sharpe: real) returns (values: seq<real>)
    requires Square(sharpe) > 2.0
    ensures |values| >= 4 && IsStandardDeviation(values, 1.0) && Ratio(Average(values), 1.0) == sharpe
    ensures DenominatorTerm(sharpe, RawSkewness(values, 1.0).value, RawExcessKurtosis(values, 1.0).value) < 0.0
  {
    var c := Ratio(2.0, sharpe);
    ShortSlope(sharpe, c);
    var room := 2.0 - Square(c);
    var a: nat := Ratio(720000.0, room).Floor + 20;
    EnoughPairs(room, a);
    var z := CloseSample(c, a);
    CloseSampleFails(z, sharpe, c);
    values := Shift(z, sharpe);
  }

  lemma ShortSlope(sharpe: real, c: real)
    requires Square(sharpe) > 2.0 && Times(c, sharpe) == 2.0
    ensures Square(c) < 2.0 && -1.5 <= c <= 1.5 && Times(Square(sharpe), Square(c)) == 4.0
  {
    assert Times(Square(sharpe), Square(c)) == Square(Times(c, sharpe));
    if Square(c) >= 2.0 {
      ProductMonotone(Square(sharpe), 2.0, Square(c));
    }
    if c > 1.5 {
      ProductMonotone(c, 1.5, c);
    }
    if c < -1.5 {
      ProductMonotone(-c, 1.5, -c);
    }
  }

  lemma EnoughPairs(room: real, a: nat)
    requires room > 0.0 && a as real > Ratio(720000.0, room)
    ensures a > 0 && Ratio(720000.0, 2.0 * a as real) < room
  {
  }

  lemma NegativeDistance(sharpe: real, c: real, residual: real)
    requires Times(Square(sharpe), Square(c)) == 4.0 && Square(sharpe) > 2.0 && residual < 2.0 - Square(c)
    ensures 1.0 - Square(sharpe) / 2.0 + Times(Square(sharpe) / 4.0, residual) < 0.0
  {
    var q := Square(sharpe) / 4.0;
    ProductPositive(q, 2.0 - Square(c) - residual);
    assert Times(q, 2.0 - Square(c) - residual) == Square(sharpe) / 2.0 - 1.0 - Times(q, residual);
  }

  /** The denominator is positive for every sample with Sharpe ratio S exactly when S * S <= 2. */
  lemma PositiveExactlyUpToRootTwo(sharpe: real)
    ensures AlwaysPositive(sharpe) <==> Square(sharpe) <= 2.0
  {
    if Square(sharpe) > 2.0 {
      var values := SteepSharpeFails(sharpe);
    } else {
      forall values: seq<real>, s: real |
        |values| >= 4 && s > 0.0 && IsStandardDeviation(values, s) && Ratio(Average(values), s) == sharpe
        ensures DenominatorTerm(sharpe, RawSkewness(values, s).value, RawExcessKurtosis(values, s).value) > 0.0
      {
        var n := |values| as real;
        ProductMonotone(2.0 * n - 1.0, Square(sharpe), 2.0);
        DenominatorPositive(values, s, sharpe);
      }
    }
  }
}
