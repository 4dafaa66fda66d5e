/** Sample autocorrelations and Lo's variance inflation factor with Bartlett weights. */
module LoInflation {
  import opened Numbers

  datatype Coefficient = Coefficient(lag: nat, coefficient: Option<real>)

  // ----- The source's computations ------------------------------------------------------------

  /** The sum of d[i] * d[i - lag] over lag <= i < hi. */
  function Lagged(d: seq<real>, lag: nat, hi: nat): real
    requires hi <= |d|
  {
    if hi <= lag then 0.0 else Lagged(d, lag, hi - 1) + Times(d[hi - 1], d[hi - 1 - lag])
  }

  function Autocovariance(d: seq<real>, lag: nat): real {
    Lagged(d, lag, |d|)
  }

  /** The autocorrelation before it is rounded to six digits. */
  function RawAutocorrelation(samples: seq<real>, lag: nat): Option<real> {
    if |samples| <= lag then None
    else
      var d := Deviations(samples);
      if Autocovariance(d, 0) == 0.0 then None
      else Some(Ratio(Autocovariance(d, lag), Autocovariance(d, 0)))
  }

  function Rounded(c: Option<real>): Option<real> {
    match c
    case None => None
    case Some(x) => Some(ToFixed6(x))
  }

  method AutocorrelationAtLag(samples: seq<real>, lag: nat) returns (r: Option<real>)
    ensures r == Rounded(RawAutocorrelation(samples, lag))
  {
    if |samples| <= lag {
      return None;
    }
    var mean := Average(samples);
    var denominator := Autocovariance(Deviations(samples), 0);
    if denominator == 0.0 {
      return None;
    }
    ghost var d := Deviations(samples);
    var numerator := 0.0;
    for index := lag to |samples|
      invariant numerator == Lagged(d, lag, index)
    {
      var x, y := samples[index] - mean, samples[index - lag] - mean;
      LaggedNext(d, lag, index, x, y);
      numerator := numerator + x * y;
    }
    return Some(ToFixed6(Ratio(numerator, denominator)));
  }

  lemma LaggedNext(d: seq<real>, lag: nat, i: nat, x: real, y: real)
    requires lag <= i < |d| && x == d[i] && y == d[i - lag]
    ensures Lagged(d, lag, i + 1) == Lagged(d, lag, i) + x * y
  {
  }

  function LagCount(samples: seq<real>, maxLag: nat): nat {
    if |samples| == 0 then 0 else if maxLag < |samples| then maxLag else |samples| - 1
  }

  function RawCoefficients(samples: seq<real>, maxLag: nat): (cs: seq<Coefficient>)
    ensures |cs| == LagCount(samples, maxLag)
  {
    seq(LagCount(samples, maxLag), i requires i >= 0 => Coefficient(i + 1, RawAutocorrelation(samples, i + 1)))
  }

  function RoundAll(cs: seq<Coefficient>): (rs: seq<Coefficient>)
    ensures |rs| == |cs|
  {
    seq(|cs|, i requires 0 <= i < |cs| => Coefficient(cs[i].lag, Rounded(cs[i].coefficient)))
  }

  method SummarizeAutocorrelation(samples: seq<real>, maxLag: nat) returns (coefficients: seq<Coefficient>)
    ensures coefficients == RoundAll(RawCoefficients(samples, maxLag))
  {
    coefficients := [];
    if maxLag == 0 {
      return;
    }
    var bounded := LagCount(samples, maxLag);
    for lag := 1 to bounded + 1
      invariant coefficients == RoundAll(RawCoefficients(samples, maxLag))[..lag - 1]
    {
      var c := AutocorrelationAtLag(samples, lag);
      coefficients := coefficients + [Coefficient(lag, c)];
    }
  }

  function Finite(cs: seq<Coefficient>): (fs: seq<(nat, real)>)
    ensures |fs| <= |cs|
  {
    if |cs| == 0 then []
    else
      var last := cs[|cs| - 1];
      Finite(cs[..|cs| - 1]) + if last.coefficient.Some? then [(last.lag, last.coefficient.value)] else []
  }

  function Weight(lag: nat, q: real): real
    requires q > 0.0
  {
    1.0 - MinReal(lag as real, q) / q
  }

  function WeightedSum(fs: seq<(nat, real)>, q: real): real
    requires q > 0.0
  {
    if |fs| == 0 then 0.0
    else
      var (lag, c) := fs[|fs| - 1];
      Plus(WeightedSum(fs[..|fs| - 1], q), Weight(lag, q), c)
  }

  function Plus(sum: real, weight: real, c: real): real {
    sum + weight * c
  }

  /** The factor the source divides by before taking the square root; `None` is its `null`. */
  function LoVarianceInflation(cs: seq<Coefficient>, annualization: Option<real>): Option<real>
    requires annualization.Some? ==> annualization.value > 0.0
  {
    var fs := Finite(cs);
    if |fs| == 0 then None
    else
      var q := if annualization.Some? then annualization.value else (|fs| + 1) as real;
      Some(Inflation(fs, q))
  }

  function Inflation(fs: seq<(nat, real)>, q: real): real
    requires q > 0.0
  {
    1.0 + 2.0 * WeightedSum(fs, q)
  }

  // ----- Windowed sums ------------------------------------------------------------------------

  /** d extended by zeros on both sides. */
  function At(d: seq<real>, i: int): real {
    if 0 <= i < |d| then d[i] else 0.0
  }

  /** The sum of the q consecutive values ending at t. */
  function Window(d: seq<real>, q: nat, t: int): real {
    if q == 0 then 0.0 else Window(d, q - 1, t) + At(d, t - (q - 1))
  }

  /** The sum of the squared q-windows ending before n. */
  function Energy(d: seq<real>, q: nat, n: nat): (e: real)
    ensures e >= 0.0
  {
    if n == 0 then 0.0 else Energy(d, q, n - 1) + Square(Window(d, q, n - 1))
  }

  function Shifted(d: seq<real>, j: nat, q: nat, n: nat): real {
    if n == 0 then 0.0 else Shifted(d, j, q, n - 1) + Times(At(d, n - 1 - j), At(d, n - 1 - q))
  }

  function WindowShifted(d: seq<real>, p: nat, q: nat, n: nat): real {
    if n == 0 then 0.0 else WindowShifted(d, p, q, n - 1) + Times(Window(d, p, n - 1), At(d, n - 1 - q))
  }

  function LagSum(d: seq<real>, q: nat): real {
    if q == 0 then 0.0 else LagSum(d, q - 1) + Autocovariance(d, q)
  }

  /** The sum of (q - k) * autocovariance(k) over 1 <= k <= m. */
  function Triangle(d: seq<real>, q: real, m: nat): real {
    if m == 0 then 0.0 else Triangle(d, q, m - 1) + Times(q - m as real, Autocovariance(d, m))
  }

  lemma {:induction false} ShiftedIsAutocovariance(d: seq<real>, j: nat, q: nat, n: nat)
    requires j <= q
    ensures Shifted(d, j, q, n) ==
            Lagged(d, q - j, if n <= j then 0 else if n - j <= |d| then n - j else |d|)
  {
    if n > 0 {
      ShiftedIsAutocovariance(d, j, q, n - 1);
    }
  }

  lemma {:induction false} WindowShiftedStep(d: seq<real>, p: nat, q: nat, n: nat)
    ensures WindowShifted(d, p + 1, q, n) == WindowShifted(d, p, q, n) + Shifted(d, p, q, n)
  {
    if n > 0 {
      WindowShiftedStep(d, p, q, n - 1);
      var w, a, b := Window(d, p, n - 1), At(d, n - 1 - p), At(d, n - 1 - q);
      assert Window(d, p + 1, n - 1) == w + a;
      Distribute(w, a, b);
    }
  }

  lemma {:induction false} WindowShiftedIsLagSum(d: seq<real>, p: nat, q: nat, n: nat)
    requires p <= q && n >= |d| + q
    ensures WindowShifted(d, p, q, n) == LagSum(d, q) - LagSum(d, q - p)
  {
    if p == 0 {
      WindowShiftedZero(d, q, n);
    } else {
      WindowShiftedIsLagSum(d, p - 1, q, n);
      WindowShiftedStep(d, p - 1, q, n);
      ShiftedIsAutocovariance(d, p - 1, q, n);
    }
  }

  lemma {:induction false} WindowShiftedZero(d: seq<real>, q: nat, n: nat)
    ensures WindowShifted(d, 0, q, n) == 0.0
  {
    if n > 0 {
      WindowShiftedZero(d, q, n - 1);
    }
  }

  lemma SquareOfSum(x: real, y: real)
    ensures Square(x + y) == Square(x) + 2.0 * Times(x, y) + Times(y, y)
  {
  }

  lemma {:induction false} EnergyExpand(d: seq<real>, q: nat, n: nat)
    ensures Energy(d, q + 1, n) == Energy(d, q, n) + 2.0 * WindowShifted(d, q, q, n) + Shifted(d, q, q, n)
  {
    if n > 0 {
      EnergyExpand(d, q, n - 1);
      var w, a := Window(d, q, n - 1), At(d, n - 1 - q);
      assert Window(d, q + 1, n - 1) == w + a;
      SquareOfSum(w, a);
    }
  }

  /** Lengthening the window by one adds the variance and every autocovariance up to that length. */
  lemma EnergyStep(d: seq<real>, q: nat, n: nat)
    requires n >= |d| + q
    ensures Energy(d, q + 1, n) == Energy(d, q, n) + Autocovariance(d, 0) + 2.0 * LagSum(d, q)
  {
    EnergyExpand(d, q, n);
    WindowShiftedIsLagSum(d, q, q, n);
    ShiftedIsAutocovariance(d, q, q, n);
  }

  lemma {:induction false} TriangleShift(d: seq<real>, q: real, m: nat)
    ensures Triangle(d, q + 1.0, m) == Triangle(d, q, m) + LagSum(d, m)
  {
    if m > 0 {
      TriangleShift(d, q, m - 1);
      var c := Autocovariance(d, m);
      assert Times(q + 1.0 - m as real, c) == Times(q - m as real, c) + c;
    }
  }

  /** k times the variance plus twice the triangle sum. */
  function Affine(k: real, D: real, t: real): real {
    k * D + 2.0 * t
  }

  /** The triangle-weighted autocovariances are a sum of squares of windowed sums. */
  lemma {:induction false} EnergyIsTriangle(d: seq<real>, q: nat, k: real, n: nat)
    requires n >= |d| + q && k == q as real
    ensures Energy(d, q, n) == Affine(k, Autocovariance(d, 0), Triangle(d, k, q))
  {
    if q == 0 {
      EnergyOfEmptyWindow(d, n);
    } else {
      EnergyIsTriangle(d, q - 1, k - 1.0, n);
      EnergyStep(d, q - 1, n);
      TriangleShift(d, k - 1.0, q - 1);
      TriangleTop(d, k, q);
      AffineStep(k, Autocovariance(d, 0), Triangle(d, k - 1.0, q - 1), LagSum(d, q - 1));
    }
  }

  lemma AffineStep(k: real, D: real, t: real, l: real)
    ensures Affine(k, D, t + l) == Affine(k - 1.0, D, t) + D + 2.0 * l
  {
  }

  lemma {:induction false} EnergyOfEmptyWindow(d: seq<real>, n: nat)
    ensures Energy(d, 0, n) == 0.0
  {
    if n > 0 {
      EnergyOfEmptyWindow(d, n - 1);
    }
  }

  // ----- From the factor to the windowed sums -------------------------------------------------

  function Autocovariances(d: seq<real>): nat -> real {
    (lag: nat) => Autocovariance(d, lag)
  }

  /** The sum of (q - min(k, q)) * g(k) over 1 <= k <= m: q * D times the weighted sum. */
  function Clipped(g: nat -> real, q: real, m: nat): real {
    if m == 0 then 0.0
    else Plus(Clipped(g, q, m - 1), q - MinReal(m as real, q), g(m))
  }

  lemma PlusZero(sum: real, weight: real, c: real)
    requires weight == 0.0
    ensures Plus(sum, weight, c) == sum
  {
  }

  lemma {:induction false} ClippedStops(d: seq<real>, q: real, m: nat, cut: nat)
    requires cut <= m && q <= (cut + 1) as real && cut as real <= q
    ensures Clipped(Autocovariances(d), q, m) == Triangle(d, q, cut)
  {
    if m > cut {
      ClippedStops(d, q, m - 1, cut);
      PlusZero(Clipped(Autocovariances(d), q, m - 1), q - MinReal(m as real, q), Autocovariance(d, m));
    } else if m > 0 {
      ClippedIsTriangle(d, q, m);
    }
  }

  lemma {:induction false} ClippedIsTriangle(d: seq<real>, q: real, m: nat)
    requires m as real <= q
    ensures Clipped(Autocovariances(d), q, m) == Triangle(d, q, m)
  {
    if m > 0 {
      ClippedIsTriangle(d, q, m - 1);
    }
  }

  lemma {:induction false} FiniteCoefficients(samples: seq<real>, maxLag: nat, m: nat)
    requires 0 < LagCount(samples, maxLag) && m <= LagCount(samples, maxLag)
    requires Autocovariance(Deviations(samples), 0) != 0.0
    ensures |Finite(RawCoefficients(samples, maxLag)[..m])| == m
    ensures var d := Deviations(samples);
            Normalizes(Finite(RawCoefficients(samples, maxLag)[..m]), Autocovariances(d), Autocovariance(d, 0))
  {
    if m > 0 {
      FiniteCoefficients(samples, maxLag, m - 1);
      var cs := RawCoefficients(samples, maxLag);
      assert cs[..m][..m - 1] == cs[..m - 1];
    }
  }

  lemma {:induction false} FiniteOfFlat(samples: seq<real>, maxLag: nat, m: nat)
    requires m <= LagCount(samples, maxLag)
    requires |samples| > 0 && Autocovariance(Deviations(samples), 0) == 0.0
    ensures Finite(RawCoefficients(samples, maxLag)[..m]) == []
  {
    if m > 0 {
      FiniteOfFlat(samples, maxLag, m - 1);
      var cs := RawCoefficients(samples, maxLag);
      assert cs[..m][..m - 1] == cs[..m - 1];
    }
  }

  /** fs lists g at lags 1, 2, ... over the variance D. */
  ghost predicate Normalizes(fs: seq<(nat, real)>, g: nat -> real, D: real) {
    forall i :: 0 <= i < |fs| ==> fs[i].0 == i + 1 && Times(fs[i].1, D) == g(i + 1)
  }

  /** q times the weighted sum: every weight 1 - min(k, q) / q becomes q - min(k, q). */
  function ClippedSum(fs: seq<(nat, real)>, q: real): real {
    if |fs| == 0 then 0.0
    else
      Plus(ClippedSum(fs[..|fs| - 1], q), q - MinReal(fs[|fs| - 1].0 as real, q), fs[|fs| - 1].1)
  }

  lemma {:induction false} WeightedSumScaled(fs: seq<(nat, real)>, q: real)
    requires q > 0.0
    ensures Times(q, WeightedSum(fs, q)) == ClippedSum(fs, q)
  {
    if |fs| > 0 {
      var (lag, c) := fs[|fs| - 1];
      WeightedSumScaled(fs[..|fs| - 1], q);
      WeightScaled(WeightedSum(fs[..|fs| - 1], q), lag, q, c);
    }
  }

  lemma WeightScaled(before: real, lag: nat, q: real, c: real)
    requires q > 0.0
    ensures Times(q, Plus(before, Weight(lag, q), c)) == Plus(Times(q, before), q - MinReal(lag as real, q), c)
  {
  }

  lemma {:induction false} ClippedSumScaled(g: nat -> real, D: real, fs: seq<(nat, real)>, q: real)
    requires Normalizes(fs, g, D)
    ensures Times(D, ClippedSum(fs, q)) == Clipped(g, q, |fs|)
  {
    var m := |fs|;
    if m > 0 {
      ClippedSumScaled(g, D, fs[..m - 1], q);
      ClipScaled(D, ClippedSum(fs[..m - 1], q), q - MinReal(m as real, q), fs[m - 1].1, g(m));
    }
  }

  lemma ClipScaled(D: real, before: real, k: real, c: real, g: real)
    requires Times(c, D) == g
    ensures Times(D, Plus(before, k, c)) == Plus(Times(D, before), k, g)
  {
  }

  /** With D the sum of squared deviations, the factor is 1 + 2 * WeightedSum over every lag, or `None` without one. */
  lemma InflationShape(samples: seq<real>, maxLag: nat, annualization: Option<real>)
    requires annualization.Some? ==> annualization.value > 0.0
    ensures var L := LagCount(samples, maxLag);
            var r := LoVarianceInflation(RawCoefficients(samples, maxLag), annualization);
            if L == 0 || Autocovariance(Deviations(samples), 0) == 0.0 then r == None
            else
              var d := Deviations(samples);
              var fs := Finite(RawCoefficients(samples, maxLag));
              var q := if annualization.Some? then annualization.value else (L + 1) as real;
              r == Some(Inflation(fs, q)) && |fs| == L
              && Normalizes(fs, Autocovariances(d), Autocovariance(d, 0))
  {
    var L := LagCount(samples, maxLag);
    var cs := RawCoefficients(samples, maxLag);
    assert cs[..L] == cs;
    if L > 0 {
      if Autocovariance(Deviations(samples), 0) == 0.0 {
        FiniteOfFlat(samples, maxLag, L);
      } else {
        FiniteCoefficients(samples, maxLag, L);
      }
    }
  }

  lemma {:induction false} VarianceNonNegative(d: seq<real>, hi: nat)
    requires hi <= |d|
    ensures Lagged(d, 0, hi) >= 0.0
  {
    if hi > 0 {
      VarianceNonNegative(d, hi - 1);
    }
  }

  /** A span q between whole numbers m and m + 1 mixes the windows of those two lengths. */
  lemma TriangleInterpolates(d: seq<real>, q: real, m: nat, theta: real, n: nat)
    requires q == m as real + theta && n >= |d| + m + 1
    ensures Affine(q, Autocovariance(d, 0), Triangle(d, q, m)) == Mix(theta, Energy(d, m, n), Energy(d, m + 1, n))
  {
    var k := m as real;
    EnergyIsTriangle(d, m, k, n);
    EnergyIsTriangle(d, m + 1, k + 1.0, n);
    TriangleTop(d, k + 1.0, m + 1);
    TriangleLinear(d, k, theta, m);
    MixTerms(k, theta, Autocovariance(d, 0), Triangle(d, k, m), Triangle(d, k + 1.0, m));
  }

  /** The weighted average of a and b. */
  function Mix(theta: real, a: real, b: real): (r: real)
    ensures 0.0 <= theta <= 1.0 && a >= 0.0 && b >= 0.0 ==> r >= 0.0
  {
    assert 0.0 <= theta <= 1.0 && a >= 0.0 && b >= 0.0 ==> (1.0 - theta) * a >= 0.0 && theta * b >= 0.0;
    (1.0 - theta) * a + theta * b
  }

  /** The longest lag of a whole triangle has weight zero. */
  lemma TriangleTop(d: seq<real>, q: real, m: nat)
    requires m > 0 && q == m as real
    ensures Triangle(d, q, m) == Triangle(d, q, m - 1)
  {
  }

  lemma MixTerms(k: real, theta: real, D: real, a: real, b: real)
    ensures Affine(k + theta, D, Mix(theta, a, b)) == Mix(theta, Affine(k, D, a), Affine(k + 1.0, D, b))
  {
  }

  lemma {:induction false} TriangleLinear(d: seq<real>, q: real, theta: real, m: nat)
    ensures Triangle(d, q + theta, m) == Mix(theta, Triangle(d, q, m), Triangle(d, q + 1.0, m))
  {
    if m > 0 {
      TriangleLinear(d, q, theta, m - 1);
      LinearTerm(q - m as real, theta, Autocovariance(d, m), Triangle(d, q, m - 1), Triangle(d, q + 1.0, m - 1));
    }
  }

  lemma LinearTerm(k: real, theta: real, c: real, a: real, b: real)
    ensures Mix(theta, a, b) + Times(k + theta, c) == Mix(theta, a + Times(k, c), b + Times(k + 1.0, c))
  {
  }

  // ----- Main results -------------------------------------------------------------------------

  /** The lag span a factor q is divided by. */
  function Span(samples: seq<real>, maxLag: nat, annualization: Option<real>): real {
    if annualization.Some? then annualization.value else (LagCount(samples, maxLag) + 1) as real
  }

  /** D * q * x. */
  function Scaled(D: real, q: real, x: real): (r: real)
    ensures D > 0.0 && q > 0.0 ==> (r >= 0.0 <==> x >= 0.0)
  {
    assert D > 0.0 && q > 0.0 && x < 0.0 ==> q * x < 0.0 && D * (q * x) < 0.0;
    D * (q * x)
  }

  lemma ScaledInflation(g: nat -> real, D: real, fs: seq<(nat, real)>, q: real)
    requires q > 0.0 && Normalizes(fs, g, D)
    ensures Scaled(D, q, Inflation(fs, q)) == Affine(q, D, Clipped(g, q, |fs|))
  {
    WeightedSumScaled(fs, q);
    ClippedSumScaled(g, D, fs, q);
    ScaleAffine(D, q, WeightedSum(fs, q), ClippedSum(fs, q), Clipped(g, q, |fs|));
  }

  lemma ScaleAffine(D: real, q: real, w: real, s: real, c: real)
    requires Times(q, w) == s && Times(D, s) == c
    ensures Scaled(D, q, 1.0 + 2.0 * w) == Affine(q, D, c)
  {
  }

  /** For any span q <= L + 1, q * D times the factor mixes two sums of squared windows. */
  lemma InflationIsSumOfSquares(samples: seq<real>, maxLag: nat, annualization: Option<real>, n: nat)
    requires annualization.Some? ==>
               0.0 < annualization.value <= (LagCount(samples, maxLag) + 1) as real
    requires n >= |samples| + LagCount(samples, maxLag) + 2
    ensures var r := LoVarianceInflation(RawCoefficients(samples, maxLag), annualization);
            r.Some? ==>
              var d := Deviations(samples);
              var q := Span(samples, maxLag, annualization);
              var m := q.Floor;
              var theta := q - m as real;
              && m >= 0 && 0.0 <= theta < 1.0 && Autocovariance(d, 0) > 0.0
              && Scaled(Autocovariance(d, 0), q, r.value) == Mix(theta, Energy(d, m, n), Energy(d, m + 1, n))
  {
    InflationShape(samples, maxLag, annualization);
    var cs := RawCoefficients(samples, maxLag);
    if LoVarianceInflation(cs, annualization).Some? {
      var d := Deviations(samples);
      VarianceNonNegative(d, |d|);
      var q := Span(samples, maxLag, annualization);
      SpanIsSumOfSquares(d, Finite(cs), q, n);
    }
  }

  lemma SpanIsSumOfSquares(d: seq<real>, fs: seq<(nat, real)>, q: real, n: nat)
    requires 0.0 < q <= (|fs| + 1) as real && n >= |d| + |fs| + 2
    requires Normalizes(fs, Autocovariances(d), Autocovariance(d, 0))
    ensures var m := q.Floor;
            var theta := q - m as real;
            Scaled(Autocovariance(d, 0), q, Inflation(fs, q)) == Mix(theta, Energy(d, m, n), Energy(d, m + 1, n))
  {
    var m := q.Floor;
    ScaledInflation(Autocovariances(d), Autocovariance(d, 0), fs, q);
    if m == |fs| + 1 {
      ClippedStops(d, q, |fs|, |fs|);
      TriangleTop(d, q, m);
    } else {
      ClippedStops(d, q, |fs|, m);
    }
    TriangleInterpolates(d, q, m, q - m as real, n);
  }

  lemma {:induction false} SquaresVanish(d: seq<real>, hi: nat)
    requires hi <= |d| && Lagged(d, 0, hi) == 0.0
    ensures forall j :: 0 <= j < hi ==> d[j] == 0.0
  {
    if hi > 0 {
      VarianceNonNegative(d, hi - 1);
      if d[hi - 1] != 0.0 {
        SquarePositive(d[hi - 1]);
      }
      assert Times(d[hi - 1], d[hi - 1]) == Square(d[hi - 1]);
      SquaresVanish(d, hi - 1);
    }
  }

  lemma {:induction false} FirstNonzero(d: seq<real>, hi: nat) returns (i: nat)
    requires hi <= |d| && Lagged(d, 0, hi) != 0.0
    ensures i < hi && d[i] != 0.0 && forall j :: 0 <= j < i ==> d[j] == 0.0
  {
    if Lagged(d, 0, hi - 1) != 0.0 {
      i := FirstNonzero(d, hi - 1);
    } else {
      i := hi - 1;
      SquaresVanish(d, i);
      if d[i] == 0.0 {
        ZeroProduct(d[i], d[i]);
      }
    }
  }

  lemma {:induction false} WindowAtFirst(d: seq<real>, q: nat, i: nat)
    requires q > 0 && i < |d| && forall j :: 0 <= j < i ==> d[j] == 0.0
    ensures Window(d, q, i) == d[i]
  {
    if q > 1 {
      WindowAtFirst(d, q - 1, i);
    } else {
      assert Window(d, 0, i) == 0.0;
    }
  }

  lemma {:induction false} EnergyAtLeast(d: seq<real>, q: nat, n: nat, i: nat)
    requires i < n
    ensures Energy(d, q, n) >= Square(Window(d, q, i))
  {
    if i < n - 1 {
      EnergyAtLeast(d, q, n - 1, i);
    }
  }

  /** The window that ends at the first nonzero value sees that value alone. */
  lemma EnergyPositive(d: seq<real>, q: nat, n: nat)
    requires q > 0 && n >= |d| && Autocovariance(d, 0) != 0.0
    ensures Energy(d, q, n) > 0.0
  {
    var i := FirstNonzero(d, |d|);
    WindowAtFirst(d, q, i);
    SquarePositive(d[i]);
    EnergyAtLeast(d, q, n, i);
  }

  lemma MixPositive(theta: real, a: real, b: real)
    requires 0.0 <= theta < 1.0 && a >= 0.0 && b > 0.0 && (theta == 0.0 ==> a > 0.0)
    ensures Mix(theta, a, b) > 0.0
  {
    ProductNonNegative(1.0 - theta, a);
    if theta > 0.0 {
      ProductPositive(theta, b);
    }
    assert Mix(theta, a, b) == Times(1.0 - theta, a) + Times(theta, b);
  }

  /** The factor built from unrounded autocorrelations is positive when its span is within the lags. */
  lemma InflationPositive(samples: seq<real>, maxLag: nat, annualization: Option<real>)
    requires annualization.Some? ==>
               0.0 < annualization.value <= (LagCount(samples, maxLag) + 1) as real
    ensures var r := LoVarianceInflation(RawCoefficients(samples, maxLag), annualization);
            r.Some? ==> r.value > 0.0
  {
    var r := LoVarianceInflation(RawCoefficients(samples, maxLag), annualization);
    if r.Some? {
      var n := |samples| + LagCount(samples, maxLag) + 2;
      InflationIsSumOfSquares(samples, maxLag, annualization, n);
      var d, q := Deviations(samples), Span(samples, maxLag, annualization);
      SumOfSquaresPositive(d, q, n);
      ScaledZero(Autocovariance(d, 0), q, r.value);
    }
  }

  lemma SumOfSquaresPositive(d: seq<real>, q: real, n: nat)
    requires q > 0.0 && n >= |d| && Autocovariance(d, 0) != 0.0
    ensures var m := q.Floor;
            m >= 0 && Mix(q - m as real, Energy(d, m, n), Energy(d, m + 1, n)) > 0.0
  {
    var m := q.Floor;
    EnergyPositive(d, m + 1, n);
    if m > 0 {
      EnergyPositive(d, m, n);
    }
    MixPositive(q - m as real, Energy(d, m, n), Energy(d, m + 1, n));
  }

  lemma ScaledZero(D: real, q: real, x: real)
    requires Scaled(D, q, x) != 0.0
    ensures x != 0.0
  {
  }

  // ----- Rounding the coefficients --------------------------------------------------------------

  /** The two lists have the same lags and coefficients at most one half of a millionth apart. */
  ghost predicate Close(fs: seq<(nat, real)>, gs: seq<(nat, real)>) {
    |fs| == |gs| && forall i :: 0 <= i < |fs| ==> fs[i].0 == gs[i].0 && Abs(fs[i].1 - gs[i].1) <= 0.0000005
  }

  lemma {:induction false} RoundedAreClose(cs: seq<Coefficient>)
    ensures Close(Finite(cs), Finite(RoundAll(cs)))
  {
    if |cs| > 0 {
      RoundedAreClose(cs[..|cs| - 1]);
      assert RoundAll(cs)[..|cs| - 1] == RoundAll(cs[..|cs| - 1]);
    }
  }

  /** The sum of the first m weights. */
  function WeightTotal(m: nat, q: real): real
    requires q > 0.0
  {
    if m == 0 then 0.0 else WeightTotal(m - 1, q) + Weight(m, q)
  }

  lemma {:induction false} WeightedSumsClose(fs: seq<(nat, real)>, gs: seq<(nat, real)>, q: real)
    requires q > 0.0 && Close(fs, gs) && forall i :: 0 <= i < |fs| ==> fs[i].0 == i + 1
    ensures Abs(WeightedSum(fs, q) - WeightedSum(gs, q)) <= 0.0000005 * WeightTotal(|fs|, q)
  {
    var m := |fs|;
    if m > 0 {
      WeightedSumsClose(fs[..m - 1], gs[..m - 1], q);
      WeightNonNegative(m, q);
      WeighedClose(WeightedSum(fs[..m - 1], q), WeightedSum(gs[..m - 1], q), WeightTotal(m - 1, q),
                   Weight(m, q), fs[m - 1].1, gs[m - 1].1);
    }
  }

  lemma WeightNonNegative(lag: nat, q: real)
    requires q > 0.0
    ensures Weight(lag, q) >= 0.0
  {
  }

  lemma WeighedClose(a: real, b: real, total: real, w: real, x: real, y: real)
    requires w >= 0.0 && Abs(x - y) <= 0.0000005 && Abs(a - b) <= 0.0000005 * total
    ensures Abs(Plus(a, w, x) - Plus(b, w, y)) <= 0.0000005 * (total + w)
  {
    ScaledClose(w, x, y);
    ScaledClose(w, y, x);
    SumsClose(a, b, total, w, Times(w, x), Times(w, y));
  }

  lemma SumsClose(a: real, b: real, total: real, w: real, p: real, r: real)
    requires Abs(a - b) <= 0.0000005 * total
    requires p <= r + Times(w, 0.0000005) && r <= p + Times(w, 0.0000005)
    ensures Abs((a + p) - (b + r)) <= 0.0000005 * (total + w)
  {
  }

  lemma ScaledClose(w: real, x: real, y: real)
    requires w >= 0.0 && x - y <= 0.0000005
    ensures Times(w, x) <= Times(w, y) + Times(w, 0.0000005)
  {
  }

  lemma {:induction false} WeightTotalScaled(m: nat, q: real)
    requires q > 0.0 && m as real <= q
    ensures q * WeightTotal(m, q) == m as real * (q - (m + 1) as real / 2.0)
  {
    if m > 0 {
      WeightTotalScaled(m - 1, q);
      WeightScaled(WeightTotal(m - 1, q), m, q, 1.0);
      HalfStep(m as real, q);
    }
  }

  lemma HalfStep(m: real, q: real)
    ensures m * (q - (m + 1.0) / 2.0) == (m - 1.0) * (q - m / 2.0) + (q - m)
  {
  }

  /** With the default span L + 1 the weights sum to L / 2. */
  lemma DefaultWeightTotal(L: nat)
    ensures WeightTotal(L, (L + 1) as real) == L as real / 2.0
  {
    var q := (L + 1) as real;
    WeightTotalScaled(L, q);
    CancelFactor(q, WeightTotal(L, q), L as real / 2.0);
  }

  lemma CancelFactor(q: real, x: real, y: real)
    requires q > 0.0 && q * x == 2.0 * y * (q / 2.0)
    ensures x == y
  {
  }

  /** A longer span weighs every lag more. */
  lemma WeightGrows(lag: nat, q: real, longer: real)
    requires 0.0 < q <= longer
    ensures Weight(lag, q) <= Weight(lag, longer)
  {
    var k := lag as real;
    if k < q {
      SharesShrink(k, q, longer);
    } else {
      WeightNonNegative(lag, longer);
      WholeShare(q);
    }
  }

  lemma SharesShrink(k: real, q: real, longer: real)
    requires 0.0 <= k && 0.0 < q <= longer
    ensures k / longer <= k / q
  {
  }

  lemma WholeShare(q: real)
    requires q > 0.0
    ensures q / q == 1.0
  {
  }

  lemma {:induction false} WeightTotalGrows(m: nat, q: real, longer: real)
    requires 0.0 < q <= longer
    ensures WeightTotal(m, q) <= WeightTotal(m, longer)
  {
    if m > 0 {
      WeightTotalGrows(m - 1, q, longer);
      WeightGrows(m, q, longer);
    }
  }

  lemma InflationsClose(fs: seq<(nat, real)>, gs: seq<(nat, real)>, q: real)
    requires Close(fs, gs) && forall i :: 0 <= i < |fs| ==> fs[i].0 == i + 1
    requires 0.0 < q <= (|fs| + 1) as real
    ensures Abs(Inflation(fs, q) - Inflation(gs, q)) <= 0.0000005 * |fs| as real
  {
    WeightedSumsClose(fs, gs, q);
    WeightTotalGrows(|fs|, q, (|fs| + 1) as real);
    DefaultWeightTotal(|fs|);
  }

  /** Rounding moves the factor by at most L half-millionths, so within the lags it is more than minus that margin. */
  lemma RoundedInflationMargin(samples: seq<real>, maxLag: nat, annualization: Option<real>)
    requires annualization.Some? ==> 0.0 < annualization.value <= (LagCount(samples, maxLag) + 1) as real
    ensures var raw := LoVarianceInflation(RawCoefficients(samples, maxLag), annualization);
            var rounded := LoVarianceInflation(RoundAll(RawCoefficients(samples, maxLag)), annualization);
            var margin := 0.0000005 * LagCount(samples, maxLag) as real;
            (raw.Some? <==> rounded.Some?)
            && (raw.Some? ==> Abs(raw.value - rounded.value) <= margin && rounded.value > -margin)
  {
    var raw := RawCoefficients(samples, maxLag);
    RoundedAreClose(raw);
    LagsCountUp(samples, maxLag, annualization);
    FactorsClose(raw, RoundAll(raw), annualization, LagCount(samples, maxLag));
    InflationPositive(samples, maxLag, annualization);
  }

  lemma LagsCountUp(samples: seq<real>, maxLag: nat, annualization: Option<real>)
    requires annualization.Some? ==> annualization.value > 0.0
    ensures var fs := Finite(RawCoefficients(samples, maxLag));
            (|fs| == 0 || |fs| == LagCount(samples, maxLag)) && forall i :: 0 <= i < |fs| ==> fs[i].0 == i + 1
  {
    InflationShape(samples, maxLag, annualization);
  }

  /** Two lists of close coefficients at lags 1 to L give close factors. */
  lemma FactorsClose(cs: seq<Coefficient>, rs: seq<Coefficient>, annualization: Option<real>, L: nat)
    requires annualization.Some? ==> 0.0 < annualization.value <= (L + 1) as real
    requires Close(Finite(cs), Finite(rs)) && (|Finite(cs)| == 0 || |Finite(cs)| == L)
    requires forall i :: 0 <= i < |Finite(cs)| ==> Finite(cs)[i].0 == i + 1
    ensures var raw, rounded := LoVarianceInflation(cs, annualization), LoVarianceInflation(rs, annualization);
            (raw.Some? <==> rounded.Some?) && (raw.Some? ==> Abs(raw.value - rounded.value) <= 0.0000005 * L as real)
  {
    if |Finite(cs)| > 0 {
      InflationsClose(Finite(cs), Finite(rs), if annualization.Some? then annualization.value else (L + 1) as real);
    }
  }
}
