/** The denominator the source evaluates has both moments rounded: from S * S = 2.1 on it still fails for some sample. */
module SharpeMomentsRounded {
  import opened Numbers
  import opened SharpeMoments
  import opened SharpeMomentsSharp

  // ----- Power sums of samples with few different values -----------------------------------------------

  function Copies(x: real, count: nat): (z: seq<real>)
    ensures |z| == count
  {
    if count == 0 then [] else Copies(x, count - 1) + [x]
  }

  /** Count, sum, squares, cubes and fourth powers. */
  predicate HasSums(z: seq<real>, n: nat, sum: real, squares: real, cubes: real, fourths: real) {
    |z| == n && Sum(z) == sum && Squares(z) == squares && Cubes(z) == cubes && Fourths(z) == fourths
  }

  lemma OneMore(count: real, x: real)
    ensures Times(count + 1.0, x) == Times(count, x) + x
  {
  }

  lemma {:induction false} CopiesAppended(z: seq<real>, x: real, count: nat)
    ensures var m := count as real;
            HasSums(z + Copies(x, count), |z| + count, Sum(z) + Times(m, x), Squares(z) + Times(m, Square(x)),
                    Cubes(z) + Times(m, Cube(x)), Fourths(z) + Times(m, Fourth(x)))
  {
    if count == 0 {
      assert z + Copies(x, 0) == z;
      ZeroProduct(0.0, x);
      ZeroProduct(0.0, Square(x));
      ZeroProduct(0.0, Cube(x));
      ZeroProduct(0.0, Fourth(x));
    } else {
      var m := (count - 1) as real;
      CopiesAppended(z, x, count - 1);
      assert z + Copies(x, count) == (z + Copies(x, count - 1)) + [x];
      SumsAppend(z + Copies(x, count - 1), x);
      OneMore(m, x);
      OneMore(m, Square(x));
      OneMore(m, Cube(x));
      OneMore(m, Fourth(x));
    }
  }

  lemma Powers(x: real)
    ensures Square(x) == x * x && Cube(x) == x * x * x && Fourth(x) == x * x * x * x
  {
  }

  lemma CopiesOfThree(x: real, a: nat, y: real, b: nat, w: real, c: nat) returns (z: seq<real>)
    ensures HasSums(z, a + b + c, Times(a as real, x) + Times(b as real, y) + Times(c as real, w),
                    Times(a as real, Square(x)) + Times(b as real, Square(y)) + Times(c as real, Square(w)),
                    Times(a as real, Cube(x)) + Times(b as real, Cube(y)) + Times(c as real, Cube(w)),
                    Times(a as real, Fourth(x)) + Times(b as real, Fourth(y)) + Times(c as real, Fourth(w)))
  {
    CopiesAppended([], x, a);
    CopiesAppended([] + Copies(x, a), y, b);
    CopiesAppended([] + Copies(x, a) + Copies(y, b), w, c);
    z := [] + Copies(x, a) + Copies(y, b) + Copies(w, c);
  }

  /** Four samples of standardized values, each good for one range of Sharpe ratios. */
  lemma SixtyFourValues() returns (z: seq<real>)
    ensures HasSums(z, 64, 0.0, 63.0, 85.05, 176.833125)
  {
    Powers(1.875);
    Powers(-0.525);
    z := CopiesOfThree(1.875, 14, -0.525, 50, 0.0, 0);
  }

  lemma ThirteenValues() returns (z: seq<real>)
    ensures HasSums(z, 13, 0.0, 12.0, 14.55375, 28.968375)
  {
    Powers(1.75);
    Powers(-0.55);
    Powers(-0.3);
    z := CopiesOfThree(1.75, 3, -0.55, 9, -0.3, 1);
  }

  lemma FourValues() returns (z: seq<real>)
    ensures HasSums(z, 4, 0.0, 3.0, 3.0, 5.25)
  {
    Powers(1.5);
    Powers(-0.5);
    z := CopiesOfThree(1.5, 1, -0.5, 3, 0.0, 0);
  }

  lemma FiveValues() returns (z: seq<real>)
    ensures HasSums(z, 5, 0.0, 4.0, 0.0, 4.0)
  {
    Powers(1.0);
    Powers(-1.0);
    Powers(0.0);
    z := CopiesOfThree(1.0, 2, -1.0, 2, 0.0, 1);
  }

  // ----- The quadratic in the Sharpe ratio ---------------------------------------------------------------

  /** n times the denominator and the most that rounding can add to it. */
  function ScaledTerm(n: real, cubes: real, fourths: real, sharpe: real): real {
    n - Times(cubes, sharpe) + Times((fourths - n) / 4.0, Square(sharpe)) + Times(n, Slack(sharpe))
  }

  function Quadratic(p: real, q: real, r: real, t: real): real {
    p - Times(q, t) + Times(r, Square(t))
  }

  /** For a positive ratio it is a quadratic. */
  lemma ScaledTermIsQuadratic(n: real, cubes: real, fourths: real, t: real)
    requires t >= 0.0
    ensures ScaledTerm(n, cubes, fourths, t) == Quadratic(n, cubes - 0.0000005 * n, (fourths - n) / 4.0 + 0.000000125 * n, t)
  {
    assert Times(n, Slack(t)) == Times(0.0000005 * n, t) + Times(0.000000125 * n, Square(t));
    Distribute(cubes, -0.0000005 * n, t);
    Distribute((fourths - n) / 4.0, 0.000000125 * n, Square(t));
  }

  lemma ScaledTermMirrored(n: real, cubes: real, fourths: real, sharpe: real)
    ensures ScaledTerm(n, -cubes, fourths, sharpe) == ScaledTerm(n, cubes, fourths, -sharpe)
  {
    SquareOfNegation(sharpe);
    assert Times(-cubes, sharpe) == Times(cubes, -sharpe);
  }

  /** A quadratic is a line less the product of the distances from a and b. */
  lemma Chord(p: real, q: real, r: real, a: real, b: real, t: real)
    ensures Quadratic(p, q, r, t)
            == p - Times(r, Times(a, b)) + Times(Times(r, a + b) - q, t) - Times(r, Times(t - a, b - t))
  {
    assert Square(t) == Times(a + b, t) - Times(a, b) - Times(t - a, b - t);
    assert Times(r, Times(a + b, t)) == Times(Times(r, a + b), t);
  }

  /** A convex quadratic that is not positive at a and b is not positive between them. */
  lemma BelowBetween(p: real, q: real, r: real, a: real, b: real, t: real)
    requires r >= 0.0 && a <= t <= b && Quadratic(p, q, r, a) <= 0.0 && Quadratic(p, q, r, b) <= 0.0
    ensures Quadratic(p, q, r, t) <= 0.0
  {
    var slope := Times(r, a + b) - q;
    Chord(p, q, r, a, b, a);
    Chord(p, q, r, a, b, b);
    Chord(p, q, r, a, b, t);
    ZeroProduct(0.0, b - a);
    assert Times(r, Times(0.0, b - a)) == 0.0 == Times(r, Times(b - a, 0.0));
    ProductNonNegative(t - a, b - t);
    ProductNonNegative(r, Times(t - a, b - t));
    if slope >= 0.0 {
      ProductMonotone(slope, t, b);
    } else {
      ProductMonotone(-slope, a, t);
      assert Times(-slope, a) == -Times(slope, a) && Times(-slope, t) == -Times(slope, t);
    }
  }

  // ----- From standardized values to a sample ----------------------------------------------------------------

  function Mirrored(z: seq<real>): (m: seq<real>)
    ensures |m| == |z|
  {
    if |z| == 0 then [] else Mirrored(z[..|z| - 1]) + [-z[|z| - 1]]
  }

  lemma {:induction false} MirroredSums(z: seq<real>)
    ensures HasSums(Mirrored(z), |z|, -Sum(z), Squares(z), -Cubes(z), Fourths(z))
  {
    if |z| > 0 {
      var front, last := z[..|z| - 1], z[|z| - 1];
      MirroredSums(front);
      SumsAppend(Mirrored(front), -last);
      MirroredPowers(last);
    }
  }

  lemma MirroredPowers(x: real)
    ensures Square(-x) == Square(x) && Cube(-x) == -Cube(x) && Fourth(-x) == Fourth(x)
  {
    SquareOfNegation(x);
    NegateRight(Square(x), x);
  }

  lemma ScaledDenominator(n: real, cubes: real, fourths: real, g: real, k: real, sharpe: real)
    requires Times(g, n) == cubes && Times(k, n) == fourths
    ensures Times(n, DenominatorTerm(sharpe, g, k - 3.0) + Slack(sharpe)) == ScaledTerm(n, cubes, fourths, sharpe)
  {
    var v := Square(sharpe);
    assert Times(n, Times(g, sharpe)) == Times(cubes, sharpe);
    assert Times(n, Times((k - 1.0) / 4.0, v)) == Times((fourths - n) / 4.0, v);
    assert Times(n, DenominatorTerm(sharpe, g, k - 3.0)) == n - Times(n, Times(g, sharpe)) + Times(n, Times((k - 1.0) / 4.0, v));
    Distribute(DenominatorTerm(sharpe, g, k - 3.0), Slack(sharpe), n);
  }

  lemma NotPositive(n: real, x: real)
    requires n > 0.0 && Times(n, x) <= 0.0
    ensures x <= 0.0
  {
    if x > 0.0 {
      ProductPositive(n, x);
    }
  }

  /** The source refuses this sample: the term it evaluates is not positive. */
  predicate Refused(values: seq<real>, s: real, sharpe: real)
    requires |values| >= 4 && s != 0.0
  {
    DenominatorTerm(sharpe, ToFixed6(RawSkewness(values, s).value), ToFixed6(RawExcessKurtosis(values, s).value)) <= 0.0
  }

  /** The sample with these standardized values and this ratio fails after rounding too. */
  lemma RoundedSampleFails(z: seq<real>, sharpe: real) returns (values: seq<real>)
    requires |z| >= 4 && Sum(z) == 0.0 && Squares(z) == (|z| - 1) as real
    requires ScaledTerm(|z| as real, Cubes(z), Fourths(z), sharpe) <= 0.0
    ensures |values| >= 4 && IsStandardDeviation(values, 1.0) && Ratio(Average(values), 1.0) == sharpe
    ensures Refused(values, 1.0, sharpe)
  {
    var n := |z| as real;
    var g, k := Ratio(Cubes(z), n), Ratio(Fourths(z), n);
    ShiftedSample(z, sharpe);
    values := Shift(z, sharpe);
    ScaledDenominator(n, Cubes(z), Fourths(z), g, k, sharpe);
    NotPositive(n, DenominatorTerm(sharpe, g, k - 3.0) + Slack(sharpe));
    DenominatorsClose(sharpe, ToFixed6(g), g, ToFixed6(k - 3.0), k - 3.0);
  }

  // ----- Every ratio has a sample -----------------------------------------------------------------------------

  /** z standardizes a sample that fails for every ratio from a to b. */
  lemma FailsBetween(z: seq<real>, n: nat, cubes: real, fourths: real, a: real, b: real, t: real)
    requires HasSums(z, n, 0.0, n as real - 1.0, cubes, fourths) && 0.0 <= a <= t <= b
    requires var r := (fourths - n as real) / 4.0 + 0.000000125 * n as real;
             var q := cubes - 0.0000005 * n as real;
             r >= 0.0 && Quadratic(n as real, q, r, a) <= 0.0 && Quadratic(n as real, q, r, b) <= 0.0
    ensures ScaledTerm(|z| as real, Cubes(z), Fourths(z), t) <= 0.0
  {
    var m := n as real;
    ScaledTermIsQuadratic(m, cubes, fourths, t);
    BelowBetween(m, cubes - 0.0000005 * m, (fourths - m) / 4.0 + 0.000000125 * m, a, b, t);
  }

  lemma FailsBeyond(z: seq<real>, t: real)
    requires HasSums(z, 5, 0.0, 4.0, 0.0, 4.0) && t >= 7.0
    ensures ScaledTerm(|z| as real, Cubes(z), Fourths(z), t) <= 0.0
  {
    ScaledTermIsQuadratic(5.0, 0.0, 4.0, t);
    ProductMonotone(t, 7.0, t);
  }

  lemma FailingValues(t: real) returns (z: seq<real>)
    requires t >= 1.449
    ensures |z| >= 4 && Sum(z) == 0.0 && Squares(z) == (|z| - 1) as real
    ensures ScaledTerm(|z| as real, Cubes(z), Fourths(z), t) <= 0.0
  {
    if t <= 1.568 {
      z := SixtyFourValues();
      FailsBetween(z, 64, 85.05, 176.833125, 1.449, 1.568, t);
    } else if t <= 2.0 {
      z := ThirteenValues();
      FailsBetween(z, 13, 14.55375, 28.968375, 1.567, 2.0, t);
    } else if t <= 7.0 {
      z := FourValues();
      FailsBetween(z, 4, 3.0, 5.25, 2.0, 7.0, t);
    } else {
      z := FiveValues();
      FailsBeyond(z, t);
    }
  }

  /** With both moments rounded, as the source has them, some sample is refused for every Sharpe ratio with S * S >= 2.1. */
  lemma RoundedSteepSharpeFails(sharpe: real) returns (values: seq<real>)
    requires Square(sharpe) >= 2.1
    ensures |values| >= 4 && IsStandardDeviation(values, 1.0) && Ratio(Average(values), 1.0) == sharpe
    ensures Refused(values, 1.0, sharpe)
  {
    SteepAbs(sharpe);
    var z := FailingValues(Abs(sharpe));
    if sharpe >= 0.0 {
      values := RoundedSampleFails(z, sharpe);
    } else {
      MirroredSums(z);
      ScaledTermMirrored(|z| as real, Cubes(z), Fourths(z), sharpe);
      values := RoundedSampleFails(Mirrored(z), sharpe);
    }
  }

  lemma SteepAbs(sharpe: real)
    requires Square(sharpe) >= 2.1
    ensures Abs(sharpe) >= 1.449
  {
    var t := Abs(sharpe);
    SquareOfNegation(sharpe);
    if t < 1.449 {
      ProductMonotone(t, t, 1.449);
      ProductMonotone(1.449, t, 1.449);
    }
  }
}
