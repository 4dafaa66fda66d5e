/** The span bound of the inflation factor is exact: beyond L + 1 some return sequence makes the factor negative. */
module LoInflationSharp {
  import opened Numbers
  import opened LoInflation

  // A comb of blocks 1, -1, 0, ..., 0 of length p; every window of length p inside it sums to zero.

  /** i modulo p, counted up. */
  function Phase(p: nat, i: nat): (r: nat)
    requires p >= 2
    ensures r < p
  {
    if i == 0 then 0 else if Phase(p, i - 1) + 1 == p then 0 else Phase(p, i - 1) + 1
  }

  function Length(p: nat, blocks: nat): nat {
    if blocks == 0 then 0 else Length(p, blocks - 1) + p
  }

  function Tooth(p: nat, i: nat): real
    requires p >= 2
  {
    if Phase(p, i) == 0 then 1.0 else if Phase(p, i) == 1 then -1.0 else 0.0
  }

  function Comb(p: nat, n: nat): (d: seq<real>)
    requires p >= 2
    ensures |d| == n
  {
    seq(n, i requires i >= 0 => Tooth(p, i))
  }

  /** The running total of the comb. */
  function Running(p: nat, n: nat, i: int): real
    requires p >= 2
  {
    if 0 <= i < n && Phase(p, i) == 0 then 1.0 else 0.0
  }

  lemma {:induction false} PhaseAdvances(p: nat, i: nat, r: nat)
    requires p >= 2 && Phase(p, i) == 0 && r <= p
    ensures Phase(p, i + r) == if r == p then 0 else r
  {
    if r > 0 {
      PhaseAdvances(p, i, r - 1);
    }
  }

  lemma {:induction false} PhasePeriodic(p: nat, i: nat)
    requires p >= 2
    ensures Phase(p, i + p) == Phase(p, i)
  {
    if i == 0 {
      PhaseAdvances(p, 0, p);
    } else {
      PhasePeriodic(p, i - 1);
    }
  }

  lemma {:induction false} PhaseOfLength(p: nat, blocks: nat)
    requires p >= 2
    ensures Phase(p, Length(p, blocks)) == 0
    ensures blocks > 0 ==> Length(p, blocks) >= p && Phase(p, Length(p, blocks) - 1) == p - 1
  {
    if blocks > 0 {
      PhaseOfLength(p, blocks - 1);
      PhaseAdvances(p, Length(p, blocks - 1), p);
      PhaseAdvances(p, Length(p, blocks - 1), p - 1);
    }
  }

  lemma {:induction false} CombSum(p: nat, n: nat, i: nat)
    requires p >= 2 && i <= n
    ensures Sum(Comb(p, n)[..i]) == Running(p, n, i - 1)
  {
    if i > 0 {
      CombSum(p, n, i - 1);
      assert Comb(p, n)[..i][..i - 1] == Comb(p, n)[..i - 1];
    }
  }

  lemma {:induction false} CombWindow(p: nat, blocks: nat, q: nat, t: int)
    requires p >= 2
    ensures var n := Length(p, blocks);
            Window(Comb(p, n), q, t) == Running(p, n, t) - Running(p, n, t - q)
  {
    if q > 0 {
      CombWindow(p, blocks, q - 1, t);
      PhaseOfLength(p, blocks);
    }
  }

  /** Only the two ends of the comb have a nonzero window of length p. */
  lemma {:induction false} LongWindows(p: nat, blocks: nat, m: nat)
    requires p >= 2 && m <= Length(p, blocks) + p
    ensures var n := Length(p, blocks);
            Energy(Comb(p, n), p, m) <= (if m > 0 then 1.0 else 0.0) + (if m > n then 1.0 else 0.0)
  {
    if m > 0 {
      LongWindows(p, blocks, m - 1);
      LongWindow(p, blocks, m - 1);
    }
  }

  lemma LongWindow(p: nat, blocks: nat, t: nat)
    requires p >= 2 && t < Length(p, blocks) + p
    ensures var n := Length(p, blocks);
            Square(Window(Comb(p, n), p, t)) <= if t == 0 || t == n then 1.0 else 0.0
  {
    LongWindowValue(p, blocks, t);
    SquareOfSmall(Window(Comb(p, Length(p, blocks)), p, t));
  }

  lemma LongWindowValue(p: nat, blocks: nat, t: nat)
    requires p >= 2 && t < Length(p, blocks) + p
    ensures var n, w := Length(p, blocks), Window(Comb(p, Length(p, blocks)), p, t);
            w == 0.0 || ((t == 0 || t == n) && Abs(w) == 1.0)
  {
    var n := Length(p, blocks);
    CombWindow(p, blocks, p, t);
    PhaseOfLength(p, blocks);
    if t < p {
      PhaseAdvances(p, 0, t);
    } else {
      PhasePeriodic(p, t - p);
    }
    if t >= n {
      PhaseAdvances(p, n, t - n);
    }
  }

  lemma SquareOfSmall(x: real)
    ensures (x == 0.0 ==> Square(x) == 0.0) && (Abs(x) == 1.0 ==> Square(x) == 1.0)
  {
  }

  /** How many of the first m positions start a block. */
  function Starts(p: nat, n: nat, m: nat): nat
    requires p >= 2
  {
    if m == 0 then 0 else Starts(p, n, m - 1) + if m - 1 < n && Phase(p, m - 1) == 0 then 1 else 0
  }

  /** One window length before a block start, and one step on, no block starts. */
  lemma AfterPreviousStart(p: nat, t: nat)
    requires p >= 2 && Phase(p, t) == 0 && t >= p - 1
    ensures Phase(p, t - (p - 1)) != 0
  {
    if t >= p {
      PhasePeriodic(p, t - p);
      PhaseAdvances(p, t - p, 1);
    } else {
      PhaseAdvances(p, 0, t);
    }
  }

  lemma StartIsSeen(p: nat, blocks: nat, t: nat)
    requires p >= 2 && t < Length(p, blocks) && Phase(p, t) == 0
    ensures Square(Window(Comb(p, Length(p, blocks)), p - 1, t)) == 1.0
  {
    CombWindow(p, blocks, p - 1, t);
    if t >= p - 1 {
      AfterPreviousStart(p, t);
    }
    assert Square(1.0) == 1.0;
  }

  /** A window one shorter sees every block start. */
  lemma {:induction false} ShortWindows(p: nat, blocks: nat, m: nat)
    requires p >= 2
    ensures var n := Length(p, blocks);
            Energy(Comb(p, n), p - 1, m) >= Starts(p, n, m) as real
  {
    if m > 0 {
      ShortWindows(p, blocks, m - 1);
      if m - 1 < Length(p, blocks) && Phase(p, m - 1) == 0 {
        StartIsSeen(p, blocks, m - 1);
      }
    }
  }

  lemma {:induction false} StartsCount(p: nat, blocks: nat, n: nat, m: nat)
    requires p >= 2 && Length(p, blocks) <= n && m >= Length(p, blocks)
    ensures Starts(p, n, m) >= blocks
  {
    if m > Length(p, blocks) {
      StartsCount(p, blocks, n, m - 1);
    } else if blocks > 0 {
      var i := Length(p, blocks - 1);
      StartsCount(p, blocks - 1, n, i);
      PhaseOfLength(p, blocks - 1);
      StartsGrow(p, n, i + 1, m);
    }
  }

  lemma {:induction false} StartsGrow(p: nat, n: nat, i: nat, m: nat)
    requires p >= 2 && i <= m
    ensures Starts(p, n, i) <= Starts(p, n, m)
  {
    if i < m {
      StartsGrow(p, n, i, m - 1);
    }
  }

  function Step(t: real, s: real, l: real): real {
    t + s * l
  }

  lemma {:induction false} TriangleShiftBy(d: seq<real>, q: real, s: real, m: nat)
    ensures Triangle(d, q + s, m) == Step(Triangle(d, q, m), s, LagSum(d, m))
  {
    if m == 0 {
      ZeroProduct(LagSum(d, m), s);
    } else {
      TriangleShiftBy(d, q, s, m - 1);
      ShiftTerm(Triangle(d, q, m - 1), q - m as real, s, Autocovariance(d, m), LagSum(d, m - 1));
    }
  }

  lemma ShiftTerm(t: real, k: real, s: real, c: real, l: real)
    ensures Step(t, s, l) + Times(k + s, c) == Step(t + Times(k, c), s, l + c)
  {
  }

  /** Past the span p = L + 1 the scaled factor weighs the two window lengths against each other. */
  lemma OverlongSpan(d: seq<real>, p: nat, q: real, n: nat)
    requires p >= 1 && q > p as real && n >= |d| + p
    ensures Affine(q, Autocovariance(d, 0), Triangle(d, q, p - 1))
            == Step(Energy(d, p, n), q - p as real, Energy(d, p, n) - Energy(d, p - 1, n))
  {
    var k := p as real;
    EnergyIsTriangle(d, p, k, n);
    TriangleTop(d, k, p);
    EnergyStep(d, p - 1, n);
    TriangleShiftBy(d, k, q - k, p - 1);
    AffineShift(k, q - k, Autocovariance(d, 0), Triangle(d, k, p - 1), LagSum(d, p - 1),
                Energy(d, p, n) - Energy(d, p - 1, n));
  }

  lemma AffineShift(k: real, s: real, D: real, t: real, l: real, e: real)
    requires e == D + 2.0 * l
    ensures Affine(k + s, D, Step(t, s, l)) == Step(Affine(k, D, t), s, e)
  {
  }

  /** The unrounded factor, when it exists, passes the source's guard. */
  ghost predicate Positive(samples: seq<real>, maxLag: nat, q: real)
    requires q > 0.0
  {
    var r := LoVarianceInflation(RawCoefficients(samples, maxLag), Some(q));
    r.Some? ==> r.value > 0.0
  }

  lemma {:induction false} FirstSquareCounts(d: seq<real>, hi: nat)
    requires 0 < hi <= |d| && d[0] == 1.0
    ensures Lagged(d, 0, hi) > 0.0
  {
    if hi > 1 {
      FirstSquareCounts(d, hi - 1);
    }
  }

  lemma CombHasZeroMean(p: nat, blocks: nat)
    requires p >= 2 && blocks > 0
    ensures |Comb(p, Length(p, blocks))| >= p
    ensures Deviations(Comb(p, Length(p, blocks))) == Comb(p, Length(p, blocks))
  {
    PhaseOfLength(p, blocks);
    var n := Length(p, blocks);
    var d := Comb(p, n);
    CombSum(p, n, n);
    assert d[..n] == d;
    assert Average(d) == 0.0;
  }

  lemma StepBelow(s: real, big: real, small: real, count: real)
    requires s > 0.0 && big <= 2.0 && small >= count
    ensures Step(big, s, big - small) <= 2.0 - Times(s, count - 2.0)
  {
    ProductMonotone(s, big - small, 2.0 - count);
    assert Times(s, 2.0 - count) == -Times(s, count - 2.0);
  }

  /** The scaled factor of the comb falls without bound as blocks are added. */
  lemma CombIsBelow(p: nat, blocks: nat, q: real)
    requires p >= 2 && q > p as real && blocks > 0
    ensures var d := Comb(p, Length(p, blocks));
            Affine(q, Autocovariance(d, 0), Clipped(Autocovariances(d), q, p - 1)) <= 2.0 - Times(q - p as real, blocks as real - 2.0)
  {
    var n := Length(p, blocks);
    var d := Comb(p, n);
    ClippedIsTriangle(d, q, p - 1);
    OverlongSpan(d, p, q, n + p);
    LongWindows(p, blocks, n + p);
    ShortWindows(p, blocks, n + p);
    StartsCount(p, blocks, n, n + p);
    StepBelow(q - p as real, Energy(d, p, n + p), Energy(d, p - 1, n + p), blocks as real);
  }

  /** A block of the comb has two nonzero values. */
  lemma {:induction false} CombSquares(p: nat, n: nat, i: nat)
    requires p >= 2 && i <= n
    ensures Lagged(Comb(p, n), 0, i) + (if i > 0 && Phase(p, i - 1) == 0 then 1.0 else 0.0) <= 2.0 * Starts(p, n, i) as real
  {
    if i > 0 {
      CombSquares(p, n, i - 1);
    }
  }

  lemma {:induction false} StartsInBlock(p: nat, n: nat, i: nat, r: nat)
    requires p >= 2 && Phase(p, i) == 0 && r <= p
    ensures Starts(p, n, i + r) <= Starts(p, n, i) + 1
  {
    if r > 1 {
      StartsInBlock(p, n, i, r - 1);
      PhaseAdvances(p, i, r - 1);
    }
  }

  lemma {:induction false} StartsAtMost(p: nat, blocks: nat, n: nat)
    requires p >= 2
    ensures Starts(p, n, Length(p, blocks)) <= blocks
  {
    if blocks > 0 {
      StartsAtMost(p, blocks - 1, n);
      PhaseOfLength(p, blocks - 1);
      StartsInBlock(p, n, Length(p, blocks - 1), p);
    }
  }

  lemma CombVariance(p: nat, blocks: nat)
    requires p >= 2
    ensures Autocovariance(Comb(p, Length(p, blocks)), 0) <= 2.0 * blocks as real
  {
    CombSquares(p, Length(p, blocks), Length(p, blocks));
    StartsAtMost(p, blocks, Length(p, blocks));
  }

  /** Enough blocks to push the scaled factor below minus margin times the number of blocks. */
  lemma EnoughBlocks(s: real, margin: real) returns (blocks: nat)
    requires s > margin >= 0.0
    ensures blocks > 0 && 2.0 - Times(s, blocks as real - 2.0) < -Times(margin, blocks as real)
  {
    var gap := s - margin;
    var x := Ratio(2.0 * s + 2.0, gap);
    blocks := MaxReal(x, 0.0).Floor + 1;
    var count := blocks as real;
    ProductPositive(gap, count - x);
    assert Times(gap, count - x) == Times(gap, count) - (2.0 * s + 2.0);
    assert Times(gap, count) == Times(s, count) - Times(margin, count);
    assert Times(s, count - 2.0) == Times(s, count) - 2.0 * s;
  }

  /** What the comb's factor is. */
  lemma CombFactor(maxLag: nat, blocks: nat, q: real) returns (samples: seq<real>)
    requires maxLag >= 1 && q > (maxLag + 1) as real && blocks > 0
    ensures |samples| > maxLag && LagCount(samples, maxLag) == maxLag && 0.0 < Autocovariance(samples, 0) <= 2.0 * blocks as real
    ensures var r := LoVarianceInflation(RawCoefficients(samples, maxLag), Some(q));
            r.Some? && Scaled(Autocovariance(samples, 0), q, r.value)
                       <= 2.0 - Times(q - (maxLag + 1) as real, blocks as real - 2.0)
  {
    var p := maxLag + 1;
    samples := Comb(p, Length(p, blocks));
    CombHasZeroMean(p, blocks);
    FirstSquareCounts(samples, |samples|);
    CombVariance(p, blocks);
    CombIsBelow(p, blocks, q);
    InflationShape(samples, maxLag, Some(q));
    ScaledInflation(Autocovariances(samples), Autocovariance(samples, 0),
                    Finite(RawCoefficients(samples, maxLag)), q);
  }

  /** A scaled factor below -m times the blocks is a factor below -m / (2q). */
  lemma Unscale(D: real, q: real, x: real, m: real, blocks: real)
    requires 0.0 < D <= 2.0 * blocks && q > 0.0 && m >= 0.0 && Scaled(D, q, x) < -Times(m, blocks)
    ensures Times(q, x) < -m / 2.0
  {
    ProductMonotone(m / 2.0, D, 2.0 * blocks);
    if Times(q, x) >= -m / 2.0 {
      ProductMonotone(D, -m / 2.0, Times(q, x));
    }
  }

  /** For every span above maxLag + 1 a long enough comb has a negative factor. */
  lemma LongSpanFails(maxLag: nat, q: real) returns (samples: seq<real>)
    requires maxLag >= 1 && q > (maxLag + 1) as real
    ensures |samples| > maxLag
    ensures var r := LoVarianceInflation(RawCoefficients(samples, maxLag), Some(q)); r.Some? && r.value < 0.0
  {
    var blocks := EnoughBlocks(q - (maxLag + 1) as real, 0.0);
    samples := CombFactor(maxLag, blocks, q);
    ZeroProduct(0.0, blocks as real);
  }

  /** No sum of m weights exceeds m. */
  lemma {:induction false} WeightTotalAtMost(m: nat, q: real)
    requires q > 0.0
    ensures WeightTotal(m, q) <= m as real
  {
    if m > 0 {
      WeightTotalAtMost(m - 1, q);
      WeightAtMostOne(m, q);
    }
  }

  lemma WeightAtMostOne(lag: nat, q: real)
    requires q > 0.0
    ensures Weight(lag, q) <= 1.0
  {
  }

  /** With the coefficients rounded, as the source has them, the factor still fails for every span so far above
      maxLag + 1 that rounding cannot make up for it. */
  lemma RoundedLongSpanFails(maxLag: nat, q: real) returns (samples: seq<real>)
    requires maxLag >= 1 && q > 0.0 && q - (maxLag + 1) as real > Times(0.000002 * maxLag as real, q)
    ensures |samples| > maxLag
    ensures var r := LoVarianceInflation(RoundAll(RawCoefficients(samples, maxLag)), Some(q)); r.Some? && r.value < 0.0
  {
    var margin := Times(0.000002 * maxLag as real, q);
    ProductNonNegative(0.000002 * maxLag as real, q);
    var blocks := EnoughBlocks(q - (maxLag + 1) as real, margin);
    samples := CombFactor(maxLag, blocks, q);
    var r := LoVarianceInflation(RawCoefficients(samples, maxLag), Some(q)).value;
    Unscale(Autocovariance(samples, 0), q, r, margin, blocks as real);
    BelowMargin(q, r, maxLag as real);
    RoundingAtAnySpan(samples, maxLag, q);
  }

  /** Whatever the span, rounding moves the factor by at most L millionths. */
  lemma RoundingAtAnySpan(samples: seq<real>, maxLag: nat, q: real)
    requires q > 0.0
    ensures var raw := LoVarianceInflation(RawCoefficients(samples, maxLag), Some(q));
            var rounded := LoVarianceInflation(RoundAll(RawCoefficients(samples, maxLag)), Some(q));
            (raw.Some? <==> rounded.Some?)
            && (raw.Some? ==> Abs(raw.value - rounded.value) <= 0.000001 * LagCount(samples, maxLag) as real)
  {
    var raw := RawCoefficients(samples, maxLag);
    RoundedAreClose(raw);
    LagsCountUp(samples, maxLag, Some(q));
    WeightedSumsClose(Finite(raw), Finite(RoundAll(raw)), q);
    WeightTotalAtMost(|Finite(raw)|, q);
  }

  lemma BelowMargin(q: real, r: real, m: real)
    requires q > 0.0 && Times(q, r) < -Times(0.000002 * m, q) / 2.0
    ensures r < -0.000001 * m
  {
    assert Times(q, -0.000001 * m) == -Times(0.000002 * m, q) / 2.0;
    if r >= -0.000001 * m {
      ProductMonotone(q, -0.000001 * m, r);
    }
  }

  /** The factor is positive for every long enough return sequence exactly when the span is within the lags. */
  lemma PositiveExactlyWithinLags(maxLag: nat, q: real)
    requires maxLag >= 1 && q > 0.0
    ensures (forall samples: seq<real> :: |samples| > maxLag ==> Positive(samples, maxLag, q))
            <==> q <= (maxLag + 1) as real
  {
    if q <= (maxLag + 1) as real {
      forall samples: seq<real> | |samples| > maxLag
        ensures Positive(samples, maxLag, q)
      {
        InflationPositive(samples, maxLag, Some(q));
      }
    } else {
      var samples := LongSpanFails(maxLag, q);
    }
  }
}
