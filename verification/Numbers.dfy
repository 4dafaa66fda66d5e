/** Exact-real models of the two rounding idioms the source uses, and the option type its `null`s become. */
module Numbers {

  datatype Option<+T> = None | Some(value: T)

  function MinReal(a: real, b: real): real {
    if a <= b then a else b
  }

  function MaxReal(a: real, b: real): real {
    if a >= b then a else b
  }

  function Abs(x: real): real {
    if x < 0.0 then -x else x
  }

  /** `Math.round`: the nearest integer, ties toward positive infinity. */
  function MathRound(x: real): (r: int)
    ensures r as real - 0.5 <= x < r as real + 0.5
  {
    (x + 0.5).Floor
  }

  /** `Number(x.toFixed(6))`: six decimals, ties away from zero. */
  function ToFixed6(x: real): (r: real)
    ensures Abs(r - x) <= 0.0000005
  {
    if x < 0.0 then
      -((0.5 - x * 1000000.0).Floor as real / 1000000.0)
    else
      (x * 1000000.0 + 0.5).Floor as real / 1000000.0
  }

  /** `Math.round(x * 1_000_000) / 1_000_000`: six decimals, ties toward positive infinity. */
  function RoundMillionth(x: real): (r: real)
    ensures Abs(r - x) <= 0.0000005
  {
    MathRound(x * 1000000.0) as real / 1000000.0
  }

  /** The nearest multiple of a millionth; of two that are equally near the one further from zero. */
  lemma ToFixed6IsNearest(x: real) returns (n: int)
    ensures ToFixed6(x) == n as real / 1000000.0 && Abs(n as real - x * 1000000.0) <= 0.5
    ensures Abs(n as real - x * 1000000.0) == 0.5 ==> Abs(n as real) > Abs(x * 1000000.0)
  {
    n := if x < 0.0 then -(0.5 - x * 1000000.0).Floor else (x * 1000000.0 + 0.5).Floor;
  }

  /** The nearest multiple of a millionth; of two that are equally near the higher one. */
  lemma RoundMillionthIsNearest(x: real) returns (n: int)
    ensures RoundMillionth(x) == n as real / 1000000.0 && n as real - 0.5 <= x * 1000000.0 < n as real + 0.5
  {
    n := MathRound(x * 1000000.0);
  }

  function Times(x: real, y: real): real {
    x * y
  }

  function Square(x: real): (r: real)
    ensures r >= 0.0
  {
    Times(x, x)
  }

  function Ratio(x: real, y: real): (r: real)
    requires y != 0.0
    ensures Times(r, y) == x
  {
    x / y
  }

  lemma ProductNonNegative(x: real, y: real)
    requires x >= 0.0 && y >= 0.0
    ensures Times(x, y) >= 0.0
  {
  }

  lemma ProductPositive(x: real, y: real)
    requires x > 0.0 && y > 0.0
    ensures Times(x, y) > 0.0
  {
  }

  lemma SquarePositive(x: real)
    requires x != 0.0
    ensures Square(x) > 0.0
  {
    SquareOfNegation(x);
    var y := Abs(x);
    ProductPositive(y, y);
  }

  lemma SquareOfNegation(x: real)
    ensures Square(-x) == Square(x)
  {
  }

  /** Multiplication distributes over addition on either side. */
  lemma Distribute(x: real, y: real, z: real)
    ensures Times(x + y, z) == Times(x, z) + Times(y, z)
    ensures Times(z, x + y) == Times(z, x) + Times(z, y)
  {
  }

  lemma ProductMonotone(s: real, x: real, y: real)
    requires s >= 0.0 && x <= y
    ensures Times(s, x) <= Times(s, y) && Times(x, s) <= Times(y, s)
  {
  }

  lemma ZeroProduct(x: real, y: real)
    requires x == 0.0
    ensures Times(x, y) == 0.0
  {
  }

  /** `values.reduce((sum, value) => sum + value, 0)`. */
  function Sum(xs: seq<real>): real {
    if |xs| == 0 then 0.0 else Sum(xs[..|xs| - 1]) + xs[|xs| - 1]
  }

  function Average(xs: seq<real>): real
    requires |xs| > 0
  {
    Ratio(Sum(xs), |xs| as real)
  }

  /** How far every value lies from the average. */
  function Deviations(samples: seq<real>): (d: seq<real>)
    requires |samples| > 0
    ensures |d| == |samples|
  {
    seq(|samples|, i requires 0 <= i < |samples| => samples[i] - Average(samples))
  }
}
