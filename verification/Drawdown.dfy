/** Maximum drawdown: the dashboard's and the backend's running-peak loops, and the pairwise definition. */
module Drawdown {
  import opened Numbers

  /** The highest value so far. */
  function Peak(values: seq<real>): real
    requires |values| > 0
  {
    var n := |values| - 1;
    if n == 0 then values[0] else MaxReal(Peak(values[..n]), values[n])
  }

  function Drop(peak: real, value: real): real {
    if peak > 0.0 then Ratio(peak - value, peak) else 0.0
  }

  /** The largest fall of any value below the highest one up to it. */
  function WorstDrop(values: seq<real>): (m: real)
    ensures m >= 0.0
  {
    if |values| == 0 then 0.0
    else MaxReal(WorstDrop(values[..|values| - 1]), Drop(Peak(values), values[|values| - 1]))
  }

  function FiniteValues(values: seq<Option<real>>): seq<real> {
    if |values| == 0 then []
    else
      var before, v := FiniteValues(values[..|values| - 1]), values[|values| - 1];
      if v.Some? then before + [v.value] else before
  }

  /** The dashboard loop; `None` among the values is one that is not finite, and a `None` result is `null`. */
  method MaxDrawdownRatio(timeline: seq<Option<real>>) returns (r: Option<real>)
    ensures r == if |timeline| > 1 then Some(WorstDrop(FiniteValues(timeline))) else None
  {
    var peak: Option<real> := None;
    var maxDrawdown := 0.0;
    for i := 0 to |timeline|
      invariant var seen := FiniteValues(timeline[..i]);
                maxDrawdown == WorstDrop(seen) && peak == if |seen| == 0 then None else Some(Peak(seen))
    {
      assert timeline[..i + 1][..i] == timeline[..i];
      if timeline[i].None? {
        continue;
      }
      var value := timeline[i].value;
      ghost var seen := FiniteValues(timeline[..i]);
      assert (seen + [value])[..|seen|] == seen;
      var high := if peak.None? then value else MaxReal(peak.value, value);
      peak := Some(high);
      if high > 0.0 {
        maxDrawdown := MaxReal(maxDrawdown, Ratio(high - value, high));
      }
    }
    assert timeline[..|timeline|] == timeline;
    return if |timeline| > 1 then Some(maxDrawdown) else None;
  }

  /** The backend loop: the same fall, negative and rounded; `None` comes with a warning. */
  method CalculateMaxDrawdownRatio(curve: seq<real>) returns (r: Option<real>)
    ensures r == if |curve| < 2 then None else Some(ToFixed6(-WorstDrop(curve)))
  {
    if |curve| < 2 {
      return None;
    }
    var peak, maxDrawdown := curve[0], 0.0;
    for i := 0 to |curve|
      invariant maxDrawdown == -WorstDrop(curve[..i])
      invariant peak == if i == 0 then curve[0] else Peak(curve[..i])
    {
      assert curve[..i + 1][..i] == curve[..i];
      var value := curve[i];
      peak := MaxReal(peak, value);
      if peak > 0.0 {
        NegatedRatio(peak - value, peak);
        maxDrawdown := MinReal(maxDrawdown, Ratio(value - peak, peak));
      }
    }
    assert curve[..|curve|] == curve;
    return Some(ToFixed6(maxDrawdown));
  }

  lemma NegatedRatio(x: real, y: real)
    requires y != 0.0
    ensures Ratio(-x, y) == -Ratio(x, y)
  {
  }

  /** A curve as the dashboard sees it. */
  function AsTimeline(curve: seq<real>): seq<Option<real>> {
    seq(|curve|, i requires 0 <= i < |curve| => Some(curve[i]))
  }

  /** On one curve the two results differ only in sign and in the backend's rounding. */
  lemma VersionsAgree(curve: seq<real>, dashboard: real, backend: real)
    requires dashboard == WorstDrop(FiniteValues(AsTimeline(curve))) && backend == ToFixed6(-WorstDrop(curve))
    ensures Abs(dashboard + backend) <= 0.0000005
  {
    AllFinite(AsTimeline(curve), curve);
  }

  lemma {:induction false} AllFinite(values: seq<Option<real>>, curve: seq<real>)
    requires |values| == |curve| && forall i :: 0 <= i < |curve| ==> values[i] == Some(curve[i])
    ensures FiniteValues(values) == curve
  {
    if |curve| > 0 {
      var n := |curve| - 1;
      AllFinite(values[..n], curve[..n]);
      assert curve == curve[..n] + [curve[n]];
    }
  }

  /** A value that is not finite is skipped wherever it stands, and every other value is kept in its place. */
  lemma OnlyFiniteValuesCount(front: seq<Option<real>>, value: Option<real>, back: seq<Option<real>>)
    ensures FiniteValues(front + [value] + back) ==
            FiniteValues(front) + (if value.Some? then [value.value] else []) + FiniteValues(back)
  {
    FiniteConcat(front + [value], back);
    FiniteConcat(front, [value]);
    assert [value][..0] == [];
  }

  lemma {:induction false} FiniteConcat(a: seq<Option<real>>, b: seq<Option<real>>)
    ensures FiniteValues(a + b) == FiniteValues(a) + FiniteValues(b)
  {
    if |b| == 0 {
      assert a + b == a;
    } else {
      FiniteConcat(a, b[..|b| - 1]);
      assert (a + b)[..|a + b| - 1] == a + b[..|b| - 1];
    }
  }

  // ----- The pairwise definition ---------------------------------------------------------------------

  /** m is the largest fall from any positive value to the same or a later one, or zero when there is none. */
  ghost predicate LargestPairDrop(values: seq<real>, m: real) {
    && (forall i, j :: 0 <= i <= j < |values| && values[i] > 0.0 ==> Drop(values[i], values[j]) <= m)
    && (m == 0.0 || exists i, j :: 0 <= i <= j < |values| && values[i] > 0.0 && Drop(values[i], values[j]) == m)
  }

  lemma {:induction false} PeakIsHighest(values: seq<real>) returns (k: nat)
    requires |values| > 0
    ensures k < |values| && values[k] == Peak(values) && forall i :: 0 <= i < |values| ==> values[i] <= Peak(values)
  {
    var n := |values| - 1;
    if n == 0 {
      k := 0;
    } else {
      k := PeakIsHighest(values[..n]);
      if values[n] >= Peak(values[..n]) {
        k := n;
      }
    }
  }

  /** From a higher starting point a fall to a non-negative value is at least as large. */
  lemma HigherStartFallsFurther(low: real, high: real, value: real)
    requires 0.0 < low <= high && value >= 0.0
    ensures Drop(low, value) <= Drop(high, value) <= 1.0
  {
    var a, b := Ratio(low - value, low), Ratio(high - value, high);
    assert (1.0 - a) * low == value == (1.0 - b) * high;
    if b > 1.0 {
      ProductPositive(b - 1.0, high);
    }
    assert (1.0 - b) * high - (1.0 - a) * low == (1.0 - b) * (high - low) + (a - b) * low;
    if b <= 1.0 {
      ProductNonNegative(1.0 - b, high - low);
    }
    if a > b {
      ProductPositive(a - b, low);
    }
  }

  /** On a non-negative curve the running peak finds the largest fall over all pairs, and it is at most everything. */
  lemma {:induction false} RunningPeakFindsLargestPair(values: seq<real>)
    requires forall i :: 0 <= i < |values| ==> values[i] >= 0.0
    ensures LargestPairDrop(values, WorstDrop(values)) && WorstDrop(values) <= 1.0
  {
    if |values| > 0 {
      var n := |values| - 1;
      var before := values[..n];
      RunningPeakFindsLargestPair(before);
      var k := PeakIsHighest(values);
      var m := WorstDrop(values);
      forall i, j | 0 <= i <= j < |values| && values[i] > 0.0
        ensures Drop(values[i], values[j]) <= m
      {
        if j < n {
          assert before[i] == values[i] && before[j] == values[j];
        } else {
          HigherStartFallsFurther(values[i], values[k], values[n]);
        }
      }
      if values[k] > 0.0 {
        HigherStartFallsFurther(values[k], values[k], values[n]);
      }
      if m == WorstDrop(before) && m != 0.0 {
        var i, j :| 0 <= i <= j < |before| && before[i] > 0.0 && Drop(before[i], before[j]) == m;
        assert values[i] == before[i] && values[j] == before[j];
      } else if m != 0.0 {
        assert Drop(values[k], values[n]) == m;
      }
    }
  }

  /** Below zero the two definitions part: the running peak misses the larger fall from the lower start. */
  lemma NegativeValuesDiffer(low: real)
    requires low < 0.0
    ensures WorstDrop([1.0, 2.0, low]) == 1.0 - low / 2.0 && Drop(1.0, low) == 1.0 - low
    ensures !LargestPairDrop([1.0, 2.0, low], WorstDrop([1.0, 2.0, low]))
  {
    var v := [1.0, 2.0, low];
    assert v[..2] == [1.0, 2.0] && v[..2][..1] == [1.0] && v[..1][..0] == [];
    assert Peak(v[..2]) == 2.0 && Peak(v) == 2.0;
    assert Drop(1.0, 1.0) == 0.0 && Drop(2.0, 2.0) == 0.0;
    assert WorstDrop([1.0]) == 0.0 && WorstDrop(v[..2]) == 0.0;
    HalfDrop(low);
    assert Drop(v[0], v[2]) > WorstDrop(v);
  }

  lemma HalfDrop(low: real)
    ensures Drop(2.0, low) == 1.0 - low / 2.0 && Drop(1.0, low) == 1.0 - low
  {
  }

  /** No value of the curve is below the bound. */
  predicate AtLeastAll(values: seq<real>, bound: real) {
    forall i :: 0 <= i < |values| ==> values[i] >= bound
  }

  /** The running peak finds the largest fall on every curve above a bound exactly when the bound is not negative. */
  lemma LargestPairExactlyAboveZero(bound: real)
    ensures (forall values: seq<real> :: AtLeastAll(values, bound) ==> LargestPairDrop(values, WorstDrop(values)))
            <==> bound >= 0.0
  {
    if bound >= 0.0 {
      forall values: seq<real> | AtLeastAll(values, bound)
        ensures LargestPairDrop(values, WorstDrop(values))
      {
        RunningPeakFindsLargestPair(values);
      }
    } else {
      NegativeValuesDiffer(bound);
      assert AtLeastAll([1.0, 2.0, bound], bound);
    }
  }

  // ----- Returns between ticks ---------------------------------------------------------------------------

  /** The curve the backend measures: the starting net worth in front unless the timeline already starts there. */
  function PerformanceCurve(initial: Option<real>, timeline: seq<real>): seq<real> {
    if initial.None? then timeline
    else if |timeline| > 0 && timeline[0] == initial.value then timeline
    else [initial.value] + timeline
  }

  /** Putting the starting net worth in front adds exactly the falls below it to the timeline's own drawdown. */
  lemma StartAddsItsFalls(initial: real, timeline: seq<real>)
    requires initial > 0.0 && forall i :: 0 <= i < |timeline| ==> timeline[i] >= 0.0
    ensures var m := WorstDrop(PerformanceCurve(Some(initial), timeline));
            && m >= WorstDrop(timeline) && (forall j :: 0 <= j < |timeline| ==> m >= Drop(initial, timeline[j]))
            && (m == WorstDrop(timeline) || exists j :: 0 <= j < |timeline| && m == Drop(initial, timeline[j]))
  {
    var curve := PerformanceCurve(Some(initial), timeline);
    var m, own := WorstDrop(curve), WorstDrop(timeline);
    RunningPeakFindsLargestPair(curve);
    RunningPeakFindsLargestPair(timeline);
    if curve == timeline {
      forall j | 0 <= j < |timeline|
        ensures m >= Drop(initial, timeline[j])
      {
        assert Drop(timeline[0], timeline[j]) <= m;
      }
    } else {
      StartInFront(initial, timeline, own, m);
    }
  }

  lemma StartInFront(initial: real, timeline: seq<real>, own: real, m: real)
    requires initial > 0.0 && forall i :: 0 <= i < |timeline| ==> timeline[i] >= 0.0
    requires own >= 0.0 && LargestPairDrop(timeline, own) && LargestPairDrop([initial] + timeline, m) && m >= 0.0
    ensures m >= own && forall j :: 0 <= j < |timeline| ==> m >= Drop(initial, timeline[j])
    ensures m == own || exists j :: 0 <= j < |timeline| && m == Drop(initial, timeline[j])
  {
    var curve := [initial] + timeline;
    NoEarlierFallIsLarger(initial, timeline, own, m);
    forall j | 0 <= j < |timeline|
      ensures m >= Drop(initial, timeline[j])
    {
      assert curve[0] == initial && curve[j + 1] == timeline[j];
      assert Drop(curve[0], curve[j + 1]) <= m;
    }
    if m > own {
      var i, j :| 0 <= i <= j < |curve| && curve[i] > 0.0 && Drop(curve[i], curve[j]) == m;
      FallIsFromStart(initial, timeline, own, m, i, j);
    }
  }

  lemma NoEarlierFallIsLarger(initial: real, timeline: seq<real>, own: real, m: real)
    requires LargestPairDrop(timeline, own) && LargestPairDrop([initial] + timeline, m) && m >= 0.0
    ensures m >= own
  {
    var curve := [initial] + timeline;
    if own != 0.0 {
      var i, j :| 0 <= i <= j < |timeline| && timeline[i] > 0.0 && Drop(timeline[i], timeline[j]) == own;
      assert curve[i + 1] == timeline[i] && curve[j + 1] == timeline[j];
      assert Drop(curve[i + 1], curve[j + 1]) <= m;
    }
  }

  lemma FallIsFromStart(initial: real, timeline: seq<real>, own: real, m: real, i: nat, j: nat)
    requires own >= 0.0 && LargestPairDrop(timeline, own) && m > own && i <= j <= |timeline|
    requires var curve := [initial] + timeline; curve[i] > 0.0 && Drop(curve[i], curve[j]) == m
    ensures 0 < j && m == Drop(initial, timeline[j - 1])
  {
    var curve := [initial] + timeline;
    forall a, b | 1 <= a <= b < |curve| && curve[a] > 0.0
      ensures Drop(curve[a], curve[b]) <= own
    {
      assert curve[a] == timeline[a - 1] && curve[b] == timeline[b - 1];
    }
    NoFallFromItself(initial);
  }

  lemma NoFallFromItself(x: real)
    requires x > 0.0
    ensures Drop(x, x) == 0.0
  {
  }

  function TickReturnsOf(curve: seq<real>): seq<real> {
    if |curve| < 2 then []
    else
      var n := |curve| - 1;
      var before := TickReturnsOf(curve[..n]);
      if curve[n - 1] > 0.0 then before + [Ratio(curve[n] - curve[n - 1], curve[n - 1])] else before
  }

  method TickReturns(curve: seq<real>) returns (ticks: seq<real>)
    ensures ticks == TickReturnsOf(curve)
  {
    ticks := [];
    var index := 1;
    while index < |curve|
      invariant index >= 1 && (index <= |curve| || |curve| == 0)
      invariant ticks == if |curve| == 0 then [] else TickReturnsOf(curve[..index])
    {
      assert curve[..index + 1][..index] == curve[..index];
      var previous, current := curve[index - 1], curve[index];
      if previous > 0.0 {
        ticks := ticks + [Ratio(current - previous, previous)];
      }
      index := index + 1;
    }
    assert |curve| > 0 ==> curve[..|curve|] == curve;
  }

  function Compounded(start: real, ticks: seq<real>): real {
    if |ticks| == 0 then start
    else Times(Compounded(start, ticks[..|ticks| - 1]), 1.0 + ticks[|ticks| - 1])
  }

  /** Compounding the returns of a positive curve from its first value ends at its last. */
  lemma {:induction false} ReturnsCompoundToLast(curve: seq<real>)
    requires |curve| > 0 && forall i :: 0 <= i < |curve| - 1 ==> curve[i] > 0.0
    ensures |TickReturnsOf(curve)| == |curve| - 1
    ensures Compounded(curve[0], TickReturnsOf(curve)) == curve[|curve| - 1]
  {
    var n := |curve| - 1;
    if n > 0 {
      var before := TickReturnsOf(curve[..n]);
      var tick := Ratio(curve[n] - curve[n - 1], curve[n - 1]);
      ReturnsCompoundToLast(curve[..n]);
      assert (before + [tick])[..|before|] == before;
      Distribute(1.0, tick, curve[n - 1]);
      assert Times(curve[n - 1], 1.0 + tick) == Times(1.0 + tick, curve[n - 1]);
    }
  }
}
