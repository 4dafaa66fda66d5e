/** What the regime classifier computes, told by snapshots, prices and counts. */
module RegimeMeaning {
  import opened Markets
  import opened Numbers
  import opened Sequences
  import opened MarketRegime

  // ----- Returns ----------------------------------------------------------------------------------------

  /** The rounded relative change from the first price to the last; a zero first price makes it infinite or not a number. */
  predicate IsReturn(x: Num, first: nat, last: nat) {
    && (first == 0 ==> x == if last == 0 then NaN else Infinite)
    && (first > 0 ==>
          && x.Finite? && Abs(first as real * (1.0 + x.value) - last as real) <= first as real * 0.0000005
          && (x.value > 0.0 ==> last > first) && (x.value < 0.0 ==> last < first))
  }

  lemma RoundedSign(x: real)
    ensures (RoundMillionth(x) > 0.0 ==> x > 0.0) && (RoundMillionth(x) < 0.0 ==> x < 0.0)
  {
    if x <= 0.0 {
      RoundMonotone(x, 0.0);
    }
    if x >= 0.0 {
      RoundMonotone(0.0, x);
    }
  }

  lemma ScaledDistance(n: real, v: real, d: real, x: real)
    requires n > 0.0 && Times(x, n) == d && Abs(v - x) <= 0.0000005
    ensures Abs(n * (1.0 + v) - (n + d)) <= n * 0.0000005
  {
    ProductMonotone(n, v, x + 0.0000005);
    ProductMonotone(n, x - 0.0000005, v);
    assert n * (1.0 + v) == n + Times(n, v) && Times(n, x) == d;
    assert Times(n, x + 0.0000005) == Times(n, x) + n * 0.0000005 && Times(n, x - 0.0000005) == Times(n, x) - n * 0.0000005;
  }

  lemma RatioIsReturn(first: nat, last: nat)
    ensures IsReturn(ReturnRatio(first, last), first, last)
  {
    if first > 0 {
      var x := Ratio((last - first) as real, first as real);
      ScaledDistance(first as real, RoundMillionth(x), (last - first) as real, x);
      RoundedSign(x);
      SignOfRatio((last - first) as real, first as real);
    }
  }

  lemma SignOfRatio(x: real, y: real)
    requires y > 0.0
    ensures (Ratio(x, y) > 0.0 <==> x > 0.0) && (Ratio(x, y) < 0.0 <==> x < 0.0)
  {
    var r := Ratio(x, y);
    ZeroProduct(0.0, y);
    if r > 0.0 {
      ProductPositive(r, y);
    } else if r < 0.0 {
      ProductPositive(-r, y);
      assert Times(-r, y) == -Times(r, y);
    }
  }

  /** The group holds every snapshot of one symbol in the window, as often as it was given, and nothing else. */
  ghost predicate WholeGroup(o: Options, group: seq<Snapshot>, market: Market, symbol: string) {
    forall s :: multiset(group)[s] ==
      if o.windowStart <= s.observedAt <= o.windowEnd && s.market == market && s.symbol == symbol then multiset(o.snapshots)[s] else 0
  }

  lemma InWindowIsWhole(o: Options, group: seq<Snapshot>, first: Snapshot)
    requires multiset(group) == multiset(InWindow(o, KeyOf(first)))
    ensures WholeGroup(o, group, first.market, first.symbol)
  {
    var key := KeyOf(first);
    forall s
      ensures multiset(group)[s] ==
        if o.windowStart <= s.observedAt <= o.windowEnd && s.market == first.market && s.symbol == first.symbol
        then multiset(o.snapshots)[s] else 0
    {
      KeyDecides(s, first);
      SelectCounts(Select(o.snapshots, Inside(o.windowStart, o.windowEnd)), KeyIs(key), s);
      SelectCounts(o.snapshots, Inside(o.windowStart, o.windowEnd), s);
    }
  }

  /** The return tells of the group's market and symbol, its ends, its size and the change of price between the ends. */
  predicate Tells(r: SymbolReturn, group: seq<Snapshot>) {
    && |group| > 0
    && var first, last := group[0], group[|group| - 1];
       && r.market == first.market && r.symbol == first.symbol && r.snapshotCount == |group|
       && r.firstObservedAt == first.observedAt && r.lastObservedAt == last.observedAt
       && r.firstPriceKrw == first.lastPriceKrw && r.lastPriceKrw == last.lastPriceKrw
       && IsReturn(r.returnRatio, first.lastPriceKrw, last.lastPriceKrw)
  }

  lemma GroupIsTold(group: seq<Snapshot>)
    requires |group| > 0
    ensures Tells(ToSymbolReturn(group), group)
  {
    RatioIsReturn(group[0].lastPriceKrw, group[|group| - 1].lastPriceKrw);
  }

  predicate InTimeOrder(group: seq<Snapshot>) {
    forall i, j :: 0 <= i < j < |group| ==> group[i].observedAt <= group[j].observedAt
  }

  /** Every return is about one symbol: its earliest and its latest snapshot in the window, in time order, the count of all of
      them, which is at least the minimum, and the change of price between the two. */
  lemma ReturnMeaning(o: Options, collate: Collation, k: nat) returns (group: seq<Snapshot>)
    requires k < |SymbolReturns(o, collate)|
    ensures |group| >= o.minSnapshotsPerSymbol && InTimeOrder(group) && Tells(SymbolReturns(o, collate)[k], group)
    ensures WholeGroup(o, group, group[0].market, group[0].symbol)
  {
    group := ReturnGroup(o, collate, k);
    InWindowIsWhole(o, group, group[0]);
    GroupIsTold(group);
  }

  /** The returns stand by market, KR first, and by the collation order of their symbols within a market. */
  lemma ReturnsSorted(o: Options, collate: Collation, i: nat, j: nat)
    requires i < j < |SymbolReturns(o, collate)|
    ensures var a, b := SymbolReturns(o, collate)[i], SymbolReturns(o, collate)[j];
            && !(a.market == US && b.market == KR)
            && (a.market == b.market ==> collate(a.symbol) <= collate(b.symbol))
  {
    var w := Windowed(o, collate);
    ReturnOrderIsPreorder(collate);
    SortWithFacts(ReturnsOf(w, FirstKeys(w), o.minSnapshotsPerSymbol), ReturnOrder(collate));
    assert ReturnOrder(collate)(SymbolReturns(o, collate)[i], SymbolReturns(o, collate)[j]);
  }

  // ----- Ratios and labels --------------------------------------------------------------------------------

  predicate Rises(r: SymbolReturn) {
    r.returnRatio.Infinite? || (r.returnRatio.Finite? && r.returnRatio.value > 0.0)
  }

  predicate Falls(r: SymbolReturn) {
    r.returnRatio.Finite? && r.returnRatio.value < 0.0
  }

  predicate Stays(r: SymbolReturn) {
    r.returnRatio.Finite? && r.returnRatio.value == 0.0
  }

  /** x is the rounded share of count in n. */
  predicate IsShare(x: real, count: nat, n: nat) {
    Abs(x * n as real - count as real) <= 0.0000005 * n as real
  }

  predicate AllFinite(rs: seq<SymbolReturn>) {
    forall i :: 0 <= i < |rs| ==> rs[i].returnRatio.Finite?
  }

  function Values(rs: seq<SymbolReturn>): (vs: seq<real>)
    requires AllFinite(rs)
    ensures |vs| == |rs|
  {
    seq(|rs|, i requires 0 <= i < |rs| => rs[i].returnRatio.value)
  }

  /** x is the rounded mean of the returns; one that is not a number spoils it, else an infinite one does. */
  predicate IsMean(x: Num, rs: seq<SymbolReturn>) {
    && (x.NaN? <==> exists i :: 0 <= i < |rs| && rs[i].returnRatio.NaN?)
    && (x.Finite? <==> AllFinite(rs))
    && (x.Finite? ==> Abs(x.value * |rs| as real - Sum(Values(rs))) <= 0.0000005 * |rs| as real)
  }

  lemma {:induction false} TotalMeaning(rs: seq<SymbolReturn>)
    ensures TotalReturn(rs).NaN? <==> exists i :: 0 <= i < |rs| && rs[i].returnRatio.NaN?
    ensures TotalReturn(rs).Finite? <==> AllFinite(rs)
    ensures AllFinite(rs) ==> TotalReturn(rs).value == Sum(Values(rs))
  {
    if |rs| > 0 {
      var front, last := rs[..|rs| - 1], rs[|rs| - 1];
      TotalMeaning(front);
      assert forall i :: 0 <= i < |front| ==> front[i] == rs[i];
      assert rs[|front|] == last;
      if AllFinite(rs) {
        assert Values(rs)[..|front|] == Values(front);
      }
    }
  }

  lemma RoundedShare(count: nat, n: nat)
    requires n > 0
    ensures IsShare(RoundMillionth(Ratio(count as real, n as real)), count, n)
  {
    RoundedProduct(Ratio(count as real, n as real), n as real, count as real);
  }

  lemma RoundedProduct(x: real, n: real, product: real)
    requires n > 0.0 && Times(x, n) == product
    ensures Abs(RoundMillionth(x) * n - product) <= 0.0000005 * n
  {
    var v := RoundMillionth(x);
    ProductMonotone(n, v, x + 0.0000005);
    ProductMonotone(n, x - 0.0000005, v);
    assert Times(x + 0.0000005, n) == product + 0.0000005 * n && Times(x - 0.0000005, n) == product - 0.0000005 * n;
    assert v * n == Times(v, n);
  }

  lemma MeanMeaning(rs: seq<SymbolReturn>)
    requires |rs| > 0
    ensures IsMean(RoundNum(MeanReturn(rs)), rs)
  {
    TotalMeaning(rs);
    if AllFinite(rs) {
      RoundedProduct(Ratio(Sum(Values(rs)), |rs| as real), |rs| as real, Sum(Values(rs)));
    }
  }

  /** The four ratios of a classification. */
  lemma RatiosMeaning(rs: seq<SymbolReturn>)
    requires |rs| > 0
    ensures IsMean(RatiosOf(rs).averageReturn, rs)
    ensures IsShare(RatiosOf(rs).advancing, |set i: nat | i < |rs| && Rises(rs[i])|, |rs|)
    ensures IsShare(RatiosOf(rs).declining, |set i: nat | i < |rs| && Falls(rs[i])|, |rs|)
    ensures IsShare(RatiosOf(rs).flat, |set i: nat | i < |rs| && Stays(rs[i])|, |rs|)
  {
    MeanMeaning(rs);
    Share(rs, Advancing, set i: nat | i < |rs| && Rises(rs[i]));
    Share(rs, Declining, set i: nat | i < |rs| && Falls(rs[i]));
    Share(rs, Flat, set i: nat | i < |rs| && Stays(rs[i]));
  }

  lemma Share(rs: seq<SymbolReturn>, p: SymbolReturn -> bool, places: set<nat>)
    requires |rs| > 0 && forall i: nat :: i in places <==> i < |rs| && p(rs[i])
    ensures IsShare(RoundMillionth(RatioOf(rs, p)), |places|, |rs|)
  {
    SelectSize(rs, p);
    assert Places(rs, p) == places;
    RoundedShare(|places|, |rs|);
  }

  /** A classification without enough returns has no ratios; else its label is decided by them and the thresholds. */
  lemma LabelMeaning(o: Options, collate: Collation)
    requires ValidOptions(o)
    ensures var c, t := Classified(o, collate), o.thresholds;
            var enough := |SymbolReturns(o, collate)| >= o.minSymbols;
            && c.symbolReturns == SymbolReturns(o, collate)
            && (c.regime == InsufficientData <==> !enough) && (c.ratios.Some? <==> enough)
            && (enough ==>
                  var r := c.ratios.value;
                  var m := r.averageReturn;
                  && r == RatiosOf(c.symbolReturns)
                  && (c.regime == Bull <==> (m.Infinite? || (m.Finite? && m.value >= t.bullReturn)) && r.advancing >= t.breadth)
                  && (c.regime == Bear <==>
                        c.regime != Bull && m.Finite? && m.value <= t.bearReturn && r.declining >= t.breadth)
                  && (c.regime == Sideways <==>
                        c.regime != Bull && c.regime != Bear && m.Finite? && Abs(m.value) <= t.sidewaysAbsReturn))
            && c.reason == (match c.regime
                            case Bull => "POSITIVE_RETURN_AND_BREADTH"
                            case Bear => "NEGATIVE_RETURN_AND_BREADTH"
                            case Sideways => "LOW_ABSOLUTE_AVERAGE_RETURN"
                            case Mixed => "DIRECTION_OR_BREADTH_MIXED"
                            case InsufficientData => "INSUFFICIENT_CLASSIFIABLE_SYMBOLS")
  {
  }

  // ----- Prices decide labels ---------------------------------------------------------------------------------

  /** Two snapshots of one symbol in the window, the second no earlier than the first. */
  predicate Later(o: Options, s: Snapshot, t: Snapshot) {
    && s in o.snapshots && t in o.snapshots && s.market == t.market && s.symbol == t.symbol
    && o.windowStart <= s.observedAt <= t.observedAt <= o.windowEnd
  }

  ghost predicate NoPriceRose(o: Options) {
    forall s, t :: Later(o, s, t) ==> t.lastPriceKrw <= s.lastPriceKrw
  }

  ghost predicate NoPriceFell(o: Options) {
    forall s, t :: Later(o, s, t) ==> t.lastPriceKrw >= s.lastPriceKrw
  }

  lemma EndsAreLater(o: Options, group: seq<Snapshot>, market: Market, symbol: string)
    requires |group| > 0 && WholeGroup(o, group, market, symbol) && group[0].observedAt <= group[|group| - 1].observedAt
    ensures Later(o, group[0], group[|group| - 1])
  {
    assert group[0] in multiset(group) && group[|group| - 1] in multiset(group);
    assert multiset(o.snapshots)[group[0]] > 0 && multiset(o.snapshots)[group[|group| - 1]] > 0;
  }

  lemma {:induction false} SumAtMost(vs: seq<real>, bound: real)
    requires forall i :: 0 <= i < |vs| ==> vs[i] <= bound
    ensures Sum(vs) <= Times(|vs| as real, bound)
  {
    if |vs| == 0 {
      ZeroProduct(0.0, bound);
    } else {
      SumAtMost(vs[..|vs| - 1], bound);
      assert Times(|vs| as real, bound) == Times((|vs| - 1) as real, bound) + bound;
    }
  }

  lemma {:induction false} SumAtLeast(vs: seq<real>, bound: real)
    requires forall i :: 0 <= i < |vs| ==> vs[i] >= bound
    ensures Sum(vs) >= Times(|vs| as real, bound)
  {
    if |vs| == 0 {
      ZeroProduct(0.0, bound);
    } else {
      SumAtLeast(vs[..|vs| - 1], bound);
      assert Times(|vs| as real, bound) == Times((|vs| - 1) as real, bound) + bound;
    }
  }

  /** A mean of finite returns that are all on one side of a bound is on that side, rounding apart. */
  lemma MeanBound(rs: seq<SymbolReturn>, bound: real)
    requires |rs| > 0 && AllFinite(rs)
    ensures MeanReturn(rs).Finite?
    ensures (forall i :: 0 <= i < |rs| ==> rs[i].returnRatio.value <= bound) ==> MeanReturn(rs).value <= bound
    ensures (forall i :: 0 <= i < |rs| ==> rs[i].returnRatio.value >= bound) ==> MeanReturn(rs).value >= bound
  {
    TotalMeaning(rs);
    var n := |rs| as real;
    if forall i :: 0 <= i < |rs| ==> rs[i].returnRatio.value <= bound {
      SumAtMost(Values(rs), bound);
      Quotient(Sum(Values(rs)), n, bound);
    }
    if forall i :: 0 <= i < |rs| ==> rs[i].returnRatio.value >= bound {
      SumAtLeast(Values(rs), bound);
      Quotient(Sum(Values(rs)), n, bound);
    }
  }

  lemma Quotient(total: real, n: real, bound: real)
    requires n > 0.0
    ensures (total <= Times(n, bound) ==> Ratio(total, n) <= bound) && (total >= Times(n, bound) ==> Ratio(total, n) >= bound)
  {
    var x := Ratio(total, n);
    if x > bound {
      ProductPositive(n, x - bound);
      assert Times(n, x - bound) == total - Times(n, bound);
    }
    if x < bound {
      ProductPositive(n, bound - x);
      assert Times(n, bound - x) == Times(n, bound) - total;
    }
  }

  lemma NoneRises(o: Options, collate: Collation, k: nat)
    requires NoPriceRose(o) && k < |SymbolReturns(o, collate)|
    ensures !Rises(SymbolReturns(o, collate)[k])
  {
    var group := ReturnMeaning(o, collate, k);
    EndsAreLater(o, group, group[0].market, group[0].symbol);
  }

  lemma NoneFalls(o: Options, collate: Collation, k: nat)
    requires NoPriceFell(o) && k < |SymbolReturns(o, collate)|
    ensures !Falls(SymbolReturns(o, collate)[k])
  {
    var group := ReturnMeaning(o, collate, k);
    EndsAreLater(o, group, group[0].market, group[0].symbol);
  }

  lemma NoRiseMean(rs: seq<SymbolReturn>)
    requires |rs| > 0 && forall i :: 0 <= i < |rs| ==> !Rises(rs[i])
    ensures var m := RatiosOf(rs).averageReturn; m.NaN? || (m.Finite? && m.value <= 0.0)
  {
    TotalMeaning(rs);
    if AllFinite(rs) {
      MeanBound(rs, 0.0);
      RoundedSign(MeanReturn(rs).value);
    } else {
      NotInfinite(rs);
    }
  }

  lemma NoFallMean(rs: seq<SymbolReturn>)
    requires |rs| > 0 && forall i :: 0 <= i < |rs| ==> !Falls(rs[i])
    ensures var m := RatiosOf(rs).averageReturn; !m.Finite? || m.value >= 0.0
  {
    TotalMeaning(rs);
    if AllFinite(rs) {
      MeanBound(rs, 0.0);
      RoundedSign(MeanReturn(rs).value);
    }
  }

  /** A window in which no price rose is never bull. */
  lemma NoRiseIsNeverBull(o: Options, collate: Collation)
    requires ValidOptions(o) && o.thresholds.bullReturn > 0.0 && NoPriceRose(o)
    ensures Classified(o, collate).regime != Bull
  {
    var rs := SymbolReturns(o, collate);
    forall k | 0 <= k < |rs|
      ensures !Rises(rs[k])
    {
      NoneRises(o, collate, k);
    }
    if |rs| >= o.minSymbols {
      NoRiseMean(rs);
      LabelMeaning(o, collate);
    }
  }

  lemma NotInfinite(rs: seq<SymbolReturn>)
    requires !AllFinite(rs) && forall i :: 0 <= i < |rs| ==> !rs[i].returnRatio.Infinite?
    ensures TotalReturn(rs).NaN?
  {
    TotalMeaning(rs);
    var i :| 0 <= i < |rs| && !rs[i].returnRatio.Finite?;
    assert rs[i].returnRatio.NaN?;
  }

  /** A window in which no price fell is never bear. */
  lemma NoFallIsNeverBear(o: Options, collate: Collation)
    requires ValidOptions(o) && o.thresholds.bearReturn < 0.0 && NoPriceFell(o)
    ensures Classified(o, collate).regime != Bear
  {
    var rs := SymbolReturns(o, collate);
    forall k | 0 <= k < |rs|
      ensures !Falls(rs[k])
    {
      NoneFalls(o, collate, k);
    }
    if |rs| >= o.minSymbols {
      NoFallMean(rs);
      LabelMeaning(o, collate);
    }
  }

  lemma EveryPlace(rs: seq<SymbolReturn>, p: SymbolReturn -> bool)
    requires |rs| > 0 && forall i :: 0 <= i < |rs| ==> p(rs[i])
    ensures RoundMillionth(RatioOf(rs, p)) == 1.0
  {
    AllSelected(rs, p);
    WholeShare(|rs| as real);
  }

  lemma WholeShare(n: real)
    requires n > 0.0
    ensures Ratio(n, n) == 1.0 && RoundMillionth(1.0) == 1.0
  {
  }

  lemma {:induction false} AllSelected(rs: seq<SymbolReturn>, p: SymbolReturn -> bool)
    requires forall i :: 0 <= i < |rs| ==> p(rs[i])
    ensures Select(rs, p) == rs
  {
    if |rs| > 0 {
      AllSelected(rs[..|rs| - 1], p);
      SplitLast(rs);
    }
  }

  lemma AllRoseLabel(rs: seq<SymbolReturn>, t: Thresholds, least: real)
    requires |rs| > 0 && t.breadth <= 1.0 && t.bullReturn <= RoundMillionth(least) && least > 0.0
    requires forall k :: 0 <= k < |rs| ==> rs[k].returnRatio.Finite? && rs[k].returnRatio.value >= least
    ensures RegimeLabel(RatiosOf(rs), t) == Bull
  {
    EveryPlace(rs, Advancing);
    MeanBound(rs, least);
    RoundMonotone(least, MeanReturn(rs).value);
  }

  lemma AllFellLabel(rs: seq<SymbolReturn>, t: Thresholds, most: real)
    requires |rs| > 0 && t.breadth <= 1.0 && t.bearReturn >= RoundMillionth(most) && most < 0.0 && t.bullReturn > t.bearReturn
    requires forall k :: 0 <= k < |rs| ==> rs[k].returnRatio.Finite? && rs[k].returnRatio.value <= most
    ensures RegimeLabel(RatiosOf(rs), t) == Bear
  {
    EveryPlace(rs, Declining);
    MeanBound(rs, most);
    RoundMonotone(MeanReturn(rs).value, most);
  }

  /** When every classified return is positive and at least a value that rounds to the bull threshold or more, the window is
      bull, whatever breadth up to one is asked for. */
  lemma AllRoseIsBull(o: Options, collate: Collation, least: real)
    requires ValidOptions(o) && o.thresholds.breadth <= 1.0 && o.thresholds.bullReturn <= RoundMillionth(least) && least > 0.0
    requires var rs := SymbolReturns(o, collate);
             |rs| >= o.minSymbols && forall k :: 0 <= k < |rs| ==> rs[k].returnRatio.Finite? && rs[k].returnRatio.value >= least
    ensures Classified(o, collate).regime == Bull
  {
    AllRoseLabel(SymbolReturns(o, collate), o.thresholds, least);
  }

  /** When every classified return is negative and at most a value that rounds to the bear threshold or less, the window is
      bear, unless the bull threshold is no higher than the bear threshold. */
  lemma AllFellIsBear(o: Options, collate: Collation, most: real)
    requires ValidOptions(o) && o.thresholds.breadth <= 1.0 && o.thresholds.bearReturn >= RoundMillionth(most) && most < 0.0
    requires o.thresholds.bullReturn > o.thresholds.bearReturn
    requires var rs := SymbolReturns(o, collate);
             |rs| >= o.minSymbols && forall k :: 0 <= k < |rs| ==> rs[k].returnRatio.Finite? && rs[k].returnRatio.value <= most
    ensures Classified(o, collate).regime == Bear
  {
    AllFellLabel(SymbolReturns(o, collate), o.thresholds, most);
  }

  // ----- Markets ---------------------------------------------------------------------------------------

  lemma WindowCounts(o: Options, m: Market, collate: Collation, x: Snapshot)
    ensures multiset(Windowed(OnlyIn(o, m), collate))[x] ==
            if x.market == m && o.windowStart <= x.observedAt <= o.windowEnd then multiset(o.snapshots)[x] else 0
  {
    var ofMarket := Select(o.snapshots, TradedIn(m));
    SnapshotOrderIsPreorder(collate);
    SortWithFacts(Select(ofMarket, Inside(o.windowStart, o.windowEnd)), SnapshotOrder(collate));
    SelectCounts(ofMarket, Inside(o.windowStart, o.windowEnd), x);
    SelectCounts(o.snapshots, TradedIn(m), x);
  }

  predicate SeenInWindow(o: Options, m: Market) {
    exists i :: 0 <= i < |o.snapshots| && o.snapshots[i].market == m && o.windowStart <= o.snapshots[i].observedAt <= o.windowEnd
  }

  lemma WindowHasSeen(o: Options, m: Market, collate: Collation, i: nat)
    requires i < |o.snapshots| && o.snapshots[i].market == m && o.windowStart <= o.snapshots[i].observedAt <= o.windowEnd
    ensures |Windowed(OnlyIn(o, m), collate)| > 0
  {
    WindowCounts(o, m, collate, o.snapshots[i]);
    assert o.snapshots[i] in multiset(o.snapshots);
    assert o.snapshots[i] in multiset(Windowed(OnlyIn(o, m), collate));
  }

  lemma SeenIsInWindow(o: Options, m: Market, collate: Collation)
    requires |Windowed(OnlyIn(o, m), collate)| > 0
    ensures SeenInWindow(o, m)
  {
    var first := Windowed(OnlyIn(o, m), collate)[0];
    WindowCounts(o, m, collate, first);
    assert first in multiset(Windowed(OnlyIn(o, m), collate));
    assert first in multiset(o.snapshots);
    var i :| 0 <= i < |o.snapshots| && o.snapshots[i] == first;
  }

  lemma SymbolsAreCounted(w: seq<Snapshot>)
    ensures |FirstKeys(w)| > 0 <==> |w| > 0
  {
    if |w| > 0 {
      assert KeyOf(w[0]) in FirstKeys(w);
    }
  }

  /** A market is classified exactly when one of its snapshots is in the window, and then it counts a symbol. */
  lemma MarketIsPresent(o: Options, m: Market, collate: Collation)
    requires ValidOptions(o)
    ensures Present(o, m) <==> SeenInWindow(o, m)
    ensures Present(o, m) <==> Classified(OnlyIn(o, m), collate).symbolCount > 0
  {
    PresentIsSeen(o, m);
    SymbolsAreCounted(Windowed(OnlyIn(o, m), collate));
    CountedSymbols(OnlyIn(o, m), collate);
    if i :| 0 <= i < |o.snapshots| && o.snapshots[i].market == m && o.windowStart <= o.snapshots[i].observedAt <= o.windowEnd {
      WindowHasSeen(o, m, collate, i);
    }
    if |Windowed(OnlyIn(o, m), collate)| > 0 {
      SeenIsInWindow(o, m, collate);
    }
  }

  lemma PresentIsSeen(o: Options, m: Market)
    ensures Present(o, m) <==> SeenInWindow(o, m)
  {
  }

  lemma CountedSymbols(o: Options, collate: Collation)
    requires ValidOptions(o)
    ensures Classified(o, collate).symbolCount == |FirstKeys(Windowed(o, collate))|
  {
  }
}
