/** The realized profit for trades in any order, and what one sell adds to it, told by the fields of the trades. */
module FifoProfit {
  import opened Numbers
  import opened Sequences
  import opened FifoLots

  // ----- The order in which trades are booked ----------------------------------------------------------

  predicate InTimeOrder(trades: seq<Trade>) {
    forall i, j :: 0 <= i < j < |trades| ==> trades[i].time <= trades[j].time
  }

  function AtTime(v: int): Trade -> bool {
    (t: Trade) => t.time == v
  }

  lemma {:induction false} SameSelection<T>(xs: seq<T>, p: T -> bool, q: T -> bool)
    requires forall x :: p(x) == q(x)
    ensures Select(xs, p) == Select(xs, q)
  {
    if |xs| > 0 {
      SameSelection(xs[..|xs| - 1], p, q);
    }
  }

  /** The trades are booked earliest first, each once, and trades of one time in the order they were given. */
  lemma BookedInTimeOrder(trades: seq<Trade>, v: int)
    ensures multiset(InOrder(trades)) == multiset(trades) && InTimeOrder(InOrder(trades))
    ensures Select(InOrder(trades), AtTime(v)) == Select(trades, AtTime(v))
  {
    StableSortFacts(trades, TimeOf);
    StableSortKeepsTies(trades, TimeOf, v);
    SameTest(v);
    SameSelection(trades, AtTime(v), HasKey(TimeOf, v));
    SameSelection(InOrder(trades), AtTime(v), HasKey(TimeOf, v));
    StaysSorted(trades);
  }

  lemma SameTest(v: int)
    ensures forall t: Trade :: AtTime(v)(t) == HasKey(TimeOf, v)(t)
  {
    forall t: Trade
      ensures AtTime(v)(t) == HasKey(TimeOf, v)(t)
    {
      assert HasKey(TimeOf, v)(t) <==> TimeOf(t) == v;
    }
  }

  lemma StaysSorted(trades: seq<Trade>)
    ensures InTimeOrder(InOrder(trades))
  {
    StableSortFacts(trades, TimeOf);
    var sorted := InOrder(trades);
    forall i, j | 0 <= i < j < |sorted|
      ensures sorted[i].time <= sorted[j].time
    {
      assert TimeOf(sorted[i]) <= TimeOf(sorted[j]);
    }
  }

  /** b holds the trades of a, those of every time in the same order. */
  ghost predicate SameTrades(a: seq<Trade>, b: seq<Trade>) {
    forall v :: Select(a, AtTime(v)) == Select(b, AtTime(v))
  }

  lemma {:induction false} SelectedMember(xs: seq<Trade>, v: int, x: Trade)
    ensures x in Select(xs, AtTime(v)) <==> x in xs && x.time == v
  {
    if |xs| > 0 {
      SelectedMember(xs[..|xs| - 1], v, x);
      SplitLast(xs);
    }
  }

  lemma LatestFirst(a: seq<Trade>, b: seq<Trade>)
    requires SameTrades(a, b) && InTimeOrder(b) && |a| > 0
    ensures |b| > 0 && a[|a| - 1].time <= b[|b| - 1].time
  {
    var last := a[|a| - 1];
    SelectedMember(a, last.time, last);
    SelectedMember(b, last.time, last);
  }

  lemma SelectedLast(xs: seq<Trade>)
    requires |xs| > 0
    ensures var last := xs[|xs| - 1]; Select(xs, AtTime(last.time)) == Select(xs[..|xs| - 1], AtTime(last.time)) + [last]
  {
  }

  lemma SameBeforeLast(xs: seq<Trade>, ys: seq<Trade>, last: Trade, v: int)
    requires Select(xs + [last], AtTime(v)) == Select(ys + [last], AtTime(v))
    ensures Select(xs, AtTime(v)) == Select(ys, AtTime(v))
  {
    SelectAppend(xs, last, AtTime(v));
    SelectAppend(ys, last, AtTime(v));
    var a, b := Select(xs, AtTime(v)), Select(ys, AtTime(v));
    assert (a + [last])[..|a|] == a && (b + [last])[..|b|] == b;
  }

  lemma SameWithoutLast(a: seq<Trade>, b: seq<Trade>)
    requires SameTrades(a, b) && |a| > 0 && |b| > 0 && a[|a| - 1] == b[|b| - 1]
    ensures SameTrades(a[..|a| - 1], b[..|b| - 1])
  {
    forall v
      ensures Select(a[..|a| - 1], AtTime(v)) == Select(b[..|b| - 1], AtTime(v))
    {
      assert Select(a, AtTime(v)) == Select(b, AtTime(v));
      SplitLast(a);
      SplitLast(b);
      SameBeforeLast(a[..|a| - 1], b[..|b| - 1], a[|a| - 1], v);
    }
  }

  /** There is only one time order of given trades that keeps ties as they are. */
  lemma {:induction false} OneTimeOrder(a: seq<Trade>, b: seq<Trade>)
    requires InTimeOrder(a) && InTimeOrder(b) && SameTrades(a, b)
    ensures a == b
    decreases |a| + |b|
  {
    if |a| > 0 || |b| > 0 {
      if |a| > 0 {
        LatestFirst(a, b);
      }
      if |b| > 0 {
        LatestFirst(b, a);
      }
      var x, y := a[|a| - 1], b[|b| - 1];
      SelectedLast(a);
      SelectedLast(b);
      var tied := Select(a, AtTime(x.time));
      assert tied == Select(b, AtTime(x.time)) && tied[|tied| - 1] == x && tied[|tied| - 1] == y;
      SameWithoutLast(a, b);
      OneTimeOrder(a[..|a| - 1], b[..|b| - 1]);
      SplitLast(a);
      SplitLast(b);
    }
  }

  // ----- Explicit profits --------------------------------------------------------------------------------

  function ExplicitOf(t: Trade): seq<real> {
    if t.realizedPnlKrw.Some? then [t.realizedPnlKrw.value] else []
  }

  lemma {:induction false} ExplicitIsFlatMap(trades: seq<Trade>)
    ensures Explicit(trades) == FlatMap(trades, ExplicitOf)
  {
    if |trades| > 0 {
      ExplicitIsFlatMap(trades[..|trades| - 1]);
    }
  }

  lemma {:induction false} SumConcat(a: seq<real>, b: seq<real>)
    ensures Sum(a + b) == Sum(a) + Sum(b)
  {
    if |b| == 0 {
      assert a + b == a;
    } else {
      SumConcat(a, b[..|b| - 1]);
      assert (a + b)[..|a + b| - 1] == a + b[..|b| - 1];
    }
  }

  lemma {:induction false} SumReordered(xs: seq<real>, ys: seq<real>)
    requires multiset(xs) == multiset(ys)
    ensures Sum(xs) == Sum(ys)
  {
    SameElements(xs, ys);
    if |xs| > 0 {
      var n := |xs| - 1;
      var k := LastElsewhere(xs, ys);
      SumReordered(xs[..n], ys[..k] + ys[k + 1..]);
      SumConcat(ys[..k] + [xs[n]], ys[k + 1..]);
      SumConcat(ys[..k], [xs[n]]);
      SumConcat(ys[..k], ys[k + 1..]);
    }
  }

  lemma ExplicitReordered(a: seq<Trade>, b: seq<Trade>)
    requires multiset(a) == multiset(b)
    ensures |Explicit(a)| == |Explicit(b)| && Sum(Explicit(a)) == Sum(Explicit(b))
  {
    ExplicitIsFlatMap(a);
    ExplicitIsFlatMap(b);
    FlatMapReordered(a, b, ExplicitOf);
    SameElements(Explicit(a), Explicit(b));
    SumReordered(Explicit(a), Explicit(b));
  }

  /** A trade brings its own profit or none: the rest decide the sum of the others. */
  lemma ExplicitAppend(trades: seq<Trade>, t: Trade)
    ensures Sum(Explicit(trades + [t])) == Sum(Explicit(trades)) + (if t.realizedPnlKrw.Some? then t.realizedPnlKrw.value else 0.0)
    ensures |Explicit(trades + [t])| > 0 <==> |Explicit(trades)| > 0 || t.realizedPnlKrw.Some?
  {
    assert (trades + [t])[..|trades|] == trades;
    SumConcat(Explicit(trades), ExplicitOf(t));
    SumOfOne(t);
  }

  lemma SumOfOne(t: Trade)
    ensures Sum(ExplicitOf(t)) == if t.realizedPnlKrw.Some? then t.realizedPnlKrw.value else 0.0
  {
  }

  lemma {:induction false} NoExplicit(trades: seq<Trade>)
    ensures |Explicit(trades)| > 0 <==> exists i :: 0 <= i < |trades| && trades[i].realizedPnlKrw.Some?
  {
    if |trades| > 0 {
      var before := trades[..|trades| - 1];
      NoExplicit(before);
      assert forall i :: 0 <= i < |before| ==> before[i] == trades[i];
      assert trades[|before|] == trades[|trades| - 1];
    }
  }

  // ----- The profit ------------------------------------------------------------------------------------------

  /** The same trades, earliest first and ties as they were. */
  ghost predicate IsTimeOrder(trades: seq<Trade>, ordered: seq<Trade>) {
    multiset(ordered) == multiset(trades) && SameTrades(trades, ordered) && InTimeOrder(ordered)
  }

  /** There is exactly one time order, and the trades are booked in it. */
  lemma TimeOrderIsBooked(trades: seq<Trade>)
    ensures forall ordered :: IsTimeOrder(trades, ordered) <==> ordered == InOrder(trades)
  {
    BookedInTimeOrder(trades, 0);
    forall v
      ensures Select(trades, AtTime(v)) == Select(InOrder(trades), AtTime(v))
    {
      BookedInTimeOrder(trades, v);
    }
    forall ordered | IsTimeOrder(trades, ordered)
      ensures ordered == InOrder(trades)
    {
      OneTimeOrder(ordered, InOrder(trades));
    }
  }

  /** Without explicit profits the lots decide, over the trades in time order, whatever order they come in; `None` is the
      `null` for no trades at all. */
  method RealizedPnlFromTrades(trades: seq<Trade>) returns (r: Option<real>)
    ensures |trades| == 0 ==> r == None
    ensures (exists i :: 0 <= i < |trades| && trades[i].realizedPnlKrw.Some?) ==> r == Some(Sum(Explicit(trades)))
    ensures |trades| > 0 && (forall i :: 0 <= i < |trades| ==> trades[i].realizedPnlKrw.None?) ==>
              forall ordered :: IsTimeOrder(trades, ordered) ==> r == Some(BookAll(ordered).realized as real)
    ensures IsTimeOrder(trades, InOrder(trades))
  {
    NoExplicit(trades);
    TimeOrderIsBooked(trades);
    if |trades| == 0 {
      return None;
    }
    var explicitValues := Explicit(trades);
    if |explicitValues| > 0 {
      return Some(Sum(explicitValues));
    }
    var lotsBySymbol: map<string, seq<Lot>> := map[];
    var realizedPnlKrw, hasSell := 0, false;
    var sorted := InOrder(trades);
    for i := 0 to |sorted|
      invariant BookAll(sorted[..i]) == Books(lotsBySymbol, realizedPnlKrw)
      invariant !hasSell ==> realizedPnlKrw == 0
    {
      var trade := sorted[i];
      BookNext(sorted, i);
      if !Counted(trade) {
        continue;
      }
      var lots := Held(lotsBySymbol, trade.key);
      if trade.side.Buy? {
        lotsBySymbol := lotsBySymbol[trade.key := lots + [Lot(trade.quantity.value, trade.amountKrw.value)]];
      } else if trade.side.Sell? {
        hasSell := true;
        var costBasisKrw, remaining;
        lots, costBasisKrw, remaining := ConsumeLots(lots, trade.quantity.value);
        lotsBySymbol := lotsBySymbol[trade.key := lots];
        costBasisKrw := costBasisKrw + FallbackCost(remaining, trade.priceKrw);
        realizedPnlKrw := realizedPnlKrw + MathRound(trade.amountKrw.value - costBasisKrw);
      }
    }
    assert sorted[..|sorted|] == sorted;
    return Some(if hasSell then realizedPnlKrw as real else 0.0);
  }

  // ----- What one sell adds ----------------------------------------------------------------------------------

  lemma {:induction false} TakeAll(lots: seq<Lot>, wanted: real)
    requires Positive(lots) && wanted >= Quantity(lots)
    ensures Take(lots, wanted) == Taken([], Cost(lots), wanted - Quantity(lots))
  {
    if |lots| > 0 {
      WholeLot(lots[0]);
      TakeAll(lots[1..], wanted - lots[0].quantity);
    }
  }

  lemma WholeLot(lot: Lot)
    requires lot.quantity > 0.0
    ensures Times(lot.costKrw, Ratio(lot.quantity, lot.quantity)) == lot.costKrw
  {
  }

  lemma {:induction false} NothingMissing(lots: seq<Lot>, wanted: real)
    requires Positive(lots) && 0.0 <= wanted <= Quantity(lots)
    ensures Take(lots, wanted).missing == 0.0
  {
    if wanted > 0.0 && |lots| > 0 && wanted >= lots[0].quantity {
      NothingMissing(lots[1..], wanted - lots[0].quantity);
    } else if wanted > 0.0 && |lots| > 0 {
      assert Take(lots[1..], 0.0).missing == 0.0;
    }
  }

  lemma BookAppend(trades: seq<Trade>, t: Trade)
    ensures BookAll(trades + [t]) == Book(BookAll(trades), t)
  {
    assert (trades + [t])[..|trades|] == trades;
  }

  lemma FallbackIsPaid(excess: real, price: Option<real>)
    ensures FallbackCost(excess, price) == if excess > 0.000000001 && price.Some? then Times(price.value, excess) else 0.0
  {
    if price.Some? {
      assert Times(excess, price.value) == Times(price.value, excess);
    }
  }

  lemma SellBooked(b: Books, t: Trade, lots: seq<Lot>, basis: real, missing: real)
    requires BooksOk(b) && Counted(t) && t.side.Sell? && Take(Held(b.lots, t.key), t.quantity.value) == Taken(lots, basis, missing)
    ensures Held(Book(b, t).lots, t.key) == lots
    ensures Book(b, t).realized == b.realized + MathRound(t.amountKrw.value - (basis + FallbackCost(missing, t.priceKrw)))
  {
  }

  /** A sell of everything held and more takes the whole cost, and pays its own price for what it exceeds the holding by if
      that is more than a billionth of a unit and the price is known. */
  lemma OversellAdds(trades: seq<Trade>, t: Trade)
    requires Counted(t) && t.side.Sell? && t.quantity.value >= Quantity(Held(BookAll(trades).lots, t.key))
    ensures var held := Held(BookAll(trades).lots, t.key);
            var excess := t.quantity.value - Quantity(held);
            var paid := if excess > 0.000000001 && t.priceKrw.Some? then Times(t.priceKrw.value, excess) else 0.0;
            && Held(BookAll(trades + [t]).lots, t.key) == []
            && BookAll(trades + [t]).realized == BookAll(trades).realized + MathRound(t.amountKrw.value - (Cost(held) + paid))
  {
    var held := Held(BookAll(trades).lots, t.key);
    BookAppend(trades, t);
    TakeAll(held, t.quantity.value);
    SellBooked(BookAll(trades), t, [], Cost(held), t.quantity.value - Quantity(held));
    FallbackIsPaid(t.quantity.value - Quantity(held), t.priceKrw);
  }

  /** A sell of no more than is held pays nothing beside the cost of the lots it takes. */
  lemma CoveredSellAdds(trades: seq<Trade>, t: Trade)
    requires Counted(t) && t.side.Sell? && t.quantity.value <= Quantity(Held(BookAll(trades).lots, t.key))
    ensures BookAll(trades + [t]).realized ==
            BookAll(trades).realized + MathRound(t.amountKrw.value - Take(Held(BookAll(trades).lots, t.key), t.quantity.value).basis)
  {
    BookAppend(trades, t);
    NothingMissing(Held(BookAll(trades).lots, t.key), t.quantity.value);
  }

  /** A trade leaves the lots of every other symbol alone. */
  lemma OthersUntouched(trades: seq<Trade>, t: Trade, key: string)
    requires key != t.key
    ensures Held(BookAll(trades + [t]).lots, key) == Held(BookAll(trades).lots, key)
  {
    BookAppend(trades, t);
  }

  /** A sale at a gain, whichever of the two trades is listed first. */
  lemma GainInAnyOrder(buy: Trade, sell: Trade)
    requires buy == Trade("KR:A", Buy, 1, Some(1.0), Some(100.0), Some(100.0), None)
    requires sell == Trade("KR:A", Sell, 2, Some(1.0), Some(150.0), Some(150.0), None)
    ensures BookAll(InOrder([buy, sell])).realized == BookAll(InOrder([sell, buy])).realized == 50
  {
    var ordered := [buy, sell];
    SortedPair(buy, sell);
    BookAppend([], buy);
    BookAppend([buy], sell);
    assert [] + [buy] == [buy] && [buy] + [sell] == ordered;
    var lot := Lot(1.0, 100.0);
    assert [] + [lot] == [lot];
    assert Held(BookAll([buy]).lots, "KR:A") == [lot];
    assert [lot][1..] == [];
    assert Quantity([lot]) == 1.0 && Cost([lot]) == 100.0;
    OversellAdds([buy], sell);
  }

  lemma SortedPair(early: Trade, late: Trade)
    requires early.time < late.time
    ensures InOrder([early, late]) == [early, late] && InOrder([late, early]) == [early, late]
  {
    SortedSingle(early);
    SortedSingle(late);
    assert [early, late][..1] == [early] && [late, early][..1] == [late];
    assert InsertBy([early], late, TimeOf) == [early] + [late];
    assert [late][..0] == [] && InsertBy([], early, TimeOf) == [] + [early] == [early];
    assert InsertBy([late], early, TimeOf) == [early] + [late];
  }

  lemma SortedSingle(t: Trade)
    ensures InOrder([t]) == [t]
  {
    assert [t][..0] == [] && StableSort([t][..0], TimeOf) == [];
    assert InsertBy([], t, TimeOf) == [] + [t] == [t];
  }
}
