/** Realized profit by first-in first-out lots, against the cumulative cost curve of the purchases. */
module FifoLots {
  import opened Numbers
  import opened Sequences

  const DUST := 0.000000001

  datatype Side = Buy | Sell | Other

  /** `None` is a number that is not finite. time is the parsed execution time, zero when it does not parse. */
  datatype Trade = Trade(key: string, side: Side, time: int, quantity: Option<real>, amountKrw: Option<real>,
                         priceKrw: Option<real>, realizedPnlKrw: Option<real>)

  datatype Lot = Lot(quantity: real, costKrw: real)

  predicate Counted(t: Trade) {
    t.quantity.Some? && t.quantity.value > 0.0 && t.amountKrw.Some?
  }

  predicate BuysFor(t: Trade, key: string) {
    Counted(t) && t.side.Buy? && t.key == key
  }

  predicate SellsFor(t: Trade, key: string) {
    Counted(t) && t.side.Sell? && t.key == key
  }

  predicate Positive(lots: seq<Lot>) {
    forall i :: 0 <= i < |lots| ==> lots[i].quantity > 0.0
  }

  // ----- The cumulative cost curve -------------------------------------------------------------------

  /** The purchases of a symbol in order. */
  function Buys(trades: seq<Trade>, key: string): (lots: seq<Lot>)
    ensures Positive(lots)
  {
    if |trades| == 0 then []
    else
      var before, t := Buys(trades[..|trades| - 1], key), trades[|trades| - 1];
      if BuysFor(t, key) then before + [Lot(t.quantity.value, t.amountKrw.value)] else before
  }

  function Quantity(lots: seq<Lot>): (q: real)
    ensures Positive(lots) ==> q >= 0.0
  {
    if |lots| == 0 then 0.0 else lots[0].quantity + Quantity(lots[1..])
  }

  function Cost(lots: seq<Lot>): real {
    if |lots| == 0 then 0.0 else lots[0].costKrw + Cost(lots[1..])
  }

  function UnitCost(lot: Lot): real
    requires lot.quantity > 0.0
  {
    Ratio(lot.costKrw, lot.quantity)
  }

  /** What the first q units bought cost: piecewise linear in q. */
  function Curve(buys: seq<Lot>, q: real): real
    requires Positive(buys)
  {
    if |buys| == 0 then 0.0
    else if q < buys[0].quantity then Times(UnitCost(buys[0]), q)
    else buys[0].costKrw + Curve(buys[1..], q - buys[0].quantity)
  }

  /** How many units of a symbol its sells have used up; a sell beyond the holding uses only the holding. */
  function Consumed(trades: seq<Trade>, key: string): real {
    if |trades| == 0 then 0.0
    else
      var before, t := trades[..|trades| - 1], trades[|trades| - 1];
      if SellsFor(t, key) then MinReal(Consumed(before, key) + t.quantity.value, Quantity(Buys(before, key)))
      else Consumed(before, key)
  }

  /** The units a sell asks for beyond the holding. */
  function Shortfall(before: seq<Trade>, t: Trade): real
    requires Counted(t)
  {
    var asked := Consumed(before, t.key) + t.quantity.value;
    asked - MinReal(asked, Quantity(Buys(before, t.key)))
  }

  function FallbackCost(shortfall: real, price: Option<real>): real {
    if shortfall > DUST && price.Some? then Times(shortfall, price.value) else 0.0
  }

  /** The cost a sell takes off the curve. */
  function CurveBasis(before: seq<Trade>, t: Trade): real
    requires Counted(t)
  {
    var buys, c := Buys(before, t.key), Consumed(before, t.key);
    Curve(buys, MinReal(c + t.quantity.value, Quantity(buys))) - Curve(buys, c)
  }

  function Basis(before: seq<Trade>, t: Trade): real
    requires Counted(t)
  {
    CurveBasis(before, t) + FallbackCost(Shortfall(before, t), t.priceKrw)
  }

  /** The realized profit stated without lots: every sell against the curve. */
  function CurveRealized(trades: seq<Trade>): int {
    if |trades| == 0 then 0
    else
      var before, t := trades[..|trades| - 1], trades[|trades| - 1];
      CurveRealized(before) + if Counted(t) && t.side.Sell? then MathRound(t.amountKrw.value - Basis(before, t)) else 0
  }

  // ----- The source's lots -----------------------------------------------------------------------------

  /** What a sell leaves of the lots, the cost it used, and the units it could not find. */
  datatype Taken = Taken(lots: seq<Lot>, basis: real, missing: real)

  function Take(lots: seq<Lot>, wanted: real): Taken
    requires Positive(lots)
  {
    if wanted <= 0.0 || |lots| == 0 then Taken(lots, 0.0, wanted)
    else
      var lot := lots[0];
      var used := MinReal(wanted, lot.quantity);
      var usedCost := Times(lot.costKrw, Ratio(used, lot.quantity));
      if lot.quantity - used <= DUST then
        var rest := Take(lots[1..], wanted - used);
        Taken(rest.lots, usedCost + rest.basis, rest.missing)
      else
        Taken([Lot(lot.quantity - used, lot.costKrw - usedCost)] + lots[1..], usedCost, wanted - used)
  }

  lemma {:induction false} TakeKeepsPositive(lots: seq<Lot>, wanted: real)
    requires Positive(lots)
    ensures Positive(Take(lots, wanted).lots)
  {
    if wanted > 0.0 && |lots| > 0 {
      TakeKeepsPositive(lots[1..], wanted - MinReal(wanted, lots[0].quantity));
    }
  }

  /** The lots of every symbol and the profit so far. */
  datatype Books = Books(lots: map<string, seq<Lot>>, realized: int)

  function Held(lots: map<string, seq<Lot>>, key: string): seq<Lot> {
    if key in lots then lots[key] else []
  }

  predicate BooksOk(b: Books) {
    forall key :: key in b.lots ==> Positive(b.lots[key])
  }

  function Book(b: Books, t: Trade): (after: Books)
    requires BooksOk(b)
    ensures BooksOk(after)
  {
    if !Counted(t) || t.side.Other? then b
    else if t.side.Buy? then b.(lots := b.lots[t.key := Held(b.lots, t.key) + [Lot(t.quantity.value, t.amountKrw.value)]])
    else
      TakeKeepsPositive(Held(b.lots, t.key), t.quantity.value);
      var taken := Take(Held(b.lots, t.key), t.quantity.value);
      Books(b.lots[t.key := taken.lots],
            b.realized + MathRound(t.amountKrw.value - (taken.basis + FallbackCost(taken.missing, t.priceKrw))))
  }

  function BookAll(trades: seq<Trade>): (b: Books)
    ensures BooksOk(b)
  {
    if |trades| == 0 then Books(map[], 0) else Book(BookAll(trades[..|trades| - 1]), trades[|trades| - 1])
  }

  function Explicit(trades: seq<Trade>): seq<real> {
    if |trades| == 0 then []
    else
      var t := trades[|trades| - 1];
      Explicit(trades[..|trades| - 1]) + if t.realizedPnlKrw.Some? then [t.realizedPnlKrw.value] else []
  }

  function TimeOf(t: Trade): int {
    t.time
  }

  function InOrder(trades: seq<Trade>): seq<Trade> {
    StableSort(trades, TimeOf)
  }

  /** The inner loop of a sell: used lots are cut or shifted from the front. */
  method ConsumeLots(held: seq<Lot>, wanted: real) returns (lots: seq<Lot>, basis: real, remaining: real)
    requires Positive(held)
    ensures Taken(lots, basis, remaining) == Take(held, wanted)
  {
    lots, basis, remaining := held, 0.0, wanted;
    while remaining > 0.0 && |lots| > 0
      invariant Positive(lots)
      invariant var rest := Take(lots, remaining);
                Take(held, wanted) == Taken(rest.lots, basis + rest.basis, rest.missing)
      decreases |lots|, if remaining > 0.0 then 1 else 0
    {
      var lot := lots[0];
      var used := MinReal(remaining, lot.quantity);
      var usedCost := Times(lot.costKrw, Ratio(used, lot.quantity));
      basis := basis + usedCost;
      var quantity, costKrw := lot.quantity - used, lot.costKrw - usedCost;
      remaining := remaining - used;
      if quantity <= DUST {
        lots := lots[1..];
      } else {
        lots := [Lot(quantity, costKrw)] + lots[1..];
      }
    }
  }

  lemma BookNext(trades: seq<Trade>, i: nat)
    requires i < |trades|
    ensures BookAll(trades[..i + 1]) == Book(BookAll(trades[..i]), trades[i])
  {
    assert trades[..i + 1][..i] == trades[..i];
  }

  // ----- The lots follow the curve -------------------------------------------------------------------

  /** The lots left when the first q units are gone. */
  function Remaining(buys: seq<Lot>, q: real): seq<Lot>
    requires Positive(buys)
  {
    if |buys| == 0 then []
    else if q < buys[0].quantity then
      [Lot(buys[0].quantity - q, Times(UnitCost(buys[0]), buys[0].quantity - q))] + buys[1..]
    else Remaining(buys[1..], q - buys[0].quantity)
  }

  /** The cut at q leaves the lot it falls on whole, or with more than the quantity the source throws away. */
  predicate CleanCut(buys: seq<Lot>, q: real) {
    |buys| > 0 ==>
      if q < buys[0].quantity then q <= 0.0 || buys[0].quantity - q > DUST else CleanCut(buys[1..], q - buys[0].quantity)
  }

  lemma RemainingAll(buys: seq<Lot>)
    requires Positive(buys)
    ensures Remaining(buys, 0.0) == buys && Curve(buys, 0.0) == 0.0
  {
  }

  lemma {:induction false} QuantitySnoc(buys: seq<Lot>, lot: Lot)
    ensures Quantity(buys + [lot]) == Quantity(buys) + lot.quantity
  {
    if |buys| == 0 {
      assert buys + [lot] == [lot] && [lot][1..] == [];
    } else {
      assert (buys + [lot])[1..] == buys[1..] + [lot];
      QuantitySnoc(buys[1..], lot);
    }
  }

  lemma {:induction false} RemainingSnoc(buys: seq<Lot>, lot: Lot, q: real)
    requires Positive(buys) && lot.quantity > 0.0 && 0.0 <= q <= Quantity(buys)
    ensures Positive(buys + [lot]) && Quantity(buys + [lot]) == Quantity(buys) + lot.quantity
    ensures Remaining(buys + [lot], q) == Remaining(buys, q) + [lot] && Curve(buys + [lot], q) == Curve(buys, q)
  {
    PositiveSnoc(buys, lot);
    QuantitySnoc(buys, lot);
    if |buys| == 0 {
      RemainingAll([lot]);
      assert buys + [lot] == [lot];
    } else if q < buys[0].quantity {
      CutFirstSnoc(buys, lot, q);
    } else {
      RemainingSnoc(buys[1..], lot, q - buys[0].quantity);
      SkipFirst(buys, q);
      SkipFirst(buys + [lot], q);
      assert (buys + [lot])[1..] == buys[1..] + [lot];
    }
  }

  lemma CutFirstSnoc(buys: seq<Lot>, lot: Lot, q: real)
    requires Positive(buys) && |buys| > 0 && q < buys[0].quantity && Positive(buys + [lot])
    ensures Remaining(buys + [lot], q) == Remaining(buys, q) + [lot] && Curve(buys + [lot], q) == Curve(buys, q)
  {
    assert (buys + [lot])[1..] == buys[1..] + [lot];
  }

  lemma SkipFirst(buys: seq<Lot>, q: real)
    requires Positive(buys) && |buys| > 0 && q >= buys[0].quantity
    ensures Positive(buys[1..]) && Remaining(buys, q) == Remaining(buys[1..], q - buys[0].quantity)
    ensures Curve(buys, q) == buys[0].costKrw + Curve(buys[1..], q - buys[0].quantity)
  {
  }

  lemma PositiveSnoc(buys: seq<Lot>, lot: Lot)
    requires Positive(buys) && lot.quantity > 0.0
    ensures Positive(buys + [lot])
  {
  }

  lemma PartOfLot(unit: real, q: real, used: real)
    requires q > 0.0
    ensures Times(Times(unit, q), Ratio(used, q)) == Times(unit, used)
  {
  }

  /** Selling part of the first lot. */
  lemma TakePart(buys: seq<Lot>, c: real, wanted: real)
    requires Positive(buys) && |buys| > 0 && 0.0 <= c && wanted > 0.0 && c + wanted < buys[0].quantity
    requires buys[0].quantity - (c + wanted) > DUST
    ensures Positive(Remaining(buys, c))
    ensures Take(Remaining(buys, c), wanted) ==
            Taken(Remaining(buys, c + wanted), Curve(buys, c + wanted) - Curve(buys, c), 0.0)
  {
    var first := buys[0];
    var unit, q := UnitCost(first), first.quantity - c;
    PartOfLot(unit, q, wanted);
    Distribute(c, wanted, unit);
    Distribute(q - wanted, wanted, unit);
  }

  /** Selling at least what is left of the first lot. */
  lemma TakeFirst(buys: seq<Lot>, c: real, wanted: real)
    requires Positive(buys) && |buys| > 0 && 0.0 <= c < buys[0].quantity <= c + wanted
    ensures Positive(Remaining(buys, c)) && Positive(buys[1..])
    ensures var rest := Take(buys[1..], wanted - (buys[0].quantity - c));
            Take(Remaining(buys, c), wanted) ==
            Taken(rest.lots, buys[0].costKrw - Curve(buys, c) + rest.basis, rest.missing)
  {
    var first := buys[0];
    var unit, q := UnitCost(first), first.quantity - c;
    PartOfLot(unit, q, q);
    Distribute(c, q, unit);
    assert Remaining(buys, c)[1..] == buys[1..];
  }

  /** Selling from the lots moves along the curve. */
  lemma {:induction false} TakeFollowsCurve(buys: seq<Lot>, c: real, wanted: real)
    requires Positive(buys) && 0.0 <= c <= Quantity(buys) && wanted > 0.0
    requires CleanCut(buys, MinReal(c + wanted, Quantity(buys)))
    ensures var c' := MinReal(c + wanted, Quantity(buys));
            Positive(Remaining(buys, c)) &&
            Take(Remaining(buys, c), wanted) ==
            Taken(Remaining(buys, c'), Curve(buys, c') - Curve(buys, c), wanted - (c' - c))
  {
    if |buys| > 0 {
      var first, rest := buys[0], buys[1..];
      if c >= first.quantity {
        TakeFollowsCurve(rest, c - first.quantity, wanted);
      } else if c + wanted < first.quantity {
        TakePart(buys, c, wanted);
      } else {
        var more := wanted - (first.quantity - c);
        if more > 0.0 {
          TakeFollowsCurve(rest, 0.0, more);
        }
        TakeBeyondFirst(buys, c, wanted, more);
      }
    }
  }

  /** Selling past the first lot is selling the rest from the lots behind it. */
  lemma TakeBeyondFirst(buys: seq<Lot>, c: real, wanted: real, more: real)
    requires Positive(buys) && |buys| > 0 && 0.0 <= c < buys[0].quantity <= c + wanted
    requires more == wanted - (buys[0].quantity - c) && Positive(buys[1..])
    requires var m := MinReal(more, Quantity(buys[1..]));
             more > 0.0 ==>
               Take(Remaining(buys[1..], 0.0), more) ==
               Taken(Remaining(buys[1..], m), Curve(buys[1..], m) - Curve(buys[1..], 0.0), more - (m - 0.0))
    ensures var c' := MinReal(c + wanted, Quantity(buys));
            Positive(Remaining(buys, c)) &&
            Take(Remaining(buys, c), wanted) ==
            Taken(Remaining(buys, c'), Curve(buys, c') - Curve(buys, c), wanted - (c' - c))
  {
    TakeFirst(buys, c, wanted);
    RemainingAll(buys[1..]);
    SkipFirst(buys, MinReal(c + wanted, Quantity(buys)));
  }

  /** An unclean cut loses a lot that the curve still has. */
  lemma {:induction false} UncleanCutLosesLot(buys: seq<Lot>, c: real, wanted: real)
    requires Positive(buys) && 0.0 <= c <= Quantity(buys) && wanted > 0.0
    requires !CleanCut(buys, MinReal(c + wanted, Quantity(buys)))
    ensures Positive(Remaining(buys, c))
    ensures |Take(Remaining(buys, c), wanted).lots| < |Remaining(buys, MinReal(c + wanted, Quantity(buys)))|
  {
    var first, rest := buys[0], buys[1..];
    if c >= first.quantity {
      UncleanCutLosesLot(rest, c - first.quantity, wanted);
    } else if c + wanted < first.quantity {
      assert Remaining(buys, c)[1..] == rest;
    } else {
      TakeFirst(buys, c, wanted);
      RemainingAll(rest);
      UncleanCutLosesLot(rest, 0.0, wanted - (first.quantity - c));
    }
  }

  /** Every sell's cut is clean. */
  predicate NoDust(trades: seq<Trade>) {
    |trades| == 0 ||
    (var before, t := trades[..|trades| - 1], trades[|trades| - 1];
     && NoDust(before)
     && (Counted(t) && t.side.Sell? ==> CleanCut(Buys(before, t.key), Consumed(trades, t.key))))
  }

  lemma {:induction false} ConsumedInRange(trades: seq<Trade>, key: string)
    ensures 0.0 <= Consumed(trades, key) <= Quantity(Buys(trades, key))
  {
    if |trades| > 0 {
      var before, t := trades[..|trades| - 1], trades[|trades| - 1];
      ConsumedInRange(before, key);
      if BuysFor(t, key) {
        RemainingSnoc(Buys(before, key), Lot(t.quantity.value, t.amountKrw.value), 0.0);
      }
    }
  }

  /** Unless a sell leaves dust, the lots of every symbol are what the curve leaves. */
  lemma {:induction false} LotsFollowCurve(trades: seq<Trade>, key: string)
    requires NoDust(trades)
    ensures Held(BookAll(trades).lots, key) == Remaining(Buys(trades, key), Consumed(trades, key))
  {
    if |trades| > 0 {
      var before, t := trades[..|trades| - 1], trades[|trades| - 1];
      LotsFollowCurve(before, key);
      ConsumedInRange(before, key);
      if BuysFor(t, key) {
        RemainingSnoc(Buys(before, key), Lot(t.quantity.value, t.amountKrw.value), Consumed(before, key));
      } else if SellsFor(t, key) {
        TakeFollowsCurve(Buys(before, key), Consumed(before, key), t.quantity.value);
      }
    }
  }

  /** The lots of every symbol are what the curve leaves. */
  ghost predicate OnCurve(trades: seq<Trade>) {
    forall key :: Held(BookAll(trades).lots, key) == Remaining(Buys(trades, key), Consumed(trades, key))
  }

  lemma {:induction false} NoDustBefore(trades: seq<Trade>, i: nat)
    requires NoDust(trades) && i <= |trades|
    ensures NoDust(trades[..i])
    decreases |trades| - i
  {
    if i < |trades| {
      NoDustBefore(trades, i + 1);
      assert trades[..i + 1][..i] == trades[..i];
    } else {
      assert trades[..i] == trades;
    }
  }

  lemma UncleanSellLeavesCurve(trades: seq<Trade>)
    requires |trades| > 0 && NoDust(trades[..|trades| - 1]) && !NoDust(trades)
    ensures !OnCurve(trades)
  {
    var before, t := trades[..|trades| - 1], trades[|trades| - 1];
    LotsFollowCurve(before, t.key);
    ConsumedInRange(before, t.key);
    UncleanCutLosesLot(Buys(before, t.key), Consumed(before, t.key), t.quantity.value);
    assert Held(BookAll(trades).lots, t.key) != Remaining(Buys(trades, t.key), Consumed(trades, t.key));
  }

  /** The lots follow the curve all along a history exactly when every sell's cut is clean. */
  lemma {:induction false} LotsFollowCurveExactly(trades: seq<Trade>)
    ensures (forall i :: 0 <= i <= |trades| ==> OnCurve(trades[..i])) <==> NoDust(trades)
  {
    if NoDust(trades) {
      forall i | 0 <= i <= |trades|
        ensures OnCurve(trades[..i])
      {
        NoDustBefore(trades, i);
        forall key
          ensures Held(BookAll(trades[..i]).lots, key) == Remaining(Buys(trades[..i], key), Consumed(trades[..i], key))
        {
          LotsFollowCurve(trades[..i], key);
        }
      }
    } else {
      var n := |trades| - 1;
      if NoDust(trades[..n]) {
        UncleanSellLeavesCurve(trades);
        assert trades[..|trades|] == trades;
      } else {
        LotsFollowCurveExactly(trades[..n]);
        var i :| 0 <= i <= n && !OnCurve(trades[..n][..i]);
        assert trades[..n][..i] == trades[..i];
      }
    }
  }

  /** Unless a sell leaves dust, the lots realize the curve's profit. */
  lemma {:induction false} LotsRealizeCurve(trades: seq<Trade>)
    requires NoDust(trades)
    ensures BookAll(trades).realized == CurveRealized(trades)
  {
    if |trades| > 0 {
      var before, t := trades[..|trades| - 1], trades[|trades| - 1];
      LotsRealizeCurve(before);
      if Counted(t) && t.side.Sell? {
        LotsFollowCurve(before, t.key);
        ConsumedInRange(before, t.key);
        TakeFollowsCurve(Buys(before, t.key), Consumed(before, t.key), t.quantity.value);
      }
    }
  }

  // ----- What the curve gives ----------------------------------------------------------------------------

  /** What a sell takes from the lots held. */
  function TakenBy(before: seq<Trade>, t: Trade): Taken
    requires Counted(t)
  {
    Take(Held(BookAll(before).lots, t.key), t.quantity.value)
  }

  /** The cost all sells of a symbol take from its lots. */
  function TotalBasis(trades: seq<Trade>, key: string): real {
    if |trades| == 0 then 0.0
    else
      var before, t := trades[..|trades| - 1], trades[|trades| - 1];
      TotalBasis(before, key) + if SellsFor(t, key) then TakenBy(before, t).basis else 0.0
  }

  /** Unless a sell leaves dust, a symbol's sells together cost the curve at what they used, however they are split or
      interleaved with purchases. */
  lemma {:induction false} TotalBasisIsCurve(trades: seq<Trade>, key: string)
    requires NoDust(trades)
    ensures TotalBasis(trades, key) == Curve(Buys(trades, key), Consumed(trades, key))
  {
    if |trades| > 0 {
      var before, t := trades[..|trades| - 1], trades[|trades| - 1];
      TotalBasisIsCurve(before, key);
      ConsumedInRange(before, key);
      if BuysFor(t, key) {
        RemainingSnoc(Buys(before, key), Lot(t.quantity.value, t.amountKrw.value), Consumed(before, key));
      } else if SellsFor(t, key) {
        LotsFollowCurve(before, key);
        TakeFollowsCurve(Buys(before, key), Consumed(before, key), t.quantity.value);
      }
    }
  }

  function TotalSold(trades: seq<Trade>, key: string): real {
    if |trades| == 0 then 0.0
    else
      var t := trades[|trades| - 1];
      TotalSold(trades[..|trades| - 1], key) + if SellsFor(t, key) then t.quantity.value else 0.0
  }

  /** No sell of the symbol asks for more than is held. */
  predicate Covered(trades: seq<Trade>, key: string) {
    |trades| == 0 ||
    (var before, t := trades[..|trades| - 1], trades[|trades| - 1];
     && Covered(before, key)
     && (SellsFor(t, key) ==> TotalSold(before, key) + t.quantity.value <= Quantity(Buys(before, key))))
  }

  lemma {:induction false} CoveredConsumesSold(trades: seq<Trade>, key: string)
    requires Covered(trades, key)
    ensures Consumed(trades, key) == TotalSold(trades, key)
  {
    if |trades| > 0 {
      CoveredConsumesSold(trades[..|trades| - 1], key);
    }
  }

  /** Two covered histories with the same purchases and the same total sold, and no dust, take the same cost from their lots. */
  lemma SplittingChangesNothing(a: seq<Trade>, b: seq<Trade>, key: string)
    requires NoDust(a) && NoDust(b) && Covered(a, key) && Covered(b, key)
    requires Buys(a, key) == Buys(b, key) && TotalSold(a, key) == TotalSold(b, key)
    ensures TotalBasis(a, key) == TotalBasis(b, key) == Curve(Buys(a, key), TotalSold(a, key))
  {
    TotalBasisIsCurve(a, key);
    TotalBasisIsCurve(b, key);
    CoveredConsumesSold(a, key);
    CoveredConsumesSold(b, key);
  }

  // ----- Conservation, dust included ---------------------------------------------------------------------

  /** The units and the cost of the lots a sell throws away. */
  function Dust(lots: seq<Lot>, wanted: real): Lot
    requires Positive(lots)
  {
    if wanted <= 0.0 || |lots| == 0 then Lot(0.0, 0.0)
    else
      var lot := lots[0];
      var used := MinReal(wanted, lot.quantity);
      if lot.quantity - used <= DUST then
        var rest := Dust(lots[1..], wanted - used);
        Lot(lot.quantity - used + rest.quantity, lot.costKrw - Times(lot.costKrw, Ratio(used, lot.quantity)) + rest.costKrw)
      else Lot(0.0, 0.0)
  }

  lemma {:induction false} TakeConserves(lots: seq<Lot>, wanted: real)
    requires Positive(lots)
    ensures var taken, dust := Take(lots, wanted), Dust(lots, wanted);
            && Quantity(lots) == Quantity(taken.lots) + (wanted - taken.missing) + dust.quantity
            && Cost(lots) == Cost(taken.lots) + taken.basis + dust.costKrw
            && 0.0 <= dust.quantity <= DUST
  {
    if wanted > 0.0 && |lots| > 0 {
      var lot := lots[0];
      var used := MinReal(wanted, lot.quantity);
      if lot.quantity - used <= DUST {
        TakeConserves(lots[1..], wanted - used);
      } else {
        var cut := [Lot(lot.quantity - used, lot.costKrw - Times(lot.costKrw, Ratio(used, lot.quantity)))] + lots[1..];
        assert cut[1..] == lots[1..];
      }
    }
  }

  /** The units a symbol's sells take from its lots. */
  function TotalTaken(trades: seq<Trade>, key: string): real {
    if |trades| == 0 then 0.0
    else
      var before, t := trades[..|trades| - 1], trades[|trades| - 1];
      TotalTaken(before, key) + if SellsFor(t, key) then t.quantity.value - TakenBy(before, t).missing else 0.0
  }

  function TotalDust(trades: seq<Trade>, key: string): Lot {
    if |trades| == 0 then Lot(0.0, 0.0)
    else
      var before, t := trades[..|trades| - 1], trades[|trades| - 1];
      var d := TotalDust(before, key);
      if SellsFor(t, key) then
        var more := Dust(Held(BookAll(before).lots, key), t.quantity.value);
        Lot(d.quantity + more.quantity, d.costKrw + more.costKrw)
      else d
  }

  lemma {:induction false} CostSnoc(lots: seq<Lot>, lot: Lot)
    ensures Cost(lots + [lot]) == Cost(lots) + lot.costKrw
  {
    if |lots| == 0 {
      assert lots + [lot] == [lot] && [lot][1..] == [];
    } else {
      assert (lots + [lot])[1..] == lots[1..] + [lot];
      CostSnoc(lots[1..], lot);
    }
  }

  function SellsOf(trades: seq<Trade>, key: string): nat {
    if |trades| == 0 then 0
    else SellsOf(trades[..|trades| - 1], key) + if SellsFor(trades[|trades| - 1], key) then 1 else 0
  }

  /** After any history every unit and every won of a symbol's purchases is held, was taken by a sell or was thrown away as
      dust, and no sell throws away more than a billionth of a unit. */
  lemma {:induction false} LotsConserve(trades: seq<Trade>, key: string)
    ensures var held, dust := Held(BookAll(trades).lots, key), TotalDust(trades, key);
            && Quantity(Buys(trades, key)) == Quantity(held) + TotalTaken(trades, key) + dust.quantity
            && Cost(Buys(trades, key)) == Cost(held) + TotalBasis(trades, key) + dust.costKrw
            && 0.0 <= dust.quantity <= DUST * SellsOf(trades, key) as real
  {
    if |trades| > 0 {
      var before, t := trades[..|trades| - 1], trades[|trades| - 1];
      LotsConserve(before, key);
      if BuysFor(t, key) {
        var lot := Lot(t.quantity.value, t.amountKrw.value);
        QuantitySnoc(Buys(before, key), lot);
        CostSnoc(Buys(before, key), lot);
        QuantitySnoc(Held(BookAll(before).lots, key), lot);
        CostSnoc(Held(BookAll(before).lots, key), lot);
      } else if SellsFor(t, key) {
        TakeConserves(Held(BookAll(before).lots, key), t.quantity.value);
      }
    }
  }

  /** The curve and the lots it leaves account for every unit and every won of the purchases. */
  lemma {:induction false} CurveConserves(buys: seq<Lot>, q: real)
    requires Positive(buys) && 0.0 <= q <= Quantity(buys)
    ensures Quantity(Remaining(buys, q)) == Quantity(buys) - q
    ensures Curve(buys, q) + Cost(Remaining(buys, q)) == Cost(buys)
  {
    if |buys| > 0 {
      if q < buys[0].quantity {
        Distribute(q, buys[0].quantity - q, UnitCost(buys[0]));
        var left := Remaining(buys, q);
        assert left[1..] == buys[1..];
      } else {
        CurveConserves(buys[1..], q - buys[0].quantity);
      }
    }
  }

  /** The profit before any rounding. */
  function ExactRealized(trades: seq<Trade>): real {
    if |trades| == 0 then 0.0
    else
      var before, t := trades[..|trades| - 1], trades[|trades| - 1];
      ExactRealized(before) + if Counted(t) && t.side.Sell? then t.amountKrw.value - Basis(before, t) else 0.0
  }

  function SellCount(trades: seq<Trade>): nat {
    if |trades| == 0 then 0
    else
      var t := trades[|trades| - 1];
      SellCount(trades[..|trades| - 1]) + if Counted(t) && t.side.Sell? then 1 else 0
  }

  /** Rounding each sell to whole won moves the total by at most half a won per sell. */
  lemma {:induction false} WithinHalfWonPerSell(trades: seq<Trade>)
    ensures Abs(CurveRealized(trades) as real - ExactRealized(trades)) <= SellCount(trades) as real / 2.0
  {
    if |trades| > 0 {
      WithinHalfWonPerSell(trades[..|trades| - 1]);
    }
  }

  // ----- Whole units never leave dust ------------------------------------------------------------------------

  predicate WholeUnits(trades: seq<Trade>) {
    forall i :: 0 <= i < |trades| && Counted(trades[i]) ==> IsWhole(trades[i].quantity.value)
  }

  predicate IsWhole(x: real) {
    x == x.Floor as real
  }

  predicate AllWhole(lots: seq<Lot>) {
    forall i :: 0 <= i < |lots| ==> IsWhole(lots[i].quantity)
  }

  lemma WholeDifference(x: real, y: real)
    requires IsWhole(x) && IsWhole(y)
    ensures IsWhole(x - y) && IsWhole(x + y)
  {
    WholeInteger(x.Floor - y.Floor);
    WholeInteger(x.Floor + y.Floor);
    assert x - y == (x.Floor - y.Floor) as real && x + y == (x.Floor + y.Floor) as real;
  }

  lemma WholeInteger(n: int)
    ensures IsWhole(n as real)
  {
  }

  lemma {:induction false} WholeCutsLeaveNoDust(buys: seq<Lot>, q: real)
    requires Positive(buys) && AllWhole(buys) && IsWhole(q)
    ensures CleanCut(buys, q)
  {
    if |buys| > 0 {
      WholeDifference(buys[0].quantity, q);
      WholeDifference(q, buys[0].quantity);
      if q >= buys[0].quantity {
        WholeCutsLeaveNoDust(buys[1..], q - buys[0].quantity);
      }
    }
  }

  lemma {:induction false} WholeQuantity(lots: seq<Lot>)
    requires AllWhole(lots)
    ensures IsWhole(Quantity(lots))
  {
    if |lots| > 0 {
      WholeQuantity(lots[1..]);
      WholeDifference(lots[0].quantity, Quantity(lots[1..]));
    }
  }

  lemma {:induction false} WholeBooks(trades: seq<Trade>, key: string)
    requires WholeUnits(trades)
    ensures AllWhole(Buys(trades, key)) && IsWhole(Consumed(trades, key))
  {
    if |trades| > 0 {
      var before, t := trades[..|trades| - 1], trades[|trades| - 1];
      assert forall i :: 0 <= i < |before| ==> before[i] == trades[i];
      WholeBooks(before, key);
      WholeQuantity(Buys(before, key));
      if SellsFor(t, key) {
        WholeDifference(Consumed(before, key), t.quantity.value);
      }
    }
  }

  lemma {:induction false} WholeUnitsLeaveNoDust(trades: seq<Trade>)
    requires WholeUnits(trades)
    ensures NoDust(trades)
  {
    if |trades| > 0 {
      var before, t := trades[..|trades| - 1], trades[|trades| - 1];
      assert forall i :: 0 <= i < |before| ==> before[i] == trades[i];
      WholeUnitsLeaveNoDust(before);
      WholeBooks(before, t.key);
      WholeBooks(trades, t.key);
      if Counted(t) && t.side.Sell? {
        WholeCutsLeaveNoDust(Buys(before, t.key), Consumed(trades, t.key));
      }
    }
  }

  lemma WholeWhenSorted(trades: seq<Trade>)
    requires WholeUnits(trades)
    ensures WholeUnits(InOrder(trades))
  {
    var sorted := InOrder(trades);
    StableSortFacts(trades, TimeOf);
    forall i | 0 <= i < |sorted| && Counted(sorted[i])
      ensures IsWhole(sorted[i].quantity.value)
    {
      assert sorted[i] in multiset(sorted);
      assert sorted[i] in trades;
    }
  }

  /** With whole quantities the lots compute the curve's profit, for trades given in any order. */
  lemma WholeUnitsRealizeCurve(trades: seq<Trade>)
    requires WholeUnits(trades)
    ensures BookAll(InOrder(trades)).realized == CurveRealized(InOrder(trades))
    ensures Abs(BookAll(InOrder(trades)).realized as real - ExactRealized(InOrder(trades)))
            <= SellCount(InOrder(trades)) as real / 2.0
  {
    WholeWhenSorted(trades);
    WholeUnitsLeaveNoDust(InOrder(trades));
    LotsRealizeCurve(InOrder(trades));
    WithinHalfWonPerSell(InOrder(trades));
  }

  /** Below whole units the law can fail: a sell that leaves half a billionth of an expensive lot loses its cost. */
  lemma DustLosesCost(buy: Trade, most: Trade, rest: Trade)
    requires buy == Trade("KR:A", Buy, 0, Some(1.0), Some(4000000000.0), None, None)
    requires most == Trade("KR:A", Sell, 1, Some(0.9999999995), Some(3999999998.0), None, None)
    requires rest == Trade("KR:A", Sell, 2, Some(0.0000000005), Some(2.0), None, None)
    ensures BookAll([buy, most, rest]).realized == 2 && CurveRealized([buy, most, rest]) == 0
  {
    var one, two, three := [buy], [buy, most], [buy, most, rest];
    assert two[..1] == one && three[..2] == two && one[..0] == [];
    DustLots(one, two, three);
    DustCurve(one, two, three);
  }

  lemma DustLots(one: seq<Trade>, two: seq<Trade>, three: seq<Trade>)
    requires |one| == 1 && |two| == 2 && |three| == 3 && two[..1] == one && three[..2] == two
    requires one[0] == Trade("KR:A", Buy, 0, Some(1.0), Some(4000000000.0), None, None)
    requires two[1] == Trade("KR:A", Sell, 1, Some(0.9999999995), Some(3999999998.0), None, None)
    requires three[2] == Trade("KR:A", Sell, 2, Some(0.0000000005), Some(2.0), None, None)
    ensures BookAll(three).realized == 2
  {
    var lot := Lot(1.0, 4000000000.0);
    assert BookAll(one[..0]) == Books(map[], 0);
    assert [] + [lot] == [lot];
    assert Book(Books(map[], 0), one[0]).lots == map["KR:A" := [lot]];
    assert Take([lot], 0.9999999995) == Taken([], 3999999998.0, 0.0);
    assert BookAll(two) == Books(map["KR:A" := []], 0);
    assert Take([], 0.0000000005) == Taken([], 0.0, 0.0000000005);
  }

  lemma DustCurve(one: seq<Trade>, two: seq<Trade>, three: seq<Trade>)
    requires |one| == 1 && |two| == 2 && |three| == 3 && two[..1] == one && three[..2] == two
    requires one[0] == Trade("KR:A", Buy, 0, Some(1.0), Some(4000000000.0), None, None)
    requires two[1] == Trade("KR:A", Sell, 1, Some(0.9999999995), Some(3999999998.0), None, None)
    requires three[2] == Trade("KR:A", Sell, 2, Some(0.0000000005), Some(2.0), None, None)
    ensures CurveRealized(three) == 0
  {
    var lot := Lot(1.0, 4000000000.0);
    assert Buys(one[..0], "KR:A") == [];
    assert Buys(one, "KR:A") == [lot];
    assert Buys(two, "KR:A") == [lot];
    assert [lot][1..] == [];
    assert Quantity([lot]) == 1.0;
    assert Times(UnitCost(lot), 1.0) == UnitCost(lot);
    assert Consumed(one[..0], "KR:A") == 0.0;
    assert Consumed(one, "KR:A") == 0.0;
    assert Consumed(two, "KR:A") == MinReal(0.0 + 0.9999999995, 1.0);
    RemainingAll([lot]);
    assert Curve([lot], 0.9999999995) == 3999999998.0;
    assert Curve([lot], 1.0) == 4000000000.0;
    assert CurveRealized(one) == 0;
    assert Basis(one, two[1]) == 3999999998.0;
    assert CurveRealized(two) == 0;
    assert Basis(two, three[2]) == 2.0;
  }
}
