/** How many decision items are matched by trades: the counting loop and the multiset it computes. */
module Linkage {
  import opened Markets
  import opened Sequences
  import opened Texts

  datatype Summary = Summary(decisionItemCount: nat, filledTradeCount: nat, linkedDecisionItemCount: nat,
                             unlinkedDecisionItemCount: int, tradeWithoutDecisionCount: nat)

  datatype Action = Buy | Sell | Hold

  /** What a decision item, with its packet, and a trade are linked by. */
  datatype Item = Item(packetId: string, market: Market, symbol: string, action: Action)

  function ActionText(a: Action): string {
    match a
    case Buy => "VIRTUAL_BUY"
    case Sell => "VIRTUAL_SELL"
    case Hold => "VIRTUAL_HOLD"
  }

  function JoinedKey(i: Item): string {
    i.packetId + ":" + MarketText(i.market) + ":" + i.symbol + ":" + ActionText(i.action)
  }

  function Keys(items: seq<Item>): (keys: seq<string>)
    ensures |keys| == |items|
  {
    seq(|items|, i requires 0 <= i < |items| => JoinedKey(items[i]))
  }

  function CountAt(counts: map<string, nat>, key: string): nat {
    if key in counts then counts[key] else 0
  }

  /** The counter map holds exactly the multiset m. */
  ghost predicate Counts(counts: map<string, nat>, m: multiset<string>) {
    forall key :: CountAt(counts, key) == m[key]
  }

  /** The sum of the counters, key by key. */
  method SumCounts(counts: map<string, nat>, ghost m: multiset<string>) returns (sum: nat)
    requires Counts(counts, m)
    ensures sum == |m|
  {
    sum := 0;
    var keys := counts.Keys;
    ghost var rest := m;
    while keys != {}
      invariant keys <= counts.Keys
      invariant forall key :: rest[key] == if key in keys then CountAt(counts, key) else 0
      invariant sum + |rest| == |m|
      decreases keys
    {
      var key :| key in keys;
      RemoveKey(rest, key);
      sum := sum + counts[key];
      rest := rest[key := 0];
      keys := keys - {key};
    }
    assert rest == multiset{};
  }

  lemma RemoveKey(m: multiset<string>, key: string)
    ensures |m| == |m[key := 0]| + m[key]
  {
  }

  /** The first loop: how many trades each key has. */
  method CountTrades(tradeKeys: seq<string>) returns (remaining: map<string, nat>)
    ensures Counts(remaining, multiset(tradeKeys))
  {
    remaining := map[];
    for i := 0 to |tradeKeys|
      invariant Counts(remaining, multiset(tradeKeys[..i]))
    {
      TakeNext(tradeKeys, i);
      remaining := remaining[tradeKeys[i] := CountAt(remaining, tradeKeys[i]) + 1];
    }
    assert tradeKeys[..|tradeKeys|] == tradeKeys;
  }

  /** The second loop: every decision item takes one trade of its key while there is one left. */
  method LinkItems(decisionKeys: seq<string>, trades: map<string, nat>, ghost m: multiset<string>)
    returns (linked: nat, remaining: map<string, nat>)
    requires Counts(trades, m)
    ensures linked == |multiset(decisionKeys) * m|
    ensures Counts(remaining, m - multiset(decisionKeys))
  {
    remaining := trades;
    linked := 0;
    for i := 0 to |decisionKeys|
      invariant Counts(remaining, m - multiset(decisionKeys[..i]))
      invariant linked == |multiset(decisionKeys[..i]) * m|
    {
      var key := decisionKeys[i];
      TakeNext(decisionKeys, i);
      ghost var left := m - multiset(decisionKeys[..i]);
      OneMore(multiset(decisionKeys[..i]), m, key);
      assert left[key] == CountAt(remaining, key);
      if CountAt(remaining, key) > 0 {
        linked := linked + 1;
        remaining := remaining[key := CountAt(remaining, key) - 1];
      }
    }
    assert decisionKeys[..|decisionKeys|] == decisionKeys;
  }

  /** `buildDecisionTradeLinkage`: decisions holds the items of all decisions, each with the packet of its decision. */
  method BuildDecisionTradeLinkage(decisions: seq<Item>, trades: seq<Item>) returns (s: Summary)
    ensures s.decisionItemCount == |decisions| && s.filledTradeCount == |trades|
    ensures s.linkedDecisionItemCount == |multiset(Keys(decisions)) * multiset(Keys(trades))|
    ensures s.linkedDecisionItemCount + s.unlinkedDecisionItemCount == |decisions|
    ensures s.linkedDecisionItemCount + s.tradeWithoutDecisionCount == |trades|
    ensures s.unlinkedDecisionItemCount == |multiset(Keys(decisions)) - multiset(Keys(trades))|
    ensures s.tradeWithoutDecisionCount == |multiset(Keys(trades)) - multiset(Keys(decisions))|
  {
    var decisionKeys, tradeKeys := Keys(decisions), Keys(trades);
    ghost var asked, filled := multiset(decisionKeys), multiset(tradeKeys);
    var counts := CountTrades(tradeKeys);
    var linked, remaining := LinkItems(decisionKeys, counts, filled);
    var without := SumCounts(remaining, filled - asked);
    SplitByCommon(filled, asked);
    SplitByCommon(asked, filled);
    return Summary(|decisionKeys|, |tradeKeys|, linked, |decisionKeys| - linked, without);
  }

  lemma OneMore<T>(seen: multiset<T>, trades: multiset<T>, key: T)
    ensures (seen + multiset{key}) * trades ==
            if (trades - seen)[key] > 0 then seen * trades + multiset{key} else seen * trades
    ensures (trades - (seen + multiset{key})) ==
            if (trades - seen)[key] > 0 then (trades - seen) - multiset{key} else trades - seen
  {
  }

  lemma SplitByCommon(a: multiset<string>, b: multiset<string>)
    ensures |a| == |a * b| + |a - b| && a * b == b * a
  {
  }

  // ----- Keys and the items they stand for -----------------------------------------------------------

  /** What the schema lets a packet id or a symbol be: a text that trimming leaves as it is, and not the empty one. */
  predicate Field(s: string) {
    s != "" && Trim(s) == s
  }

  predicate ValidItem(i: Item) {
    Field(i.packetId) && Field(i.symbol)
  }

  predicate ValidItems(items: seq<Item>) {
    forall i :: 0 <= i < |items| ==> ValidItem(items[i])
  }

  /** Trades are valid items that buy or sell. */
  predicate ValidTrades(trades: seq<Item>) {
    ValidItems(trades) && forall i :: 0 <= i < |trades| ==> !trades[i].action.Hold?
  }

  /** The joined key up to the action. */
  function Front(i: Item): string {
    i.packetId + ":" + MarketText(i.market) + ":" + i.symbol
  }

  /** A market between colons stands at k, with a field on either side. */
  predicate SplitsAt(front: string, k: nat, m: Market) {
    k + 4 <= |front| && front[k..k + 4] == ":" + MarketText(m) + ":" && Field(front[..k]) && Field(front[k + 4..])
  }

  /** A market between colons stands at a second place of packet id, market and symbol joined by colons. */
  predicate Ambiguous(i: Item) {
    exists k, m :: 0 <= k < |Front(i)| && k != |i.packetId| && SplitsAt(Front(i), k, m)
  }

  lemma FrontSplits(i: Item)
    requires ValidItem(i)
    ensures SplitsAt(Front(i), |i.packetId|, i.market) && |i.packetId| < |Front(i)|
    ensures Front(i)[..|i.packetId|] == i.packetId && Front(i)[|i.packetId| + 4..] == i.symbol
  {
    var front, k := Front(i), |i.packetId|;
    assert front == i.packetId + (":" + MarketText(i.market) + ":") + i.symbol;
    assert front[..k] == i.packetId && front[k..k + 4] == ":" + MarketText(i.market) + ":" && front[k + 4..] == i.symbol;
  }

  lemma KeyDecidesFront(i: Item, j: Item)
    ensures JoinedKey(i) == JoinedKey(j) <==> Front(i) == Front(j) && i.action == j.action
  {
    assert JoinedKey(i) == Front(i) + ":" + ActionText(i.action) && JoinedKey(j) == Front(j) + ":" + ActionText(j.action);
    if JoinedKey(i) == JoinedKey(j) {
      LastSeparatorDecides(Front(i), ActionText(i.action), Front(j), ActionText(j.action), ':');
      assert ActionText(i.action)[8] == ActionText(j.action)[8];
    }
  }

  predicate PlainSymbol(i: Item) {
    ':' !in i.symbol
  }

  /** Of two items without a colon in their symbols the key tells which it is, whatever their packet ids. */
  lemma JoinedKeyDecides(i: Item, j: Item)
    requires PlainSymbol(i) && PlainSymbol(j) && JoinedKey(i) == JoinedKey(j)
    ensures i == j
  {
    KeyDecidesFront(i, j);
    LastSeparatorDecides(i.packetId + ":" + MarketText(i.market), i.symbol, j.packetId + ":" + MarketText(j.market), j.symbol, ':');
    LastSeparatorDecides(i.packetId, MarketText(i.market), j.packetId, MarketText(j.market), ':');
    assert MarketText(i.market)[0] == MarketText(j.market)[0];
  }

  lemma SameFront(i: Item, j: Item)
    requires ValidItem(i) && ValidItem(j) && Front(i) == Front(j) && |i.packetId| == |j.packetId|
    ensures i.packetId == j.packetId && i.market == j.market && i.symbol == j.symbol
  {
    FrontSplits(i);
    FrontSplits(j);
    assert (":" + MarketText(i.market) + ":")[1] == (":" + MarketText(j.market) + ":")[1];
  }

  /** The other item a second split stands for. */
  lemma OtherItem(i: Item, k: nat, m: Market) returns (j: Item)
    requires ValidItem(i) && k != |i.packetId| && SplitsAt(Front(i), k, m)
    ensures ValidItem(j) && j != i && JoinedKey(j) == JoinedKey(i)
  {
    var front := Front(i);
    j := Item(front[..k], m, front[k + 4..], i.action);
    assert front == front[..k] + front[k..k + 4] + front[k + 4..];
    assert Front(j) == front;
    KeyDecidesFront(i, j);
  }

  /** A valid item shares its key with another valid item exactly when it is ambiguous. */
  lemma SharedExactlyWhenAmbiguous(i: Item)
    requires ValidItem(i)
    ensures (exists j :: ValidItem(j) && j != i && JoinedKey(j) == JoinedKey(i)) <==> Ambiguous(i)
  {
    forall j | ValidItem(j) && j != i && JoinedKey(j) == JoinedKey(i)
      ensures Ambiguous(i)
    {
      KeyDecidesFront(i, j);
      FrontSplits(j);
      if |j.packetId| == |i.packetId| {
        SameFront(i, j);
      }
    }
    if Ambiguous(i) {
      var k, m :| 0 <= k < |Front(i)| && k != |i.packetId| && SplitsAt(Front(i), k, m);
      var j := OtherItem(i, k, m);
    }
  }

  lemma AloneUnderKey(item: Item, other: Item)
    requires ValidItem(item) && ValidItem(other) && !Ambiguous(item) && JoinedKey(item) == JoinedKey(other)
    ensures item == other
  {
    SharedExactlyWhenAmbiguous(item);
  }

  /** How often the last item adds to the count of an item and of a key. */
  lemma LastCounts(items: seq<Item>, item: Item, key: string)
    requires |items| > 0
    ensures var before, last := items[..|items| - 1], items[|items| - 1];
            && multiset(items)[item] == multiset(before)[item] + (if last == item then 1 else 0)
            && multiset(Keys(items))[key] == multiset(Keys(before))[key] + (if JoinedKey(last) == key then 1 else 0)
  {
    ItemsSnoc(items[..|items| - 1], items[|items| - 1]);
    SplitLast(items);
  }

  lemma {:induction false} KeysCountItems(items: seq<Item>, item: Item)
    requires ValidItems(items) && ValidItem(item) && !Ambiguous(item)
    ensures multiset(Keys(items))[JoinedKey(item)] == multiset(items)[item]
  {
    if |items| > 0 {
      var last := items[|items| - 1];
      KeysCountItems(items[..|items| - 1], item);
      LastCounts(items, item, JoinedKey(item));
      if JoinedKey(last) == JoinedKey(item) {
        AloneUnderKey(item, last);
      }
    }
  }

  lemma ItemsSnoc(items: seq<Item>, last: Item)
    ensures multiset(items + [last]) == multiset(items) + multiset{last}
    ensures Keys(items + [last]) == Keys(items) + [JoinedKey(last)]
    ensures multiset(Keys(items + [last])) == multiset(Keys(items)) + multiset{JoinedKey(last)}
  {
    assert Keys(items + [last]) == Keys(items) + [JoinedKey(last)];
  }

  /** No trade is linked to an item that holds. */
  lemma {:induction false} HoldsAreUnlinked(trades: seq<Item>, item: Item)
    requires ValidTrades(trades) && item.action.Hold?
    ensures multiset(Keys(trades))[JoinedKey(item)] == 0 && multiset(trades)[item] == 0
  {
    if |trades| > 0 {
      HoldsAreUnlinked(trades[..|trades| - 1], item);
      LastCounts(trades, item, JoinedKey(item));
      KeyDecidesFront(item, trades[|trades| - 1]);
    }
  }

  /** The keys of all items that buy or sell stand for them alone. */
  predicate Unambiguous(decisions: seq<Item>) {
    forall i :: 0 <= i < |decisions| && !decisions[i].action.Hold? ==> !Ambiguous(decisions[i])
  }

  /** Without ambiguous decisions as many items are linked as decisions and trades have in common. */
  lemma {:induction false} LinkedAreCommonItems(decisions: seq<Item>, trades: seq<Item>)
    requires ValidItems(decisions) && ValidTrades(trades) && Unambiguous(decisions)
    ensures |multiset(Keys(decisions)) * multiset(Keys(trades))| == |multiset(decisions) * multiset(trades)|
  {
    if |decisions| == 0 {
      NothingLinked(decisions, trades);
    } else {
      var before, item := decisions[..|decisions| - 1], decisions[|decisions| - 1];
      LinkedAreCommonItems(before, trades);
      SplitLast(decisions);
      OneMoreLinked(decisions, before, item, trades);
    }
  }

  lemma NothingLinked(decisions: seq<Item>, trades: seq<Item>)
    requires |decisions| == 0
    ensures |multiset(Keys(decisions)) * multiset(Keys(trades))| == 0 == |multiset(decisions) * multiset(trades)|
  {
    assert multiset(decisions) * multiset(trades) == multiset{};
    assert multiset(Keys(decisions)) * multiset(Keys(trades)) == multiset{};
  }

  lemma OneMoreLinked(decisions: seq<Item>, before: seq<Item>, item: Item, trades: seq<Item>)
    requires decisions == before + [item]
    requires ValidItems(before) && ValidItem(item) && ValidTrades(trades) && (!item.action.Hold? ==> !Ambiguous(item))
    requires |multiset(Keys(before)) * multiset(Keys(trades))| == |multiset(before) * multiset(trades)|
    ensures |multiset(Keys(decisions)) * multiset(Keys(trades))| == |multiset(decisions) * multiset(trades)|
  {
    if item.action.Hold? {
      HoldsAreUnlinked(trades, item);
    } else {
      KeysCountItems(before, item);
      KeysCountItems(trades, item);
    }
    ItemsSnoc(before, item);
    OneMore(multiset(before), multiset(trades), item);
    OneMore(multiset(Keys(before)), multiset(Keys(trades)), JoinedKey(item));
  }

  lemma {:induction false} KeysCountBoth(items: seq<Item>, i: Item, j: Item)
    requires i != j && JoinedKey(i) == JoinedKey(j)
    ensures multiset(Keys(items))[JoinedKey(i)] >= multiset(items)[i] + multiset(items)[j]
  {
    if |items| > 0 {
      KeysCountBoth(items[..|items| - 1], i, j);
      LastCounts(items, i, JoinedKey(i));
      LastCounts(items, j, JoinedKey(i));
    }
  }

  function Repeat(item: Item, count: nat): (items: seq<Item>)
    ensures |items| == count && forall i :: 0 <= i < count ==> items[i] == item
  {
    seq(count, i => item)
  }

  lemma {:induction false} RepeatCounts(item: Item, count: nat)
    ensures multiset(Repeat(item, count)) == multiset{}[item := count]
    ensures multiset(Keys(Repeat(item, count))) == multiset{}[JoinedKey(item) := count]
  {
    if count == 0 {
      assert Repeat(item, 0) == [];
    } else {
      RepeatCounts(item, count - 1);
      ItemsSnoc(Repeat(item, count - 1), item);
      assert Repeat(item, count) == Repeat(item, count - 1) + [item];
      OneMoreOf(item, count - 1);
      OneMoreOf(JoinedKey(item), count - 1);
    }
  }

  lemma OneMoreOf<T>(x: T, count: nat)
    ensures multiset{}[x := count] + multiset{x} == multiset{}[x := count + 1]
  {
  }

  lemma RepeatIsValid(item: Item, count: nat)
    requires ValidItem(item) && !item.action.Hold?
    ensures ValidTrades(Repeat(item, count))
  {
  }

  lemma SharingItem(i: Item) returns (j: Item)
    requires ValidItem(i) && Ambiguous(i)
    ensures ValidItem(j) && j != i && JoinedKey(j) == JoinedKey(i) && j.action == i.action
  {
    var k, m :| 0 <= k < |Front(i)| && k != |i.packetId| && SplitsAt(Front(i), k, m);
    j := OtherItem(i, k, m);
    KeyDecidesFront(i, j);
  }

  /** A key that two items share counts both. */
  lemma SharedKeyCounts(items: seq<Item>, i: nat, other: Item)
    requires i < |items| && other != items[i] && JoinedKey(other) == JoinedKey(items[i])
    ensures multiset(Keys(items))[JoinedKey(other)] >= multiset(items)[other] + 1
  {
    KeysCountBoth(items, other, items[i]);
    assert items[i] in multiset(items);
  }

  /** Of two multisets the one with more copies of its element has more in common with enough copies of it. */
  lemma MoreInCommon<T, U>(m: multiset<T>, x: T, n: multiset<U>, y: U)
    requires m[x] >= n[y] + 1
    ensures |m * multiset{}[x := n[y] + 1]| > |n * multiset{}[y := n[y] + 1]|
  {
    CommonWithOne(m, x, n[y] + 1);
    CommonWithOne(n, y, n[y] + 1);
  }

  /** What a multiset has in common with count copies of x. */
  lemma CommonWithOne<T>(m: multiset<T>, x: T, count: nat)
    ensures |m * multiset{}[x := count]| == if m[x] < count then m[x] else count
  {
    assert m * multiset{}[x := count] == multiset{}[x := if m[x] < count then m[x] else count];
  }

  /** One trade more of the other item than there are decisions for it is linked to the ambiguous one. */
  lemma AmbiguousLinksTooMany(decisions: seq<Item>, i: nat) returns (trades: seq<Item>)
    requires ValidItems(decisions) && i < |decisions| && !decisions[i].action.Hold? && Ambiguous(decisions[i])
    ensures ValidTrades(trades)
    ensures |multiset(Keys(decisions)) * multiset(Keys(trades))| > |multiset(decisions) * multiset(trades)|
  {
    var other := SharingItem(decisions[i]);
    var count := multiset(decisions)[other] + 1;
    trades := Repeat(other, count);
    RepeatIsValid(other, count);
    RepeatCounts(other, count);
    SharedKeyCounts(decisions, i, other);
    MoreInCommon(multiset(Keys(decisions)), JoinedKey(other), multiset(decisions), other);
  }

  /** Whatever the trades, linked items are common items, exactly when no item that buys or sells is ambiguous. */
  lemma LinkedAreCommonExactly(decisions: seq<Item>)
    requires ValidItems(decisions)
    ensures (forall trades :: ValidTrades(trades) ==>
               |multiset(Keys(decisions)) * multiset(Keys(trades))| == |multiset(decisions) * multiset(trades)|)
            <==> Unambiguous(decisions)
  {
    if Unambiguous(decisions) {
      forall trades | ValidTrades(trades)
        ensures |multiset(Keys(decisions)) * multiset(Keys(trades))| == |multiset(decisions) * multiset(trades)|
      {
        LinkedAreCommonItems(decisions, trades);
      }
    } else {
      var i :| 0 <= i < |decisions| && !decisions[i].action.Hold? && Ambiguous(decisions[i]);
      var trades := AmbiguousLinksTooMany(decisions, i);
    }
  }

  /** A colon in a symbol can link an item to a trade of another packet and symbol. */
  lemma ColonsCollide() returns (decision: Item, trade: Item)
    ensures ValidItem(decision) && ValidItem(trade) && decision != trade && JoinedKey(decision) == JoinedKey(trade)
    ensures |multiset(Keys([decision])) * multiset(Keys([trade]))| == 1 && multiset([decision]) * multiset([trade]) == multiset{}
  {
    decision := Item("a:KR", KR, "b", Buy);
    trade := Item("a", KR, "KR:b", Buy);
    ShortFields();
    assert "a:KR" + ":" + "KR" == "a" + ":" + "KR" + ":" + "KR";
    assert Front(decision) == "a:KR" + ":" + "KR" + ":" + "b" == "a" + ":" + "KR" + ":" + "KR:b" == Front(trade);
    KeyDecidesFront(decision, trade);
    SingleLinked(decision, trade);
  }

  lemma ShortFields()
    ensures Field("a:KR") && Field("a") && Field("b") && Field("KR:b")
  {
  }

  lemma SingleLinked(decision: Item, trade: Item)
    requires decision != trade && JoinedKey(decision) == JoinedKey(trade)
    ensures |multiset(Keys([decision])) * multiset(Keys([trade]))| == 1 && multiset([decision]) * multiset([trade]) == multiset{}
  {
    assert Keys([decision]) == Keys([trade]) == [JoinedKey(trade)];
    assert multiset(Keys([decision])) * multiset(Keys([trade])) == multiset{JoinedKey(trade)};
  }
}
