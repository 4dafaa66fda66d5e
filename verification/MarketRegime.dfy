/** The market regime classifier, and how the classification of all markets follows from that of each. */
module MarketRegime {
  import opened Markets
  import opened Numbers
  import opened Sequences

  datatype Snapshot = Snapshot(market: Market, symbol: string, observedAt: int, lastPriceKrw: nat)

  /** A JavaScript number: a first price of zero makes a return infinite or not a number. */
  datatype Num = Finite(value: real) | Infinite | NaN

  datatype SymbolReturn = SymbolReturn(market: Market, symbol: string, snapshotCount: nat, firstObservedAt: int,
                                       lastObservedAt: int, firstPriceKrw: nat, lastPriceKrw: nat, returnRatio: Num)

  datatype Label = Bull | Bear | Sideways | Mixed | InsufficientData

  datatype Thresholds = Thresholds(bullReturn: real, bearReturn: real, sidewaysAbsReturn: real, breadth: real)

  datatype Options = Options(snapshots: seq<Snapshot>, windowStart: int, windowEnd: int, minSymbols: int,
                             minSnapshotsPerSymbol: int, thresholds: Thresholds)

  datatype Ratios = Ratios(averageReturn: Num, advancing: real, declining: real, flat: real)

  datatype Classification = Classification(regime: Label, symbolCount: nat, ratios: Option<Ratios>, reason: string,
                                           symbolReturns: seq<SymbolReturn>)

  /** `localeCompare` on symbols: the place of a symbol in the collation order. */
  type Collation = string -> real

  function MarketRank(m: Market): int {
    match m
    case KR => 0
    case US => 1
  }

  // ----- Selecting, ordering and grouping the snapshots ------------------------------------------------

  function Inside(start: int, end: int): Snapshot -> bool {
    (s: Snapshot) => start <= s.observedAt <= end
  }

  function TradedIn(m: Market): Snapshot -> bool {
    (s: Snapshot) => s.market == m
  }

  predicate NameBefore(m: Market, symbol: string, n: Market, other: string, collate: Collation) {
    MarketRank(m) < MarketRank(n) || (m == n && collate(symbol) <= collate(other))
  }

  function SnapshotOrder(collate: Collation): (Snapshot, Snapshot) -> bool {
    (a: Snapshot, b: Snapshot) =>
      a.observedAt < b.observedAt
      || (a.observedAt == b.observedAt && NameBefore(a.market, a.symbol, b.market, b.symbol, collate))
  }

  function ReturnOrder(collate: Collation): (SymbolReturn, SymbolReturn) -> bool {
    (a: SymbolReturn, b: SymbolReturn) => NameBefore(a.market, a.symbol, b.market, b.symbol, collate)
  }

  lemma SnapshotOrderIsPreorder(collate: Collation)
    ensures TotalPreorder(SnapshotOrder(collate))
  {
  }

  function Windowed(o: Options, collate: Collation): seq<Snapshot> {
    SortWith(Select(o.snapshots, Inside(o.windowStart, o.windowEnd)), SnapshotOrder(collate))
  }

  function KeyOf(s: Snapshot): string {
    MarketText(s.market) + ":" + s.symbol
  }

  function KeyIn(m: Market): string -> bool {
    (key: string) => MarketText(m) + ":" <= key
  }

  lemma KeyDecides(s: Snapshot, t: Snapshot)
    ensures KeyOf(s) == KeyOf(t) <==> s.market == t.market && s.symbol == t.symbol
    ensures KeyIn(t.market)(KeyOf(s)) <==> s.market == t.market
  {
    assert KeyOf(s)[0] == MarketText(s.market)[0] && KeyOf(t)[0] == MarketText(t.market)[0];
    assert KeyOf(s)[3..] == s.symbol && KeyOf(t)[3..] == t.symbol;
    assert KeyOf(s) == MarketText(s.market) + ":" + s.symbol;
    assert (MarketText(t.market) + ":")[0] == MarketText(t.market)[0];
    assert s.market == t.market ==> MarketText(t.market) + ":" <= KeyOf(s);
  }

  /** The distinct keys in the order of their first snapshots. */
  function FirstKeys(snapshots: seq<Snapshot>): (keys: seq<string>)
    ensures forall i :: 0 <= i < |snapshots| ==> KeyOf(snapshots[i]) in keys
  {
    if |snapshots| == 0 then []
    else
      var earlier, key := FirstKeys(snapshots[..|snapshots| - 1]), KeyOf(snapshots[|snapshots| - 1]);
      if key in earlier then earlier else earlier + [key]
  }

  /** The snapshots of a key in order. */
  function Members(snapshots: seq<Snapshot>, key: string): (members: seq<Snapshot>)
    ensures forall i :: 0 <= i < |members| ==> KeyOf(members[i]) == key
  {
    if |snapshots| == 0 then []
    else
      var earlier, last := Members(snapshots[..|snapshots| - 1], key), snapshots[|snapshots| - 1];
      if KeyOf(last) == key then earlier + [last] else earlier
  }

  lemma {:induction false} NoMembers(snapshots: seq<Snapshot>, key: string)
    requires key !in FirstKeys(snapshots)
    ensures Members(snapshots, key) == []
  {
    if |snapshots| > 0 {
      NoMembers(snapshots[..|snapshots| - 1], key);
    }
  }

  /** keys and groups are what the snapshots seen so far give. */
  ghost predicate Grouped(snapshots: seq<Snapshot>, keys: seq<string>, groups: map<string, seq<Snapshot>>) {
    && keys == FirstKeys(snapshots)
    && (forall key :: key in groups <==> key in keys)
    && (forall key :: key in groups ==> groups[key] == Members(snapshots, key))
  }

  lemma MembersAppend(snapshots: seq<Snapshot>, s: Snapshot, key: string)
    ensures Members(snapshots + [s], key) ==
            if KeyOf(s) == key then Members(snapshots, key) + [s] else Members(snapshots, key)
  {
    assert (snapshots + [s])[..|snapshots|] == snapshots;
  }

  lemma FirstKeysAppend(snapshots: seq<Snapshot>, s: Snapshot)
    ensures var earlier, key := FirstKeys(snapshots), KeyOf(s);
            FirstKeys(snapshots + [s]) == if key in earlier then earlier else earlier + [key]
  {
    assert (snapshots + [s])[..|snapshots|] == snapshots;
  }

  lemma NewGroup(snapshots: seq<Snapshot>, keys: seq<string>, groups: map<string, seq<Snapshot>>, s: Snapshot)
    requires Grouped(snapshots, keys, groups) && KeyOf(s) !in groups
    ensures Grouped(snapshots + [s], keys + [KeyOf(s)], groups[KeyOf(s) := [s]])
  {
    var mine, after := KeyOf(s), groups[KeyOf(s) := [s]];
    FirstKeysAppend(snapshots, s);
    NoMembers(snapshots, mine);
    forall key | key in after
      ensures after[key] == Members(snapshots + [s], key)
    {
      MembersAppend(snapshots, s, key);
    }
  }

  lemma GrownGroup(snapshots: seq<Snapshot>, keys: seq<string>, groups: map<string, seq<Snapshot>>, s: Snapshot)
    requires Grouped(snapshots, keys, groups) && KeyOf(s) in groups
    ensures Grouped(snapshots + [s], keys, groups[KeyOf(s) := groups[KeyOf(s)] + [s]])
  {
    var mine, after := KeyOf(s), groups[KeyOf(s) := groups[KeyOf(s)] + [s]];
    FirstKeysAppend(snapshots, s);
    forall key | key in after
      ensures after[key] == Members(snapshots + [s], key)
    {
      MembersAppend(snapshots, s, key);
    }
  }

  /** `groupBySymbol`: keys keeps the insertion order of the map. */
  method GroupBySymbol(snapshots: seq<Snapshot>) returns (keys: seq<string>, groups: map<string, seq<Snapshot>>)
    ensures keys == FirstKeys(snapshots)
    ensures forall key :: key in groups <==> key in keys
    ensures forall key :: key in groups ==> groups[key] == Members(snapshots, key)
  {
    keys := [];
    groups := map[];
    for i := 0 to |snapshots|
      invariant Grouped(snapshots[..i], keys, groups)
    {
      var snapshot := snapshots[i];
      var key := KeyOf(snapshot);
      TakeNext(snapshots, i);
      if key !in groups {
        NewGroup(snapshots[..i], keys, groups, snapshot);
        keys := keys + [key];
        groups := groups[key := [snapshot]];
        continue;
      }
      GrownGroup(snapshots[..i], keys, groups, snapshot);
      groups := groups[key := groups[key] + [snapshot]];
    }
    assert snapshots[..|snapshots|] == snapshots;
  }

  // ----- Returns and the classification ------------------------------------------------------------------

  function RoundNum(x: Num): Num {
    if x.Finite? then Finite(RoundMillionth(x.value)) else x
  }

  function ReturnRatio(first: nat, last: nat): Num {
    if first == 0 then (if last == 0 then NaN else Infinite)
    else Finite(RoundMillionth(Ratio((last - first) as real, first as real)))
  }

  function ToSymbolReturn(group: seq<Snapshot>): SymbolReturn
    requires |group| > 0
  {
    var first, last := group[0], group[|group| - 1];
    SymbolReturn(first.market, first.symbol, |group|, first.observedAt, last.observedAt, first.lastPriceKrw, last.lastPriceKrw,
                 ReturnRatio(first.lastPriceKrw, last.lastPriceKrw))
  }

  /** The returns of the groups with enough snapshots, group by group. */
  function ReturnsOf(snapshots: seq<Snapshot>, keys: seq<string>, min: int): seq<SymbolReturn> {
    if |keys| == 0 then []
    else
      var earlier, group := ReturnsOf(snapshots, keys[..|keys| - 1], min), Members(snapshots, keys[|keys| - 1]);
      if |group| >= min && |group| > 0 then earlier + [ToSymbolReturn(group)] else earlier
  }

  function SymbolReturns(o: Options, collate: Collation): seq<SymbolReturn> {
    var w := Windowed(o, collate);
    SortWith(ReturnsOf(w, FirstKeys(w), o.minSnapshotsPerSymbol), ReturnOrder(collate))
  }

  function AddNum(x: Num, y: Num): Num {
    if x.NaN? || y.NaN? then NaN
    else if x.Infinite? || y.Infinite? then Infinite
    else Finite(x.value + y.value)
  }

  function TotalReturn(rs: seq<SymbolReturn>): Num {
    if |rs| == 0 then Finite(0.0)
    else AddNum(TotalReturn(rs[..|rs| - 1]), rs[|rs| - 1].returnRatio)
  }

  function MeanReturn(rs: seq<SymbolReturn>): Num
    requires |rs| > 0
  {
    var total := TotalReturn(rs);
    if total.Finite? then Finite(Ratio(total.value, |rs| as real)) else total
  }

  predicate Above(x: Num, bound: real) {
    x.Infinite? || (x.Finite? && x.value > bound)
  }

  predicate AtLeast(x: Num, bound: real) {
    x.Infinite? || (x.Finite? && x.value >= bound)
  }

  predicate AtMost(x: Num, bound: real) {
    x.Finite? && x.value <= bound
  }

  function Advancing(r: SymbolReturn): bool {
    Above(r.returnRatio, 0.0)
  }

  function Declining(r: SymbolReturn): bool {
    r.returnRatio.Finite? && r.returnRatio.value < 0.0
  }

  function Flat(r: SymbolReturn): bool {
    r.returnRatio == Finite(0.0)
  }

  function RatioOf(rs: seq<SymbolReturn>, p: SymbolReturn -> bool): real
    requires |rs| > 0
  {
    Ratio(|Select(rs, p)| as real, |rs| as real)
  }

  function RatiosOf(rs: seq<SymbolReturn>): Ratios
    requires |rs| > 0
  {
    Ratios(RoundNum(MeanReturn(rs)), RoundMillionth(RatioOf(rs, Advancing)),
           RoundMillionth(RatioOf(rs, Declining)), RoundMillionth(RatioOf(rs, Flat)))
  }

  function RegimeLabel(r: Ratios, t: Thresholds): Label {
    if AtLeast(r.averageReturn, t.bullReturn) && r.advancing >= t.breadth then Bull
    else if AtMost(r.averageReturn, t.bearReturn) && r.declining >= t.breadth then Bear
    else if AtMost(r.averageReturn, t.sidewaysAbsReturn) && AtLeast(r.averageReturn, -t.sidewaysAbsReturn) then Sideways
    else Mixed
  }

  function ReasonText(regime: Label): string {
    match regime
    case Bull => "POSITIVE_RETURN_AND_BREADTH"
    case Bear => "NEGATIVE_RETURN_AND_BREADTH"
    case Sideways => "LOW_ABSOLUTE_AVERAGE_RETURN"
    case Mixed => "DIRECTION_OR_BREADTH_MIXED"
    case InsufficientData => "INSUFFICIENT_CLASSIFIABLE_SYMBOLS"
  }

  predicate ValidOptions(o: Options) {
    o.windowStart <= o.windowEnd && o.minSymbols > 0 && o.minSnapshotsPerSymbol > 0
  }

  function Classified(o: Options, collate: Collation): Classification
    requires ValidOptions(o)
  {
    var found := SymbolReturns(o, collate);
    var symbolCount := |FirstKeys(Windowed(o, collate))|;
    if |found| < o.minSymbols then Classification(InsufficientData, symbolCount, None, ReasonText(InsufficientData), found)
    else
      var regime := RegimeLabel(RatiosOf(found), o.thresholds);
      Classification(regime, symbolCount, Some(RatiosOf(found)), ReasonText(regime), found)
  }

  /** `classifyMarketRegime`; `None` for options it throws on. */
  method ClassifyMarketRegime(o: Options, collate: Collation) returns (c: Option<Classification>)
    ensures c == if ValidOptions(o) then Some(Classified(o, collate)) else None
    ensures c.None? <==> o.windowEnd < o.windowStart || o.minSymbols < 1 || o.minSnapshotsPerSymbol < 1
  {
    if !ValidOptions(o) {
      return None;
    }
    var windowSnapshots := Windowed(o, collate);
    var keys, groups := GroupBySymbol(windowSnapshots);
    var found := CollectReturns(windowSnapshots, keys, groups, o.minSnapshotsPerSymbol);
    found := SortWith(found, ReturnOrder(collate));
    if |found| < o.minSymbols {
      return Some(Classification(InsufficientData, |keys|, None, ReasonText(InsufficientData), found));
    }
    var ratios := RatiosOf(found);
    var regime := RegimeLabel(ratios, o.thresholds);
    return Some(Classification(regime, |keys|, Some(ratios), ReasonText(regime), found));
  }

  method CollectReturns(ghost snapshots: seq<Snapshot>, keys: seq<string>, groups: map<string, seq<Snapshot>>, min: int)
    returns (found: seq<SymbolReturn>)
    requires min > 0
    requires forall key :: key in keys ==> key in groups
    requires forall key :: key in groups ==> groups[key] == Members(snapshots, key)
    ensures found == ReturnsOf(snapshots, keys, min)
  {
    found := [];
    for i := 0 to |keys|
      invariant found == ReturnsOf(snapshots, keys[..i], min)
    {
      assert keys[..i + 1][..i] == keys[..i];
      assert keys[i] in keys;
      if |groups[keys[i]]| >= min {
        found := found + [ToSymbolReturn(groups[keys[i]])];
      }
    }
    assert keys[..|keys|] == keys;
  }

  function OnlyIn(o: Options, m: Market): Options {
    o.(snapshots := Select(o.snapshots, TradedIn(m)))
  }

  predicate Present(o: Options, m: Market) {
    exists i :: 0 <= i < |o.snapshots| && o.snapshots[i].market == m && Inside(o.windowStart, o.windowEnd)(o.snapshots[i])
  }

  function MarketsPresent(o: Options): seq<Market> {
    (if Present(o, KR) then [KR] else []) + (if Present(o, US) then [US] else [])
  }

  /** `classifyMarketRegimeByMarket`. */
  method ClassifyMarketRegimeByMarket(o: Options, collate: Collation) returns (byMarket: Option<map<Market, Classification>>)
    ensures byMarket.None? <==> o.windowEnd < o.windowStart || o.minSymbols < 1 || o.minSnapshotsPerSymbol < 1
    ensures byMarket.Some? ==> forall m :: m in byMarket.value <==> Present(o, m)
    ensures byMarket.Some? ==> forall m :: m in byMarket.value ==> byMarket.value[m] == Classified(OnlyIn(o, m), collate)
  {
    if !ValidOptions(o) {
      return None;
    }
    var markets := MarketsPresent(o);
    var found: map<Market, Classification> := map[];
    for i := 0 to |markets|
      invariant forall m :: m in found <==> m in markets[..i]
      invariant forall m :: m in found ==> found[m] == Classified(OnlyIn(o, m), collate)
    {
      var c := ClassifyMarketRegime(OnlyIn(o, markets[i]), collate);
      found := found[markets[i] := c.value];
      assert markets[..i + 1] == markets[..i] + [markets[i]];
    }
    assert markets[..|markets|] == markets;
    forall m: Market
      ensures m in found <==> Present(o, m)
    {
      MarketListed(o, m);
    }
    return Some(found);
  }

  lemma MarketListed(o: Options, m: Market)
    ensures m in MarketsPresent(o) <==> Present(o, m)
  {
  }

  // ----- Each market on its own --------------------------------------------------------------------------

  lemma WindowedByMarket(o: Options, m: Market, collate: Collation)
    ensures Windowed(OnlyIn(o, m), collate) == Select(Windowed(o, collate), TradedIn(m))
  {
    SnapshotOrderIsPreorder(collate);
    SelectsCommute(o.snapshots, TradedIn(m), Inside(o.windowStart, o.windowEnd));
    SelectSorted(Select(o.snapshots, Inside(o.windowStart, o.windowEnd)), SnapshotOrder(collate), TradedIn(m));
  }

  lemma {:induction false} SelectedKeys(keys: seq<string>, m: Market, key: string)
    ensures key in Select(keys, KeyIn(m)) <==> key in keys && KeyIn(m)(key)
  {
    if |keys| > 0 {
      SelectedKeys(keys[..|keys| - 1], m, key);
      assert keys == keys[..|keys| - 1] + [keys[|keys| - 1]];
    }
  }

  lemma {:induction false} FirstKeysByMarket(w: seq<Snapshot>, m: Market)
    ensures FirstKeys(Select(w, TradedIn(m))) == Select(FirstKeys(w), KeyIn(m))
  {
    if |w| > 0 {
      var n := |w| - 1;
      FirstKeysByMarket(w[..n], m);
      KeyDecides(w[n], w[n].(market := m));
      SelectedKeys(FirstKeys(w[..n]), m, KeyOf(w[n]));
      var kept := Select(w[..n], TradedIn(m));
      assert (kept + [w[n]])[..|kept|] == kept;
      SelectAppend(FirstKeys(w[..n]), KeyOf(w[n]), KeyIn(m));
    }
  }

  lemma {:induction false} MembersByMarket(w: seq<Snapshot>, m: Market, key: string)
    requires KeyIn(m)(key)
    ensures Members(Select(w, TradedIn(m)), key) == Members(w, key)
  {
    if |w| > 0 {
      var n := |w| - 1;
      MembersByMarket(w[..n], m, key);
      KeyDecides(w[n], w[n].(market := m));
      var kept := Select(w[..n], TradedIn(m));
      assert (kept + [w[n]])[..|kept|] == kept;
    }
  }

  function EarnedIn(m: Market): SymbolReturn -> bool {
    (r: SymbolReturn) => r.market == m
  }

  lemma ReturnsAppend(w: seq<Snapshot>, keys: seq<string>, key: string, min: int)
    ensures var earlier, group := ReturnsOf(w, keys, min), Members(w, key);
            ReturnsOf(w, keys + [key], min) ==
            if |group| >= min && |group| > 0 then earlier + [ToSymbolReturn(group)] else earlier
  {
    assert (keys + [key])[..|keys|] == keys;
  }

  lemma GroupMarket(w: seq<Snapshot>, key: string, m: Market)
    requires |Members(w, key)| > 0
    ensures EarnedIn(m)(ToSymbolReturn(Members(w, key))) <==> KeyIn(m)(key)
  {
    var first := Members(w, key)[0];
    KeyDecides(first, first.(market := m));
  }

  /** The returns of one market are those of its own snapshots and keys. */
  predicate MarketApart(w: seq<Snapshot>, keys: seq<string>, min: int, m: Market) {
    Select(ReturnsOf(w, keys, min), EarnedIn(m)) == ReturnsOf(Select(w, TradedIn(m)), Select(keys, KeyIn(m)), min)
  }

  lemma {:induction false} ReturnsByMarket(w: seq<Snapshot>, keys: seq<string>, min: int, m: Market)
    ensures MarketApart(w, keys, min, m)
  {
    if |keys| == 0 {
      NoReturns(w, min, m);
      assert keys == [];
    } else {
      ReturnsByMarket(w, keys[..|keys| - 1], min, m);
      ReturnsByMarketStep(w, keys[..|keys| - 1], keys[|keys| - 1], min, m);
      SplitLast(keys);
    }
  }

  lemma NoReturns(w: seq<Snapshot>, min: int, m: Market)
    ensures MarketApart(w, [], min, m)
  {
  }

  lemma ReturnsByMarketStep(w: seq<Snapshot>, before: seq<string>, key: string, min: int, m: Market)
    requires MarketApart(w, before, min, m)
    ensures MarketApart(w, before + [key], min, m)
  {
    var group := Members(w, key);
    ReturnsAppend(w, before, key, min);
    SelectAppend(before, key, KeyIn(m));
    if |group| > 0 {
      GroupMarket(w, key, m);
      SelectAppend(ReturnsOf(w, before, min), ToSymbolReturn(group), EarnedIn(m));
    }
    if KeyIn(m)(key) {
      MembersByMarket(w, m, key);
      ReturnsAppend(Select(w, TradedIn(m)), Select(before, KeyIn(m)), key, min);
    }
  }

  /** The returns of all markets are those of KR followed by those of US. */
  lemma ReturnsCompose(o: Options, collate: Collation)
    ensures SymbolReturns(o, collate) == SymbolReturns(OnlyIn(o, KR), collate) + SymbolReturns(OnlyIn(o, US), collate)
  {
    var w := Windowed(o, collate);
    var all := ReturnsOf(w, FirstKeys(w), o.minSnapshotsPerSymbol);
    SortSplits(all, EarnedIn(KR), EarnedIn(US), ReturnOrder(collate));
    MarketReturns(o, KR, collate);
    MarketReturns(o, US, collate);
  }

  lemma MarketReturns(o: Options, m: Market, collate: Collation)
    ensures var w := Windowed(o, collate);
            SymbolReturns(OnlyIn(o, m), collate) ==
            SortWith(Select(ReturnsOf(w, FirstKeys(w), o.minSnapshotsPerSymbol), EarnedIn(m)), ReturnOrder(collate))
  {
    var w := Windowed(o, collate);
    WindowedByMarket(o, m, collate);
    FirstKeysByMarket(w, m);
    ReturnsByMarket(w, FirstKeys(w), o.minSnapshotsPerSymbol, m);
  }

  lemma {:induction false} KeysSplit(w: seq<Snapshot>)
    ensures |FirstKeys(w)| == |Select(FirstKeys(w), KeyIn(KR))| + |Select(FirstKeys(w), KeyIn(US))|
  {
    if |w| > 0 {
      var n := |w| - 1;
      KeysSplit(w[..n]);
      var key := KeyOf(w[n]);
      KeyDecides(w[n], w[n].(market := KR));
      KeyDecides(w[n], w[n].(market := US));
      SelectAppend(FirstKeys(w[..n]), key, KeyIn(KR));
      SelectAppend(FirstKeys(w[..n]), key, KeyIn(US));
    }
  }

  /** Symbol counts, classified or not, add up over the markets. */
  lemma CountsCompose(o: Options, collate: Collation)
    requires ValidOptions(o)
    ensures Classified(o, collate).symbolCount ==
            Classified(OnlyIn(o, KR), collate).symbolCount + Classified(OnlyIn(o, US), collate).symbolCount
    ensures |Classified(o, collate).symbolReturns| ==
            |Classified(OnlyIn(o, KR), collate).symbolReturns| + |Classified(OnlyIn(o, US), collate).symbolReturns|
  {
    var w := Windowed(o, collate);
    KeysSplit(w);
    WindowedByMarket(o, KR, collate);
    WindowedByMarket(o, US, collate);
    FirstKeysByMarket(w, KR);
    FirstKeysByMarket(w, US);
    ReturnsCompose(o, collate);
  }

  lemma AbsentMarket(o: Options, m: Market, collate: Collation)
    ensures |Windowed(OnlyIn(o, m), collate)| > 0 ==> Present(o, m)
  {
    var traded := Select(o.snapshots, TradedIn(m));
    if |Windowed(OnlyIn(o, m), collate)| > 0 {
      var k := SortedFrom(Select(traded, Inside(o.windowStart, o.windowEnd)), SnapshotOrder(collate), 0);
      var i := SelectedFrom(traded, Inside(o.windowStart, o.windowEnd), k);
      var j := SelectedFrom(o.snapshots, TradedIn(m), i);
    }
  }

  function Other(m: Market): Market {
    match m
    case KR => US
    case US => KR
  }

  lemma LoneMarketReturns(o: Options, m: Market, collate: Collation)
    requires !Present(o, Other(m))
    ensures SymbolReturns(o, collate) == SymbolReturns(OnlyIn(o, m), collate)
    ensures |FirstKeys(Windowed(OnlyIn(o, Other(m)), collate))| == 0
  {
    ReturnsCompose(o, collate);
    AbsentReturns(o, Other(m), collate);
  }

  lemma AbsentReturns(o: Options, m: Market, collate: Collation)
    requires !Present(o, m)
    ensures SymbolReturns(OnlyIn(o, m), collate) == [] && |FirstKeys(Windowed(OnlyIn(o, m), collate))| == 0
  {
    AbsentMarket(o, m, collate);
  }

  /** When one market alone has snapshots in the window, its classification is the whole one. */
  lemma LoneMarketDecides(o: Options, m: Market, collate: Collation)
    requires ValidOptions(o) && !Present(o, Other(m))
    ensures Classified(o, collate) == Classified(OnlyIn(o, m), collate)
  {
    CountsCompose(o, collate);
    LoneMarketReturns(o, m, collate);
  }

  // ----- What a return is about ---------------------------------------------------------------------------

  function KeyIs(key: string): Snapshot -> bool {
    (s: Snapshot) => KeyOf(s) == key
  }

  /** The snapshots of one symbol in the window, as they were given. */
  function InWindow(o: Options, key: string): seq<Snapshot> {
    Select(Select(o.snapshots, Inside(o.windowStart, o.windowEnd)), KeyIs(key))
  }

  lemma {:induction false} MembersAreSelected(w: seq<Snapshot>, key: string)
    ensures Members(w, key) == Select(w, KeyIs(key))
  {
    if |w| > 0 {
      MembersAreSelected(w[..|w| - 1], key);
    }
  }

  /** A group is the symbol's snapshots in the window, rearranged into time order. */
  lemma GroupMeaning(o: Options, key: string, collate: Collation)
    ensures var group := Members(Windowed(o, collate), key);
            multiset(group) == multiset(InWindow(o, key)) && |group| == |InWindow(o, key)|
            && forall i, j :: 0 <= i < j < |group| ==> group[i].observedAt <= group[j].observedAt
  {
    var order := SnapshotOrder(collate);
    SnapshotOrderIsPreorder(collate);
    MembersAreSelected(Windowed(o, collate), key);
    SelectSorted(Select(o.snapshots, Inside(o.windowStart, o.windowEnd)), order, KeyIs(key));
    SortWithFacts(InWindow(o, key), order);
    SameElements(SortWith(InWindow(o, key), order), InWindow(o, key));
    var group := Members(Windowed(o, collate), key);
    assert group == SortWith(InWindow(o, key), order);
    forall i, j | 0 <= i < j < |group|
      ensures group[i].observedAt <= group[j].observedAt
    {
      assert order(group[i], group[j]);
    }
  }

  lemma {:induction false} ReturnFrom(w: seq<Snapshot>, keys: seq<string>, min: int, k: nat) returns (key: string)
    requires k < |ReturnsOf(w, keys, min)|
    ensures key in keys && |Members(w, key)| >= min && |Members(w, key)| > 0
    ensures ReturnsOf(w, keys, min)[k] == ToSymbolReturn(Members(w, key))
  {
    var before, last := keys[..|keys| - 1], keys[|keys| - 1];
    if k < |ReturnsOf(w, before, min)| {
      key := ReturnFrom(w, before, min, k);
    } else {
      key := last;
    }
  }

  /** Every return is made from the snapshots of one symbol in the window, all of them, in time order, and at least the
      minimum. */
  lemma ReturnGroup(o: Options, collate: Collation, k: nat) returns (group: seq<Snapshot>)
    requires k < |SymbolReturns(o, collate)|
    ensures |group| > 0 && |group| >= o.minSnapshotsPerSymbol && SymbolReturns(o, collate)[k] == ToSymbolReturn(group)
    ensures multiset(group) == multiset(InWindow(o, KeyOf(group[0])))
    ensures forall i, j :: 0 <= i < j < |group| ==> group[i].observedAt <= group[j].observedAt
  {
    var w := Windowed(o, collate);
    var j := SortedFrom(ReturnsOf(w, FirstKeys(w), o.minSnapshotsPerSymbol), ReturnOrder(collate), k);
    var key := ReturnFrom(w, FirstKeys(w), o.minSnapshotsPerSymbol, j);
    group := Members(w, key);
    GroupMeaning(o, key, collate);
    assert KeyOf(group[0]) == key;
  }

  predicate NoRepeats(keys: seq<string>) {
    forall i, j :: 0 <= i < j < |keys| ==> keys[i] != keys[j]
  }

  lemma {:induction false} FirstKeysDistinct(w: seq<Snapshot>)
    ensures NoRepeats(FirstKeys(w))
  {
    if |w| > 0 {
      FirstKeysDistinct(w[..|w| - 1]);
    }
  }

  function EarnedBy(key: string): SymbolReturn -> bool {
    (r: SymbolReturn) => MarketText(r.market) + ":" + r.symbol == key
  }

  function ReturnOfKey(w: seq<Snapshot>, key: string, min: int): seq<SymbolReturn> {
    if |Members(w, key)| >= min && |Members(w, key)| > 0 then [ToSymbolReturn(Members(w, key))] else []
  }

  lemma EarnedByItsKey(w: seq<Snapshot>, k: string, key: string)
    requires |Members(w, k)| > 0
    ensures EarnedBy(key)(ToSymbolReturn(Members(w, k))) <==> k == key
  {
  }

  lemma {:induction false} OneReturnPerKey(w: seq<Snapshot>, keys: seq<string>, key: string, min: int)
    requires NoRepeats(keys)
    ensures Select(ReturnsOf(w, keys, min), EarnedBy(key)) == if key in keys then ReturnOfKey(w, key, min) else []
  {
    if |keys| > 0 {
      var before, last := keys[..|keys| - 1], keys[|keys| - 1];
      assert keys == before + [last] && last !in before;
      OneReturnPerKey(w, before, key, min);
      if |Members(w, last)| > 0 {
        EarnedByItsKey(w, last, key);
        SelectAppend(ReturnsOf(w, before, min), ToSymbolReturn(Members(w, last)), EarnedBy(key));
      }
    }
  }

  lemma ReturnOrderIsPreorder(collate: Collation)
    ensures TotalPreorder(ReturnOrder(collate))
  {
  }

  /** A symbol has exactly one return when the window holds enough of its snapshots, and none otherwise. */
  lemma OneReturnPerSymbol(o: Options, collate: Collation, key: string)
    ensures |Select(SymbolReturns(o, collate), EarnedBy(key))| ==
            if |InWindow(o, key)| >= o.minSnapshotsPerSymbol && |InWindow(o, key)| > 0 then 1 else 0
  {
    var w := Windowed(o, collate);
    var found := ReturnsOf(w, FirstKeys(w), o.minSnapshotsPerSymbol);
    ReturnOrderIsPreorder(collate);
    SelectSorted(found, ReturnOrder(collate), EarnedBy(key));
    SortWithFacts(Select(found, EarnedBy(key)), ReturnOrder(collate));
    SameElements(SortWith(Select(found, EarnedBy(key)), ReturnOrder(collate)), Select(found, EarnedBy(key)));
    FirstKeysDistinct(w);
    OneReturnPerKey(w, FirstKeys(w), key, o.minSnapshotsPerSymbol);
    GroupMeaning(o, key, collate);
    if key !in FirstKeys(w) {
      NoMembers(w, key);
    }
  }

  // ----- Means, breadth and labels ----------------------------------------------------------------------------

  lemma AddNumAssociative(x: Num, y: Num, z: Num)
    ensures AddNum(AddNum(x, y), z) == AddNum(x, AddNum(y, z))
  {
  }

  lemma TotalAppend(a: seq<SymbolReturn>, r: SymbolReturn)
    ensures TotalReturn(a + [r]) == AddNum(TotalReturn(a), r.returnRatio)
  {
    assert (a + [r])[..|a|] == a;
  }

  lemma {:induction false} TotalsAdd(a: seq<SymbolReturn>, b: seq<SymbolReturn>)
    ensures TotalReturn(a + b) == AddNum(TotalReturn(a), TotalReturn(b))
  {
    if |b| == 0 {
      assert a + b == a;
      AddNumZero(TotalReturn(a));
    } else {
      var before, last := b[..|b| - 1], b[|b| - 1];
      TotalsAdd(a, before);
      assert b == before + [last];
      TotalsAddStep(a, before, last);
    }
  }

  lemma AddNumZero(x: Num)
    ensures AddNum(x, Finite(0.0)) == x
  {
  }

  lemma TotalsAddStep(a: seq<SymbolReturn>, before: seq<SymbolReturn>, last: SymbolReturn)
    requires TotalReturn(a + before) == AddNum(TotalReturn(a), TotalReturn(before))
    ensures TotalReturn(a + (before + [last])) == AddNum(TotalReturn(a), TotalReturn(before + [last]))
  {
    TotalSplit(a, before, last);
    TotalAppend(before, last);
    AddNumAssociative(TotalReturn(a), TotalReturn(before), last.returnRatio);
  }

  lemma TotalSplit(a: seq<SymbolReturn>, before: seq<SymbolReturn>, last: SymbolReturn)
    ensures TotalReturn(a + (before + [last])) == AddNum(TotalReturn(a + before), last.returnRatio)
  {
    assert a + (before + [last]) == (a + before) + [last];
    TotalAppend(a + before, last);
  }

  /** The unrounded mean over both markets is the mean of the markets' means weighted by their counts. */
  lemma MeanIsWeighted(a: seq<SymbolReturn>, b: seq<SymbolReturn>)
    requires |a| > 0 && |b| > 0
    ensures MeanReturn(a + b).Finite? <==> MeanReturn(a).Finite? && MeanReturn(b).Finite?
    ensures MeanReturn(a + b).NaN? <==> MeanReturn(a).NaN? || MeanReturn(b).NaN?
    ensures MeanReturn(a + b).Finite? ==>
              Times(MeanReturn(a + b).value, (|a| + |b|) as real) ==
              Times(MeanReturn(a).value, |a| as real) + Times(MeanReturn(b).value, |b| as real)
  {
    TotalsAdd(a, b);
  }

  lemma MathRoundMonotone(x: real, y: real)
    requires x <= y
    ensures MathRound(x) <= MathRound(y)
  {
  }

  lemma RoundMonotone(x: real, y: real)
    requires x <= y
    ensures RoundMillionth(x) <= RoundMillionth(y)
  {
    var m, n := MathRound(x * 1000000.0), MathRound(y * 1000000.0);
    MathRoundMonotone(x * 1000000.0, y * 1000000.0);
    Scaled(m, n);
  }

  lemma Scaled(m: int, n: int)
    requires m <= n
    ensures m as real / 1000000.0 <= n as real / 1000000.0
  {
  }

  /** A count-weighted mean lies between the two means. */
  lemma WeightedBetween(x: real, y: real, z: real, m: real, n: real)
    requires m > 0.0 && n > 0.0 && Times(z, m + n) == Times(x, m) + Times(y, n)
    ensures MinReal(x, y) <= z <= MaxReal(x, y)
  {
  }

  lemma BreadthIsWeighted(a: seq<SymbolReturn>, b: seq<SymbolReturn>, p: SymbolReturn -> bool)
    requires |a| > 0 && |b| > 0
    ensures MinReal(RatioOf(a, p), RatioOf(b, p)) <= RatioOf(a + b, p) <= MaxReal(RatioOf(a, p), RatioOf(b, p))
  {
    SelectConcat(a, b, p);
    WeightedBetween(RatioOf(a, p), RatioOf(b, p), RatioOf(a + b, p), |a| as real, |b| as real);
  }

  lemma RoundedBreadth(a: seq<SymbolReturn>, b: seq<SymbolReturn>, p: SymbolReturn -> bool, bound: real)
    requires |a| > 0 && |b| > 0 && RoundMillionth(RatioOf(a, p)) >= bound && RoundMillionth(RatioOf(b, p)) >= bound
    ensures RoundMillionth(RatioOf(a + b, p)) >= bound
  {
    BreadthIsWeighted(a, b, p);
    RoundMonotone(MinReal(RatioOf(a, p), RatioOf(b, p)), RatioOf(a + b, p));
  }

  lemma RoundedMean(a: seq<SymbolReturn>, b: seq<SymbolReturn>, bound: real)
    requires |a| > 0 && |b| > 0
    ensures var x, y, z := RoundNum(MeanReturn(a)), RoundNum(MeanReturn(b)), RoundNum(MeanReturn(a + b));
            && (AtLeast(x, bound) && AtLeast(y, bound) ==> AtLeast(z, bound))
            && (AtMost(x, bound) && AtMost(y, bound) ==> AtMost(z, bound))
  {
    MeanIsWeighted(a, b);
    var x, y, z := MeanReturn(a), MeanReturn(b), MeanReturn(a + b);
    if x.Finite? && y.Finite? {
      WeightedBetween(x.value, y.value, z.value, |a| as real, |b| as real);
      RoundMonotone(MinReal(x.value, y.value), z.value);
      RoundMonotone(z.value, MaxReal(x.value, y.value));
    }
  }

  predicate OrderedThresholds(t: Thresholds) {
    t.bearReturn < -t.sidewaysAbsReturn <= t.sidewaysAbsReturn < t.bullReturn
  }

  lemma LabelsAgree(a: seq<SymbolReturn>, b: seq<SymbolReturn>, t: Thresholds)
    requires |a| > 0 && |b| > 0
    ensures var x, y, z := RegimeLabel(RatiosOf(a), t), RegimeLabel(RatiosOf(b), t), RegimeLabel(RatiosOf(a + b), t);
            && (x == y == Bull ==> z == Bull)
            && (OrderedThresholds(t) && x == y && x in {Bear, Sideways} ==> z == x)
  {
    RoundedMean(a, b, t.bullReturn);
    RoundedMean(a, b, t.bearReturn);
    RoundedMean(a, b, t.sidewaysAbsReturn);
    RoundedMean(a, b, -t.sidewaysAbsReturn);
    if RegimeLabel(RatiosOf(a), t) == RegimeLabel(RatiosOf(b), t) == Bull {
      RoundedBreadth(a, b, Advancing, t.breadth);
    } else if RegimeLabel(RatiosOf(a), t) == RegimeLabel(RatiosOf(b), t) == Bear {
      RoundedBreadth(a, b, Declining, t.breadth);
    }
  }

  /** Two markets that agree on a direction give the whole that direction: a common bull label always carries over,
      and with ordered thresholds so do bear and sideways. */
  lemma UnanimousMarketsDecide(o: Options, collate: Collation)
    requires ValidOptions(o)
    ensures var kr, us := Classified(OnlyIn(o, KR), collate).regime, Classified(OnlyIn(o, US), collate).regime;
            && (kr == us == Bull ==> Classified(o, collate).regime == Bull)
            && (OrderedThresholds(o.thresholds) && kr == us && kr in {Bear, Sideways} ==> Classified(o, collate).regime == kr)
  {
    ReturnsCompose(o, collate);
    var a, b := SymbolReturns(OnlyIn(o, KR), collate), SymbolReturns(OnlyIn(o, US), collate);
    if |a| >= o.minSymbols && |b| >= o.minSymbols {
      LabelsAgree(a, b, o.thresholds);
    }
  }
}
