/** Facts about reordered sequences. */
module Sequences {

  lemma SameElements<T>(xs: seq<T>, ys: seq<T>)
    requires multiset(xs) == multiset(ys)
    ensures |xs| == |ys| && (forall x :: x in xs <==> x in ys)
    ensures |xs| <= 1 ==> xs == ys
  {
    assert |xs| == |multiset(xs)| == |multiset(ys)| == |ys|;
    forall x
      ensures x in xs <==> x in ys
    {
      assert x in xs <==> x in multiset(xs);
      assert x in ys <==> x in multiset(ys);
    }
    if |xs| == 1 {
      assert xs[0] in ys;
    }
  }

  lemma SplitLast<T>(s: seq<T>)
    requires |s| > 0
    ensures s == s[..|s| - 1] + [s[|s| - 1]]
  {
  }

  lemma LastCounted<T>(s: seq<T>)
    requires |s| > 0
    ensures multiset(s) == multiset(s[..|s| - 1]) + multiset{s[|s| - 1]}
  {
    SplitLast(s);
  }

  lemma TakeNext<T>(s: seq<T>, i: nat)
    requires i < |s|
    ensures s[..i + 1] == s[..i] + [s[i]] && s[..i + 1][..i] == s[..i]
  {
  }

  /** Where the last element of xs stands in a reordering ys of it. */
  lemma LastElsewhere<T>(xs: seq<T>, ys: seq<T>) returns (k: nat)
    requires multiset(xs) == multiset(ys) && |xs| > 0
    ensures k < |ys| && ys == ys[..k] + [xs[|xs| - 1]] + ys[k + 1..]
    ensures multiset(xs[..|xs| - 1]) == multiset(ys[..k] + ys[k + 1..])
  {
    var n := |xs| - 1;
    var e := xs[n];
    assert e in multiset(ys);
    k :| 0 <= k < |ys| && ys[k] == e;
    WithoutOne(xs, n);
    WithoutOne(ys, k);
    assert xs[..n] + xs[n + 1..] == xs[..n];
  }

  lemma WithoutOne<T>(s: seq<T>, k: nat)
    requires k < |s|
    ensures s == s[..k] + [s[k]] + s[k + 1..]
    ensures multiset(s[..k] + s[k + 1..]) == multiset(s) - multiset{s[k]}
  {
  }

  /** A sequence splits at its last separator in one way only. */
  lemma LastSeparatorDecides<T>(a: seq<T>, x: seq<T>, b: seq<T>, y: seq<T>, separator: T)
    requires separator !in x && separator !in y && a + [separator] + x == b + [separator] + y
    ensures a == b && x == y
  {
    var s, t := a + [separator] + x, b + [separator] + y;
    assert s[|a|] == separator && t[|b|] == separator;
    assert forall i :: |a| < i < |s| ==> s[i] == x[i - |a| - 1];
    assert forall i :: |b| < i < |t| ==> t[i] == y[i - |b| - 1];
    assert |a| == |b|;
    assert a == s[..|a|] && b == t[..|b|] && x == s[|a| + 1..] && y == t[|b| + 1..];
  }

  // ----- Sums and concatenations over a sequence -----------------------------------------------------

  function SumBy<T>(xs: seq<T>, f: T -> nat): nat {
    if |xs| == 0 then 0 else SumBy(xs[..|xs| - 1], f) + f(xs[|xs| - 1])
  }

  function FlatMap<T, U>(xs: seq<T>, f: T -> seq<U>): seq<U> {
    if |xs| == 0 then [] else FlatMap(xs[..|xs| - 1], f) + f(xs[|xs| - 1])
  }

  lemma {:induction false} SumByConcat<T>(a: seq<T>, b: seq<T>, f: T -> nat)
    ensures SumBy(a + b, f) == SumBy(a, f) + SumBy(b, f)
  {
    if |b| == 0 {
      assert a + b == a;
    } else {
      var n := |b| - 1;
      SumByConcat(a, b[..n], f);
      assert (a + b)[..|a| + n] == a + b[..n];
    }
  }

  lemma ConcatAssociates<T>(a: seq<T>, b: seq<T>, c: seq<T>)
    ensures a + b + c == a + (b + c)
  {
  }

  lemma FlatMapAppend<T, U>(xs: seq<T>, x: T, f: T -> seq<U>)
    ensures FlatMap(xs + [x], f) == FlatMap(xs, f) + f(x)
  {
    assert (xs + [x])[..|xs|] == xs;
  }

  lemma {:induction false} FlatMapConcat<T, U>(a: seq<T>, b: seq<T>, f: T -> seq<U>)
    ensures FlatMap(a + b, f) == FlatMap(a, f) + FlatMap(b, f)
  {
    if |b| == 0 {
      assert a + b == a;
    } else {
      var n := |b| - 1;
      FlatMapConcat(a, b[..n], f);
      assert a + b == a + b[..n] + [b[n]];
      FlatMapAppend(a + b[..n], b[n], f);
      ConcatAssociates(FlatMap(a, f), FlatMap(b[..n], f), f(b[n]));
    }
  }

  lemma {:induction false} SumByReordered<T>(xs: seq<T>, ys: seq<T>, f: T -> nat)
    requires multiset(xs) == multiset(ys)
    ensures SumBy(xs, f) == SumBy(ys, f)
  {
    SameElements(xs, ys);
    if |xs| > 0 {
      var n := |xs| - 1;
      var k := LastElsewhere(xs, ys);
      SumByReordered(xs[..n], ys[..k] + ys[k + 1..], f);
      SumByConcat(ys[..k] + [xs[n]], ys[k + 1..], f);
      SumByConcat(ys[..k], [xs[n]], f);
      SumByConcat(ys[..k], ys[k + 1..], f);
    }
  }

  lemma {:induction false} FlatMapReordered<T, U>(xs: seq<T>, ys: seq<T>, f: T -> seq<U>)
    requires multiset(xs) == multiset(ys)
    ensures multiset(FlatMap(xs, f)) == multiset(FlatMap(ys, f))
  {
    SameElements(xs, ys);
    if |xs| > 0 {
      var n := |xs| - 1;
      var k := LastElsewhere(xs, ys);
      FlatMapReordered(xs[..n], ys[..k] + ys[k + 1..], f);
      FlatMapConcat(ys[..k] + [xs[n]], ys[k + 1..], f);
      FlatMapConcat(ys[..k], [xs[n]], f);
      FlatMapConcat(ys[..k], ys[k + 1..], f);
    }
  }

  // ----- Stable sorting by an integer key, as `Array.prototype.sort` with a key difference ------------

  /** x placed after every element whose key is not larger. */
  function InsertBy<T>(sorted: seq<T>, x: T, key: T -> int): seq<T> {
    if |sorted| == 0 || key(sorted[|sorted| - 1]) <= key(x) then sorted + [x]
    else InsertBy(sorted[..|sorted| - 1], x, key) + [sorted[|sorted| - 1]]
  }

  function StableSort<T>(xs: seq<T>, key: T -> int): seq<T> {
    if |xs| == 0 then [] else InsertBy(StableSort(xs[..|xs| - 1], key), xs[|xs| - 1], key)
  }

  predicate SortedBy<T>(xs: seq<T>, key: T -> int) {
    forall i, j :: 0 <= i < j < |xs| ==> key(xs[i]) <= key(xs[j])
  }

  function Select<T>(xs: seq<T>, p: T -> bool): seq<T> {
    if |xs| == 0 then []
    else if p(xs[|xs| - 1]) then Select(xs[..|xs| - 1], p) + [xs[|xs| - 1]]
    else Select(xs[..|xs| - 1], p)
  }

  lemma {:induction false} SelectConcat<T>(a: seq<T>, b: seq<T>, p: T -> bool)
    ensures Select(a + b, p) == Select(a, p) + Select(b, p)
  {
    if |b| == 0 {
      assert a + b == a;
    } else {
      var n := |b| - 1;
      SelectConcat(a, b[..n], p);
      assert (a + b)[..|a| + n] == a + b[..n];
    }
  }

  lemma {:induction false} InsertBySorted<T>(sorted: seq<T>, x: T, key: T -> int)
    requires SortedBy(sorted, key)
    ensures var r := InsertBy(sorted, x, key);
            && SortedBy(r, key) && |r| == |sorted| + 1
            && (key(r[|sorted|]) == key(x) || (|sorted| > 0 && key(r[|sorted|]) == key(sorted[|sorted| - 1])))
  {
    if |sorted| > 0 && key(sorted[|sorted| - 1]) > key(x) {
      InsertBySorted(sorted[..|sorted| - 1], x, key);
    }
  }

  lemma {:induction false} InsertByMultiset<T>(sorted: seq<T>, x: T, key: T -> int)
    ensures multiset(InsertBy(sorted, x, key)) == multiset(sorted) + multiset{x}
  {
    if |sorted| > 0 && key(sorted[|sorted| - 1]) > key(x) {
      var n := |sorted| - 1;
      InsertByMultiset(sorted[..n], x, key);
      LastCounted(sorted);
    }
  }

  /** Sorting orders by the key and only rearranges. */
  lemma {:induction false} StableSortFacts<T>(xs: seq<T>, key: T -> int)
    ensures SortedBy(StableSort(xs, key), key)
    ensures multiset(StableSort(xs, key)) == multiset(xs)
  {
    if |xs| > 0 {
      var n := |xs| - 1;
      StableSortFacts(xs[..n], key);
      InsertBySorted(StableSort(xs[..n], key), xs[n], key);
      InsertByMultiset(StableSort(xs[..n], key), xs[n], key);
      LastCounted(xs);
    }
  }

  function HasKey<T>(key: T -> int, v: int): T -> bool {
    (x: T) => key(x) == v
  }

  lemma {:induction false} InsertKeepsTies<T>(sorted: seq<T>, x: T, key: T -> int, v: int)
    ensures Select(InsertBy(sorted, x, key), HasKey(key, v)) ==
            if key(x) == v then Select(sorted, HasKey(key, v)) + [x] else Select(sorted, HasKey(key, v))
  {
    if |sorted| == 0 || key(sorted[|sorted| - 1]) <= key(x) {
      SelectAppend(sorted, x, HasKey(key, v));
    } else {
      var front, last := sorted[..|sorted| - 1], sorted[|sorted| - 1];
      InsertKeepsTies(front, x, key, v);
      SelectAppend(InsertBy(front, x, key), last, HasKey(key, v));
      SelectAppend(front, last, HasKey(key, v));
      SplitLast(sorted);
    }
  }

  /** Elements with one key keep their order. */
  lemma {:induction false} StableSortKeepsTies<T>(xs: seq<T>, key: T -> int, v: int)
    ensures Select(StableSort(xs, key), HasKey(key, v)) == Select(xs, HasKey(key, v))
  {
    if |xs| > 0 {
      var front := xs[..|xs| - 1];
      StableSortKeepsTies(front, key, v);
      InsertKeepsTies(StableSort(front, key), xs[|xs| - 1], key, v);
    }
  }

  // ----- Stable sorting by a comparison, as `Array.prototype.sort` with a comparator ------------------

  ghost predicate TotalPreorder<T(!new)>(le: (T, T) -> bool) {
    && (forall a, b :: le(a, b) || le(b, a))
    && forall a, b, c :: le(a, b) && le(b, c) ==> le(a, c)
  }

  function InsertWith<T>(sorted: seq<T>, x: T, le: (T, T) -> bool): seq<T> {
    if |sorted| == 0 || le(sorted[|sorted| - 1], x) then sorted + [x]
    else InsertWith(sorted[..|sorted| - 1], x, le) + [sorted[|sorted| - 1]]
  }

  function SortWith<T>(xs: seq<T>, le: (T, T) -> bool): seq<T> {
    if |xs| == 0 then [] else InsertWith(SortWith(xs[..|xs| - 1], le), xs[|xs| - 1], le)
  }

  predicate SortedWith<T>(xs: seq<T>, le: (T, T) -> bool) {
    forall i, j :: 0 <= i < j < |xs| ==> le(xs[i], xs[j])
  }

  lemma {:induction false} InsertWithMultiset<T>(sorted: seq<T>, x: T, le: (T, T) -> bool)
    ensures multiset(InsertWith(sorted, x, le)) == multiset(sorted) + multiset{x}
    ensures |InsertWith(sorted, x, le)| == |sorted| + 1
  {
    if |sorted| > 0 && !le(sorted[|sorted| - 1], x) {
      var n := |sorted| - 1;
      InsertWithMultiset(sorted[..n], x, le);
      LastCounted(sorted);
    }
  }

  lemma {:induction false} InsertWithSorted<T(!new)>(sorted: seq<T>, x: T, le: (T, T) -> bool)
    requires TotalPreorder(le) && SortedWith(sorted, le)
    ensures SortedWith(InsertWith(sorted, x, le), le)
    ensures forall y :: y in InsertWith(sorted, x, le) ==> y in sorted || y == x
  {
    if |sorted| > 0 && !le(sorted[|sorted| - 1], x) {
      var n := |sorted| - 1;
      InsertWithSorted(sorted[..n], x, le);
      var r := InsertWith(sorted[..n], x, le);
      forall i | 0 <= i < |r|
        ensures le(r[i], sorted[n])
      {
        assert r[i] in r;
      }
    }
  }

  /** Sorting orders and only rearranges. */
  lemma {:induction false} SortWithFacts<T(!new)>(xs: seq<T>, le: (T, T) -> bool)
    requires TotalPreorder(le)
    ensures SortedWith(SortWith(xs, le), le) && multiset(SortWith(xs, le)) == multiset(xs)
  {
    if |xs| > 0 {
      var n := |xs| - 1;
      SortWithFacts(xs[..n], le);
      InsertWithSorted(SortWith(xs[..n], le), xs[n], le);
      InsertWithMultiset(SortWith(xs[..n], le), xs[n], le);
      LastCounted(xs);
    }
  }

  /** Selecting keeps every copy of what passes and drops the rest. */
  lemma {:induction false} SelectCounts<T>(xs: seq<T>, p: T -> bool, x: T)
    ensures multiset(Select(xs, p))[x] == if p(x) then multiset(xs)[x] else 0
  {
    if |xs| > 0 {
      SelectCounts(xs[..|xs| - 1], p, x);
      LastCounted(xs);
    }
  }

  /** The positions whose elements pass. */
  function Places<T>(xs: seq<T>, p: T -> bool): set<nat> {
    set i: nat | i < |xs| && p(xs[i])
  }

  lemma {:induction false} SelectSize<T>(xs: seq<T>, p: T -> bool)
    ensures |Select(xs, p)| == |Places(xs, p)|
  {
    if |xs| == 0 {
      assert Places(xs, p) == {};
    } else {
      var front := xs[..|xs| - 1];
      SelectSize(front, p);
      assert forall i :: 0 <= i < |front| ==> front[i] == xs[i];
      assert Places(xs, p) == Places(front, p) + if p(xs[|front|]) then {|front|} else {};
    }
  }

  /** Where a selected element comes from. */
  lemma {:induction false} SelectedFrom<T>(xs: seq<T>, p: T -> bool, k: nat) returns (i: nat)
    requires k < |Select(xs, p)|
    ensures i < |xs| && xs[i] == Select(xs, p)[k] && p(xs[i])
  {
    var n := |xs| - 1;
    if k < |Select(xs[..n], p)| {
      i := SelectedFrom(xs[..n], p, k);
    } else {
      i := n;
    }
  }

  lemma {:induction false} SelectsCommute<T>(xs: seq<T>, p: T -> bool, q: T -> bool)
    ensures Select(Select(xs, p), q) == Select(Select(xs, q), p)
  {
    if |xs| > 0 {
      var n := |xs| - 1;
      SelectsCommute(xs[..n], p, q);
      SelectAppend(Select(xs[..n], p), xs[n], q);
      SelectAppend(Select(xs[..n], q), xs[n], p);
    }
  }

  lemma SelectAppend<T>(xs: seq<T>, x: T, p: T -> bool)
    ensures Select(xs + [x], p) == if p(x) then Select(xs, p) + [x] else Select(xs, p)
  {
  }

  /** No element that may stand after x precedes one that has to stand before it. */
  predicate Closed<T>(sorted: seq<T>, x: T, le: (T, T) -> bool) {
    forall i, j :: 0 <= i < j < |sorted| && le(sorted[j], x) ==> le(sorted[i], x)
  }

  lemma SortedIsClosed<T(!new)>(sorted: seq<T>, x: T, le: (T, T) -> bool)
    requires TotalPreorder(le) && SortedWith(sorted, le)
    ensures Closed(sorted, x, le)
  {
  }

  lemma AppendsSelected<T>(sorted: seq<T>, x: T, le: (T, T) -> bool, p: T -> bool)
    requires Closed(sorted, x, le) && (|sorted| == 0 || le(sorted[|sorted| - 1], x))
    ensures InsertWith(Select(sorted, p), x, le) == Select(sorted, p) + [x]
  {
  }

  lemma {:induction false} SelectInsertion<T>(sorted: seq<T>, x: T, le: (T, T) -> bool, p: T -> bool)
    requires Closed(sorted, x, le)
    ensures Select(InsertWith(sorted, x, le), p) ==
            if p(x) then InsertWith(Select(sorted, p), x, le) else Select(sorted, p)
  {
    if |sorted| == 0 || le(sorted[|sorted| - 1], x) {
      SelectAppend(sorted, x, p);
      AppendsSelected(sorted, x, le, p);
    } else {
      var n := |sorted| - 1;
      SelectInsertion(sorted[..n], x, le, p);
      SelectAppend(InsertWith(sorted[..n], x, le), sorted[n], p);
      if p(sorted[n]) {
        InsertBeforeLast(Select(sorted[..n], p), sorted[n], x, le);
      }
    }
  }

  lemma InsertBeforeLast<T>(sorted: seq<T>, last: T, x: T, le: (T, T) -> bool)
    requires !le(last, x)
    ensures InsertWith(sorted + [last], x, le) == InsertWith(sorted, x, le) + [last]
  {
  }

  lemma SortAppend<T>(xs: seq<T>, x: T, le: (T, T) -> bool)
    ensures SortWith(xs + [x], le) == InsertWith(SortWith(xs, le), x, le)
  {
  }

  /** Selecting from a sorted list is sorting the selection. */
  lemma {:induction false} SelectSorted<T(!new)>(xs: seq<T>, le: (T, T) -> bool, p: T -> bool)
    requires TotalPreorder(le)
    ensures Select(SortWith(xs, le), p) == SortWith(Select(xs, p), le)
  {
    if |xs| > 0 {
      var n := |xs| - 1;
      SelectSorted(xs[..n], le, p);
      SortWithFacts(xs[..n], le);
      SortedIsClosed(SortWith(xs[..n], le), xs[n], le);
      SelectInsertion(SortWith(xs[..n], le), xs[n], le, p);
      SortAppend(Select(xs[..n], p), xs[n], le);
    }
  }

  /** A list of low elements followed by high ones sorts part by part. */
  lemma {:induction false} InsertLow<T>(low: seq<T>, high: seq<T>, x: T, le: (T, T) -> bool)
    requires forall i :: 0 <= i < |high| ==> !le(high[i], x)
    ensures InsertWith(low + high, x, le) == InsertWith(low, x, le) + high
  {
    if |high| == 0 {
      assert low + high == low;
    } else {
      var n := |high| - 1;
      InsertLow(low, high[..n], x, le);
      assert (low + high)[..|low| + n] == low + high[..n];
      SplitLast(high);
    }
  }

  lemma {:induction false} InsertHigh<T>(low: seq<T>, high: seq<T>, x: T, le: (T, T) -> bool)
    requires forall i :: 0 <= i < |low| ==> le(low[i], x)
    ensures InsertWith(low + high, x, le) == low + InsertWith(high, x, le)
  {
    if |high| == 0 {
      assert low + high == low;
    } else {
      var n := |high| - 1;
      InsertHigh(low, high[..n], x, le);
      assert (low + high)[..|low| + n] == low + high[..n];
    }
  }

  /** Where an element of a sorted list comes from. */
  lemma {:induction false} SortedFrom<T>(xs: seq<T>, le: (T, T) -> bool, k: nat) returns (i: nat)
    requires k < |SortWith(xs, le)|
    ensures i < |xs| && xs[i] == SortWith(xs, le)[k]
  {
    var n := |xs| - 1;
    var j := InsertedFrom(SortWith(xs[..n], le), xs[n], le, k);
    if j < 0 {
      i := n;
    } else {
      i := SortedFrom(xs[..n], le, j);
    }
  }

  /** -1 for the inserted element. */
  lemma {:induction false} InsertedFrom<T>(sorted: seq<T>, x: T, le: (T, T) -> bool, k: nat) returns (j: int)
    requires k < |InsertWith(sorted, x, le)|
    ensures -1 <= j < |sorted|
    ensures InsertWith(sorted, x, le)[k] == if j < 0 then x else sorted[j]
  {
    if |sorted| == 0 || le(sorted[|sorted| - 1], x) {
      j := if k == |sorted| then -1 else k;
    } else {
      var n := |sorted| - 1;
      if k == |InsertWith(sorted[..n], x, le)| {
        j := n;
      } else {
        j := InsertedFrom(sorted[..n], x, le, k);
      }
    }
  }

  /** le puts every low element of xs strictly before every high one. */
  predicate Separated<T>(xs: seq<T>, low: T -> bool, high: T -> bool, le: (T, T) -> bool) {
    forall i, j :: 0 <= i < |xs| && 0 <= j < |xs| && low(xs[i]) && high(xs[j]) ==> le(xs[i], xs[j]) && !le(xs[j], xs[i])
  }

  lemma SelectedStandApart<T>(xs: seq<T>, low: T -> bool, high: T -> bool, le: (T, T) -> bool)
    requires |xs| > 0 && Separated(xs, low, high, le)
    ensures var a, x := SortWith(Select(xs[..|xs| - 1], high), le), xs[|xs| - 1];
            low(x) ==> forall k :: 0 <= k < |a| ==> !le(a[k], x)
    ensures var a, x := SortWith(Select(xs[..|xs| - 1], low), le), xs[|xs| - 1];
            high(x) ==> forall k :: 0 <= k < |a| ==> le(a[k], x)
  {
    var n := |xs| - 1;
    var a, b := SortWith(Select(xs[..n], low), le), SortWith(Select(xs[..n], high), le);
    forall k | 0 <= k < |b| && low(xs[n])
      ensures !le(b[k], xs[n])
    {
      var i := SortedFrom(Select(xs[..n], high), le, k);
      var j := SelectedFrom(xs[..n], high, i);
      assert b[k] == xs[j];
    }
    forall k | 0 <= k < |a| && high(xs[n])
      ensures le(a[k], xs[n])
    {
      var i := SortedFrom(Select(xs[..n], low), le, k);
      var j := SelectedFrom(xs[..n], low, i);
      assert a[k] == xs[j];
    }
  }

  /** Then sorting xs sorts its two parts. */
  lemma {:induction false} SortSplits<T>(xs: seq<T>, low: T -> bool, high: T -> bool, le: (T, T) -> bool)
    requires (forall i :: 0 <= i < |xs| ==> low(xs[i]) != high(xs[i])) && Separated(xs, low, high, le)
    ensures SortWith(xs, le) == SortWith(Select(xs, low), le) + SortWith(Select(xs, high), le)
  {
    if |xs| > 0 {
      var n := |xs| - 1;
      var a, b := Select(xs[..n], low), Select(xs[..n], high);
      SortSplits(xs[..n], low, high, le);
      SelectedStandApart(xs, low, high, le);
      if low(xs[n]) {
        InsertLow(SortWith(a, le), SortWith(b, le), xs[n], le);
        SortAppend(a, xs[n], le);
      } else {
        InsertHigh(SortWith(a, le), SortWith(b, le), xs[n], le);
        SortAppend(b, xs[n], le);
      }
    }
  }
}
