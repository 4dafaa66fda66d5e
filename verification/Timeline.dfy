/** The bounded performance timeline of the dashboard, against the full last-write-wins timeline. */
module Timeline {
  import opened Numbers
  import opened Sequences

  const CAPACITY: nat := 1500

  /** time is the parsed simulatedAt; the other fields of a point are its payload. */
  datatype Point = Point(simulatedAt: string, time: int, payload: seq<real>)

  function TimeOf(p: Point): int {
    p.time
  }

  /** The index of the first point with the key, or -1. */
  function IndexOf(points: seq<Point>, key: string): (i: int)
    ensures -1 <= i < |points|
    ensures i >= 0 ==> points[i].simulatedAt == key
    ensures i == -1 ==> forall j :: 0 <= j < |points| ==> points[j].simulatedAt != key
  {
    if |points| == 0 then -1
    else
      var i := IndexOf(points[..|points| - 1], key);
      if i >= 0 then i else if points[|points| - 1].simulatedAt == key then |points| - 1 else -1
  }

  function Put(points: seq<Point>, p: Point): seq<Point> {
    var i := IndexOf(points, p.simulatedAt);
    if i >= 0 then points[i := p] else points + [p]
  }

  function LastN<T>(xs: seq<T>, n: nat): seq<T> {
    if |xs| <= n then xs else xs[|xs| - n..]
  }

  function Upsert(points: seq<Point>, p: Point): seq<Point> {
    StableSort(Put(points, p), TimeOf)
  }

  function Remembered(points: seq<Point>, p: Point, capacity: nat): seq<Point> {
    LastN(Upsert(points, p), capacity)
  }

  class PerformanceState {
    var performancePoints: seq<Point>

    constructor ()
      ensures performancePoints == []
    {
      performancePoints := [];
    }

    /** point is what normalization makes of the portfolio, `None` for its `null`. */
    method RememberPerformancePoint(point: Option<Point>)
      modifies this
      ensures performancePoints ==
              if point.None? then old(performancePoints) else Remembered(old(performancePoints), point.value, CAPACITY)
    {
      if point.None? {
        return;
      }
      var existingIndex := IndexOf(performancePoints, point.value.simulatedAt);
      if existingIndex >= 0 {
        performancePoints := performancePoints[existingIndex := point.value];
      } else {
        performancePoints := performancePoints + [point.value];
      }
      performancePoints := LastN(StableSort(performancePoints, TimeOf), CAPACITY);
    }
  }

  /** The stored points after remembering a history into an empty state. */
  function RememberAll(history: seq<Point>, capacity: nat): seq<Point> {
    if |history| == 0 then []
    else Remembered(RememberAll(history[..|history| - 1], capacity), history[|history| - 1], capacity)
  }

  /** The same without the cut. */
  function FullTimeline(history: seq<Point>): seq<Point> {
    if |history| == 0 then [] else Upsert(FullTimeline(history[..|history| - 1]), history[|history| - 1])
  }

  // ----- What the stored points are ----------------------------------------------------------------------

  /** x is the last point of the history with its key. */
  predicate LatestWrite(history: seq<Point>, x: Point) {
    exists i :: 0 <= i < |history| && history[i] == x && forall j :: i < j < |history| ==> history[j].simulatedAt != x.simulatedAt
  }

  lemma LatestWriteSnoc(before: seq<Point>, p: Point, x: Point)
    ensures LatestWrite(before + [p], x) <==> x == p || (LatestWrite(before, x) && x.simulatedAt != p.simulatedAt)
  {
    var history := before + [p];
    if x == p {
      assert history[|before|] == x;
    }
    if LatestWrite(before, x) && x.simulatedAt != p.simulatedAt {
      var i :| 0 <= i < |before| && before[i] == x && forall j :: i < j < |before| ==> before[j].simulatedAt != x.simulatedAt;
      assert history[i] == x;
    }
    if LatestWrite(history, x) && x != p {
      var i :| 0 <= i < |history| && history[i] == x && forall j :: i < j < |history| ==> history[j].simulatedAt != x.simulatedAt;
      assert before[i] == x && forall j :: i < j < |before| ==> before[j] == history[j];
      assert history[|before|].simulatedAt != x.simulatedAt;
    }
  }

  lemma {:induction false} SortedIsFixed(points: seq<Point>)
    requires SortedBy(points, TimeOf)
    ensures StableSort(points, TimeOf) == points
  {
    if |points| > 0 {
      SortedIsFixed(points[..|points| - 1]);
      SplitLast(points);
    }
  }

  /** Points with one key have one time, since the time is parsed from the key. */
  predicate KeyDecidesTime(points: seq<Point>) {
    forall i, j :: 0 <= i < |points| && 0 <= j < |points| && points[i].simulatedAt == points[j].simulatedAt ==>
      points[i].time == points[j].time
  }

  /** Points with the key of p have its time. */
  predicate AgreesOnTime(points: seq<Point>, p: Point) {
    forall i :: 0 <= i < |points| && points[i].simulatedAt == p.simulatedAt ==> points[i].time == p.time
  }

  predicate AtMostEach(time: int, points: seq<Point>) {
    forall i :: 0 <= i < |points| ==> time <= points[i].time
  }

  ghost predicate NoRepeats(points: seq<Point>) {
    forall x :: multiset(points)[x] <= 1
  }

  /** The points are last writes, each once and in time order, and no last write later than one of them is missing. */
  ghost predicate KeepsLatest(history: seq<Point>, points: seq<Point>, capacity: nat) {
    && SortedBy(points, TimeOf) && |points| <= capacity && NoRepeats(points)
    && AllLatest(history, points) && MissingBefore(history, points, points, capacity)
  }

  predicate AllLatest(history: seq<Point>, points: seq<Point>) {
    forall i :: 0 <= i < |points| ==> LatestWrite(history, points[i])
  }

  /** There are as many points as are kept, and no last write outside all is later than one of them. */
  ghost predicate MissingBefore(history: seq<Point>, all: seq<Point>, points: seq<Point>, capacity: nat) {
    forall x :: LatestWrite(history, x) && x !in all ==> |points| == capacity && AtMostEach(x.time, points)
  }

  lemma OneLatestPerKey(history: seq<Point>, x: Point, y: Point)
    requires LatestWrite(history, x) && LatestWrite(history, y) && x.simulatedAt == y.simulatedAt
    ensures x == y
  {
  }

  lemma RepeatedPoint(points: seq<Point>, i: nat, j: nat)
    requires i < j < |points| && points[i] == points[j]
    ensures !NoRepeats(points)
  {
    assert points == points[..i] + [points[i]] + points[i + 1..j] + [points[i]] + points[j + 1..];
    assert multiset(points)[points[i]] >= 2;
  }

  lemma KeysDiffer(history: seq<Point>, points: seq<Point>, i: nat, j: nat, capacity: nat)
    requires KeepsLatest(history, points, capacity) && i < j < |points|
    ensures points[i].simulatedAt != points[j].simulatedAt
  {
    if points[i].simulatedAt == points[j].simulatedAt {
      OneLatestPerKey(history, points[i], points[j]);
      RepeatedPoint(points, i, j);
    }
  }

  lemma LatestIsInHistory(history: seq<Point>, x: Point) returns (i: nat)
    requires LatestWrite(history, x)
    ensures i < |history| && history[i] == x
  {
    i :| 0 <= i < |history| && history[i] == x;
  }

  lemma ReplacedNoRepeats(points: seq<Point>, i: nat, p: Point)
    requires NoRepeats(points) && i < |points|
    requires forall j :: 0 <= j < |points| && j != i ==> points[j] != p
    ensures NoRepeats(points[i := p])
  {
    if points[i] != p {
      assert p !in points;
    }
    assert multiset(points[i := p]) == multiset(points)[points[i] := multiset(points)[points[i]] - 1] + multiset{p};
  }

  lemma OthersStay(points: seq<Point>, i: nat, p: Point, x: Point)
    requires i < |points|
    ensures x in points && x != points[i] ==> x in points[i := p]
  {
    if x in points && x != points[i] {
      var j :| 0 <= j < |points| && points[j] == x;
      assert points[i := p][j] == x;
    }
  }

  /** Writing a stored key again. */
  lemma ReplaceKeepsLatest(before: seq<Point>, points: seq<Point>, i: nat, p: Point, capacity: nat)
    requires KeepsLatest(before, points, capacity) && KeyDecidesTime(before + [p])
    requires i < |points| && points[i].simulatedAt == p.simulatedAt
    ensures KeepsLatest(before + [p], points[i := p], capacity)
  {
    var history, all, former := before + [p], points[i := p], points[i];
    var k := LatestIsInHistory(before, former);
    assert history[k] == former && history[|before|] == p;
    forall j | 0 <= j < |points| && j != i
      ensures points[j].simulatedAt != p.simulatedAt
    {
      KeysDiffer(before, points, if i < j then i else j, if i < j then j else i, capacity);
    }
    ReplacedNoRepeats(points, i, p);
    forall j | 0 <= j < |all|
      ensures LatestWrite(history, all[j])
    {
      LatestWriteSnoc(before, p, all[j]);
    }
    forall x | LatestWrite(history, x) && x !in all
      ensures |all| == capacity && AtMostEach(x.time, all)
    {
      LatestWriteSnoc(before, p, x);
      assert all[i] == p;
      OthersStay(points, i, p, x);
    }
  }

  /** The points with p put in time order. */
  lemma InsertedKeepsLatest(before: seq<Point>, points: seq<Point>, p: Point, all: seq<Point>, capacity: nat)
    requires KeepsLatest(before, points, capacity) && IndexOf(points, p.simulatedAt) == -1
    requires SortedBy(all, TimeOf) && multiset(all) == multiset(points) + multiset{p}
    ensures |all| == |points| + 1 && NoRepeats(all)
    ensures AllLatest(before + [p], all) && MissingBefore(before + [p], all, points, capacity)
  {
    assert |multiset(all)| == |multiset(points)| + 1;
    forall x
      ensures multiset(all)[x] <= 1
    {
      assert multiset(points)[p] == 0;
    }
    forall i | 0 <= i < |all|
      ensures LatestWrite(before + [p], all[i])
    {
      assert all[i] in multiset(all);
      LatestWriteSnoc(before, p, all[i]);
    }
    forall x | LatestWrite(before + [p], x) && x !in all
      ensures |points| == capacity && AtMostEach(x.time, points)
    {
      assert x !in multiset(all);
      LatestWriteSnoc(before, p, x);
    }
  }

  lemma WithoutFirst(all: seq<Point>)
    requires |all| > 0
    ensures multiset(all) == multiset{all[0]} + multiset(all[1..])
  {
    assert all == [all[0]] + all[1..];
  }

  lemma SameButOne(a: multiset<Point>, b: multiset<Point>, p: Point)
    requires multiset{p} + a == b + multiset{p}
    ensures a == b
  {
    forall x
      ensures a[x] == b[x]
    {
      assert (multiset{p} + a)[x] == (b + multiset{p})[x];
    }
  }

  lemma SameMembers(xs: seq<Point>, ys: seq<Point>, x: Point)
    requires multiset(xs) == multiset(ys)
    ensures x in xs <==> x in ys
  {
    assert x in xs <==> x in multiset(xs);
    assert x in ys <==> x in multiset(ys);
  }

  lemma EarlierThanAll(time: int, points: seq<Point>, p: Point, all: seq<Point>)
    requires AtMostEach(time, points) && SortedBy(all, TimeOf) && |all| > 0
    requires multiset(all) == multiset(points) + multiset{p}
    ensures AtMostEach(time, all[1..])
  {
    WithoutFirst(all);
    if all[0] in points {
      var j :| 0 <= j < |points| && points[j] == all[0];
    } else {
      assert all[0] !in multiset(points) && all[0] in multiset(all);
      SameButOne(multiset(all[1..]), multiset(points), p);
      forall i | 0 <= i < |all[1..]|
        ensures time <= all[1..][i].time
      {
        SameMembers(all[1..], points, all[1..][i]);
      }
    }
  }

  /** Cutting the earliest of one point too many. */
  lemma CutKeepsLatest(history: seq<Point>, points: seq<Point>, p: Point, all: seq<Point>, capacity: nat)
    requires SortedBy(all, TimeOf) && |all| == |points| + 1 == capacity + 1 && NoRepeats(all)
    requires AllLatest(history, all) && MissingBefore(history, all, points, capacity)
    requires multiset(all) == multiset(points) + multiset{p}
    ensures KeepsLatest(history, all[1..], capacity)
  {
    var kept := all[1..];
    WithoutFirst(all);
    forall x
      ensures multiset(kept)[x] <= 1
    {
      assert multiset(all)[x] <= 1;
    }
    forall x | LatestWrite(history, x) && x !in kept
      ensures AtMostEach(x.time, kept)
    {
      OutsideCut(all, x);
      if x !in all {
        EarlierThanAll(x.time, points, p, all);
      }
    }
  }

  lemma OutsideCut(all: seq<Point>, x: Point)
    requires |all| > 0 && SortedBy(all, TimeOf) && x !in all[1..]
    ensures x in all ==> AtMostEach(x.time, all[1..])
  {
    if x in all {
      WithoutFirst(all);
      assert x in multiset(all) && x !in multiset(all[1..]);
      assert x == all[0];
    }
  }

  lemma UncutKeepsLatest(history: seq<Point>, points: seq<Point>, all: seq<Point>, capacity: nat)
    requires SortedBy(all, TimeOf) && |all| == |points| + 1 <= capacity && NoRepeats(all)
    requires AllLatest(history, all) && MissingBefore(history, all, points, capacity)
    ensures KeepsLatest(history, all, capacity)
  {
  }

  /** The points with p in time order, cut to the capacity. */
  lemma InsertedAndCut(before: seq<Point>, points: seq<Point>, p: Point, all: seq<Point>, capacity: nat)
    requires KeepsLatest(before, points, capacity) && IndexOf(points, p.simulatedAt) == -1
    requires SortedBy(all, TimeOf) && multiset(all) == multiset(points) + multiset{p}
    ensures KeepsLatest(before + [p], LastN(all, capacity), capacity)
  {
    InsertedKeepsLatest(before, points, p, all, capacity);
    if |all| > capacity {
      assert LastN(all, capacity) == all[1..];
      CutKeepsLatest(before + [p], points, p, all, capacity);
    } else {
      UncutKeepsLatest(before + [p], points, all, capacity);
    }
  }

  /** A new key. */
  lemma InsertKeepsLatest(before: seq<Point>, points: seq<Point>, p: Point, capacity: nat)
    requires KeepsLatest(before, points, capacity) && IndexOf(points, p.simulatedAt) == -1
    ensures KeepsLatest(before + [p], Remembered(points, p, capacity), capacity)
  {
    StableSortFacts(points + [p], TimeOf);
    InsertedAndCut(before, points, p, StableSort(points + [p], TimeOf), capacity);
  }

  lemma RememberKeepsLatest(before: seq<Point>, points: seq<Point>, p: Point, capacity: nat)
    requires KeepsLatest(before, points, capacity) && KeyDecidesTime(before + [p])
    ensures KeepsLatest(before + [p], Remembered(points, p, capacity), capacity)
  {
    var i := IndexOf(points, p.simulatedAt);
    if i >= 0 {
      ReplaceKeepsLatest(before, points, i, p, capacity);
      SortedIsFixed(points[i := p]);
    } else {
      InsertKeepsLatest(before, points, p, capacity);
    }
  }

  lemma KeyDecidesTimeBefore(before: seq<Point>, p: Point)
    requires KeyDecidesTime(before + [p])
    ensures KeyDecidesTime(before)
  {
    assert forall i :: 0 <= i < |before| ==> before[i] == (before + [p])[i];
  }

  /** After any history, ties or not, the stored points are the last writes of at most 1500 keys, sorted and each once,
      and a last write that is not stored is no later than any that is. */
  lemma {:induction false} StoredPointsAreLatest(history: seq<Point>, capacity: nat)
    requires KeyDecidesTime(history)
    ensures KeepsLatest(history, RememberAll(history, capacity), capacity)
  {
    if |history| > 0 {
      var before, p := history[..|history| - 1], history[|history| - 1];
      SplitLast(history);
      KeyDecidesTimeBefore(before, p);
      StoredPointsAreLatest(before, capacity);
      RememberKeepsLatest(before, RememberAll(before, capacity), p, capacity);
    }
  }

  // ----- The unbounded timeline ------------------------------------------------------------------------

  lemma {:induction false} FullIsUncut(history: seq<Point>, capacity: nat)
    requires |history| <= capacity
    ensures FullTimeline(history) == RememberAll(history, capacity) && |FullTimeline(history)| <= |history|
  {
    if |history| > 0 {
      var before, p := history[..|history| - 1], history[|history| - 1];
      FullIsUncut(before, capacity);
      StableSortFacts(Put(FullTimeline(before), p), TimeOf);
      assert |multiset(FullTimeline(history))| == |multiset(Put(FullTimeline(before), p))|;
    }
  }

  /** The uncut timeline is sorted by time, without repeats, and holds exactly the last write of every key. */
  lemma FullTimelineIsLastWriteWins(history: seq<Point>)
    requires KeyDecidesTime(history)
    ensures Ordered(FullTimeline(history))
    ensures forall i, j :: 0 <= i < j < |FullTimeline(history)| ==> FullTimeline(history)[i].time <= FullTimeline(history)[j].time
    ensures forall x :: x in FullTimeline(history) <==> LatestWrite(history, x)
  {
    var full, capacity := FullTimeline(history), |history| + 1;
    FullIsUncut(history, capacity);
    StoredPointsAreLatest(history, capacity);
    KeptKeysUnique(history, full, capacity);
  }

  predicate KeysUnique(points: seq<Point>) {
    forall i, j :: 0 <= i < j < |points| ==> points[i].simulatedAt != points[j].simulatedAt
  }

  predicate Ordered(points: seq<Point>) {
    SortedBy(points, TimeOf) && KeysUnique(points)
  }

  lemma KeptKeysUnique(history: seq<Point>, points: seq<Point>, capacity: nat)
    requires KeepsLatest(history, points, capacity)
    ensures KeysUnique(points)
  {
    forall i, j | 0 <= i < j < |points|
      ensures points[i].simulatedAt != points[j].simulatedAt
    {
      KeysDiffer(history, points, i, j, capacity);
    }
  }

  // ----- When the cut loses nothing ------------------------------------------------------------------------

  /** The key of p is in the full timeline and no longer stored, and its time is that of the earliest stored point. */
  predicate RevivesTie(full: seq<Point>, points: seq<Point>, p: Point) {
    IndexOf(full, p.simulatedAt) >= 0 && IndexOf(points, p.simulatedAt) == -1 && |points| > 0 && points[0].time == p.time
  }

  lemma UpsertInserts(points: seq<Point>, p: Point)
    requires SortedBy(points, TimeOf) && IndexOf(points, p.simulatedAt) == -1
    ensures Upsert(points, p) == InsertBy(points, p, TimeOf)
  {
    assert (points + [p])[..|points|] == points;
    SortedIsFixed(points);
  }

  lemma UpsertReplaces(points: seq<Point>, p: Point)
    requires Ordered(points) && AgreesOnTime(points, p) && IndexOf(points, p.simulatedAt) >= 0
    ensures Upsert(points, p) == points[IndexOf(points, p.simulatedAt) := p]
  {
    SortedIsFixed(points[IndexOf(points, p.simulatedAt) := p]);
  }

  lemma {:induction false} InsertWithin(a: seq<Point>, b: seq<Point>, p: Point)
    requires |b| > 0 && b[0].time <= p.time
    ensures InsertBy(a + b, p, TimeOf) == a + InsertBy(b, p, TimeOf)
  {
    if b[|b| - 1].time > p.time {
      var front, last := b[..|b| - 1], b[|b| - 1];
      InsertWithin(a, front, p);
      assert (a + b)[..|a + b| - 1] == a + front;
    }
  }

  lemma InsertSnoc(xs: seq<Point>, last: Point, p: Point)
    requires last.time > p.time
    ensures InsertBy(xs + [last], p, TimeOf) == InsertBy(xs, p, TimeOf) + [last]
  {
    assert (xs + [last])[..|xs|] == xs;
  }

  lemma Reassociate(a: seq<Point>, b: seq<Point>)
    requires |b| > 0
    ensures a + b == (a + b[..|b| - 1]) + [b[|b| - 1]]
  {
  }

  lemma {:induction false} InsertBefore(a: seq<Point>, b: seq<Point>, p: Point)
    requires forall i :: 0 <= i < |b| ==> b[i].time > p.time
    ensures InsertBy(a + b, p, TimeOf) == InsertBy(a, p, TimeOf) + b
  {
    if |b| == 0 {
      assert a + b == a;
      assert InsertBy(a, p, TimeOf) + b == InsertBy(a, p, TimeOf);
    } else {
      var front, last := b[..|b| - 1], b[|b| - 1];
      InsertBefore(a, front, p);
      InsertSnoc(a + front, last, p);
      Reassociate(a, b);
      Reassociate(InsertBy(a, p, TimeOf), b);
    }
  }

  /** p put where it is no later than any point: first, or after the points of its own time. */
  lemma {:induction false} InsertNoLater(points: seq<Point>, p: Point)
    requires SortedBy(points, TimeOf) && AtMostEach(p.time, points)
    ensures var r := InsertBy(points, p, TimeOf);
            && |r| == |points| + 1 && p in r
            && if |points| == 0 || p.time < points[0].time then r == [p] + points else r[0] == points[0]
  {
    if |points| > 0 && points[|points| - 1].time > p.time {
      InsertNoLater(points[..|points| - 1], p);
    }
  }

  lemma CutIsOrdered(full: seq<Point>, p: Point, n: nat)
    requires Ordered(full)
    ensures Ordered(LastN(full, n)) && (AgreesOnTime(full, p) ==> AgreesOnTime(LastN(full, n), p))
  {
  }

  lemma LastOfConcat(a: seq<Point>, b: seq<Point>, n: nat)
    requires |b| >= n
    ensures LastN(a + b, n) == LastN(b, n)
  {
  }

  lemma CutInsertCommutes(full: seq<Point>, p: Point, n: nat)
    requires SortedBy(full, TimeOf) && n > 0
    ensures LastN(InsertBy(full, p, TimeOf), n) == LastN(InsertBy(LastN(full, n), p, TimeOf), n)
  {
    if |full| > n {
      var a, b := full[..|full| - n], LastN(full, n);
      assert full == a + b && SortedBy(b, TimeOf);
      InsertBySorted(b, p, TimeOf);
      if b[0].time <= p.time {
        InsertWithin(a, b, p);
        LastOfConcat(a, InsertBy(b, p, TimeOf), n);
      } else {
        InsertBefore(a, b, p);
        LastOfConcat(InsertBy(a, p, TimeOf), b, n);
        InsertNoLater(b, p);
        LastOfConcat([p], b, n);
      }
    }
  }

  lemma UpdateOfCut(full: seq<Point>, j: nat, i: nat, p: Point, n: nat)
    requires i < |LastN(full, n)| && j == |full| - |LastN(full, n)| + i
    ensures LastN(full[j := p], n) == LastN(full, n)[i := p]
  {
  }

  lemma PlaceInFull(full: seq<Point>, key: string, n: nat)
    requires KeysUnique(full) && IndexOf(LastN(full, n), key) >= 0
    ensures IndexOf(full, key) == |full| - |LastN(full, n)| + IndexOf(LastN(full, n), key)
  {
    var points := LastN(full, n);
    assert full[|full| - |points| + IndexOf(points, key)] == points[IndexOf(points, key)];
  }

  lemma RewriteIsUpdate(points: seq<Point>, p: Point, n: nat)
    requires Ordered(points) && AgreesOnTime(points, p) && IndexOf(points, p.simulatedAt) >= 0 && |points| <= n
    ensures Remembered(points, p, n) == points[IndexOf(points, p.simulatedAt) := p]
  {
    UpsertReplaces(points, p);
  }

  lemma CutOfRewrite(full: seq<Point>, p: Point, n: nat)
    requires Ordered(full) && AgreesOnTime(full, p) && IndexOf(LastN(full, n), p.simulatedAt) >= 0
    ensures LastN(Upsert(full, p), n) == LastN(full, n)[IndexOf(LastN(full, n), p.simulatedAt) := p]
  {
    var j, i := IndexOf(full, p.simulatedAt), IndexOf(LastN(full, n), p.simulatedAt);
    PlaceInFull(full, p.simulatedAt, n);
    UpdateOfCut(full, j, i, p, n);
    UpsertReplaces(full, p);
  }

  /** A key that is still stored. */
  lemma CutRewriteStored(full: seq<Point>, p: Point, n: nat)
    requires Ordered(full) && AgreesOnTime(full, p) && IndexOf(LastN(full, n), p.simulatedAt) >= 0
    ensures LastN(Upsert(full, p), n) == Remembered(LastN(full, n), p, n)
  {
    CutOfRewrite(full, p, n);
    CutIsOrdered(full, p, n);
    RewriteIsUpdate(LastN(full, n), p, n);
  }

  /** The place of a key whose point is no longer stored. */
  lemma EvictedPlace(full: seq<Point>, p: Point, n: nat)
    requires SortedBy(full, TimeOf) && n > 0
    requires AgreesOnTime(full, p)
    requires IndexOf(full, p.simulatedAt) >= 0 && IndexOf(LastN(full, n), p.simulatedAt) == -1
    ensures IndexOf(full, p.simulatedAt) < |full| - n && |LastN(full, n)| == n
    ensures AtMostEach(p.time, LastN(full, n)) && p !in LastN(full, n)
  {
    var points := LastN(full, n);
    var d := |full| - |points|;
    assert forall i :: d <= i < |full| ==> full[i] == points[i - d];
    assert forall i :: 0 <= i < |points| ==> points[i] == full[d + i];
  }

  lemma CutOfUpdate(full: seq<Point>, i: nat, p: Point, n: nat)
    requires i < |full| - n
    ensures LastN(full[i := p], n) == LastN(full, n)
  {
  }

  /** A point that is no later than any of n stored ones and not among them is cut again, unless it ties with the first. */
  lemma InsertedIsCut(points: seq<Point>, p: Point, n: nat)
    requires SortedBy(points, TimeOf) && |points| == n > 0 && AtMostEach(p.time, points) && p !in points
    ensures points == LastN(InsertBy(points, p, TimeOf), n) <==> p.time < points[0].time
  {
    InsertNoLater(points, p);
    if p.time == points[0].time {
      var r := InsertBy(points, p, TimeOf);
      assert r == [r[0]] + r[1..];
      assert p in r[1..];
    }
  }

  /** A key that was stored once and is evicted: rewriting it changes nothing, unless it ties with the earliest point. */
  lemma CutRewriteEvicted(full: seq<Point>, p: Point, n: nat)
    requires Ordered(full) && n > 0
    requires AgreesOnTime(full, p)
    requires IndexOf(full, p.simulatedAt) >= 0 && IndexOf(LastN(full, n), p.simulatedAt) == -1
    ensures LastN(Upsert(full, p), n) == LastN(full, n) && |LastN(full, n)| == n && p.time <= LastN(full, n)[0].time
    ensures LastN(full, n) == Remembered(LastN(full, n), p, n) <==> p.time < LastN(full, n)[0].time
  {
    var points, j := LastN(full, n), IndexOf(full, p.simulatedAt);
    EvictedPlace(full, p, n);
    UpsertReplaces(full, p);
    CutOfUpdate(full, j, p, n);
    CutIsOrdered(full, p, n);
    UpsertInserts(points, p);
    InsertedIsCut(points, p, n);
  }

  /** Cutting before an upsert loses nothing that cutting after it keeps, exactly when the upsert revives no tie. */
  lemma CutCommutes(full: seq<Point>, p: Point, n: nat)
    requires Ordered(full) && n > 0
    requires AgreesOnTime(full, p)
    ensures LastN(Upsert(full, p), n) == Remembered(LastN(full, n), p, n) <==> !RevivesTie(full, LastN(full, n), p)
  {
    var points := LastN(full, n);
    if IndexOf(points, p.simulatedAt) >= 0 {
      CutRewriteStored(full, p, n);
    } else if IndexOf(full, p.simulatedAt) >= 0 {
      CutRewriteEvicted(full, p, n);
    } else {
      CutIsOrdered(full, p, n);
      UpsertInserts(full, p);
      UpsertInserts(points, p);
      CutInsertCommutes(full, p, n);
    }
  }

  /** Write k rewrites a key that was written before, is no longer stored and ties with the earliest stored point. */
  predicate RevivesTieAt(history: seq<Point>, k: nat, capacity: nat)
    requires k < |history|
  {
    var stored := RememberAll(history[..k], capacity);
    && (exists j :: 0 <= j < k && history[j].simulatedAt == history[k].simulatedAt)
    && IndexOf(stored, history[k].simulatedAt) == -1 && |stored| > 0 && stored[0].time == history[k].time
  }

  /** After the first k writes the stored points are the end of the uncut timeline. */
  predicate RefinesAt(history: seq<Point>, k: nat, capacity: nat)
    requires k <= |history|
  {
    RememberAll(history[..k], capacity) == LastN(FullTimeline(history[..k]), capacity)
  }

  lemma {:induction false} LastWriteExists(history: seq<Point>, key: string)
    requires exists j :: 0 <= j < |history| && history[j].simulatedAt == key
    ensures exists x :: LatestWrite(history, x) && x.simulatedAt == key
  {
    var before, last := history[..|history| - 1], history[|history| - 1];
    SplitLast(history);
    if last.simulatedAt == key {
      LatestWriteSnoc(before, last, last);
    } else {
      var j :| 0 <= j < |history| && history[j].simulatedAt == key;
      assert before[j] == history[j];
      LastWriteExists(before, key);
      var x :| LatestWrite(before, x) && x.simulatedAt == key;
      LatestWriteSnoc(before, last, x);
    }
  }

  /** A key is in the full timeline exactly when it was written. */
  lemma WrittenIsInFull(history: seq<Point>, key: string)
    requires KeyDecidesTime(history)
    ensures IndexOf(FullTimeline(history), key) >= 0 <==> exists j :: 0 <= j < |history| && history[j].simulatedAt == key
  {
    FullTimelineIsLastWriteWins(history);
    var full := FullTimeline(history);
    var i := IndexOf(full, key);
    if i >= 0 {
      assert LatestWrite(history, full[i]);
      var j := LatestIsInHistory(history, full[i]);
    }
    if exists j :: 0 <= j < |history| && history[j].simulatedAt == key {
      LastWriteExists(history, key);
      var x :| LatestWrite(history, x) && x.simulatedAt == key;
      assert x in full;
    }
  }

  lemma FullTimes(before: seq<Point>, p: Point)
    requires KeyDecidesTime(before + [p])
    ensures AgreesOnTime(FullTimeline(before), p)
  {
    KeyDecidesTimeBefore(before, p);
    FullTimelineIsLastWriteWins(before);
    var full := FullTimeline(before);
    forall i | 0 <= i < |full| && full[i].simulatedAt == p.simulatedAt
      ensures full[i].time == p.time
    {
      assert LatestWrite(before, full[i]);
      var j := LatestIsInHistory(before, full[i]);
      assert (before + [p])[j] == full[i] && (before + [p])[|before|] == p;
    }
  }

  lemma TakeWrite(history: seq<Point>, k: nat, capacity: nat)
    requires k < |history|
    ensures FullTimeline(history[..k + 1]) == Upsert(FullTimeline(history[..k]), history[k])
    ensures RememberAll(history[..k + 1], capacity) == Remembered(RememberAll(history[..k], capacity), history[k], capacity)
  {
    assert history[..k + 1][..k] == history[..k] && history[..k + 1][k] == history[k];
  }

  lemma RevivalIsInFull(history: seq<Point>, k: nat, capacity: nat)
    requires KeyDecidesTime(history) && k < |history|
    ensures RevivesTieAt(history, k, capacity) <==>
            RevivesTie(FullTimeline(history[..k]), RememberAll(history[..k], capacity), history[k])
  {
    assert forall j :: 0 <= j < k ==> history[..k][j] == history[j];
    WrittenIsInFull(history[..k], history[k].simulatedAt);
  }

  lemma NextCommutes(before: seq<Point>, p: Point, capacity: nat)
    requires KeyDecidesTime(before + [p]) && capacity > 0
    ensures var full := FullTimeline(before);
            LastN(Upsert(full, p), capacity) == Remembered(LastN(full, capacity), p, capacity)
            <==> !RevivesTie(full, LastN(full, capacity), p)
  {
    KeyDecidesTimeBefore(before, p);
    FullTimelineIsLastWriteWins(before);
    FullTimes(before, p);
    CutCommutes(FullTimeline(before), p, capacity);
  }

  lemma KeyDecidesTimeUntil(history: seq<Point>, k: nat)
    requires KeyDecidesTime(history) && k < |history|
    ensures KeyDecidesTime(history[..k] + [history[k]])
  {
    assert history[..k] + [history[k]] == history[..k + 1];
  }

  /** One write more, as long as the stored points are the end of the uncut timeline. */
  lemma NextRefines(history: seq<Point>, k: nat, capacity: nat)
    requires KeyDecidesTime(history) && k < |history| && capacity > 0 && RefinesAt(history, k, capacity)
    ensures RefinesAt(history, k + 1, capacity) <==> !RevivesTieAt(history, k, capacity)
  {
    KeyDecidesTimeUntil(history, k);
    NextCommutes(history[..k], history[k], capacity);
    TakeWrite(history, k, capacity);
    RevivalIsInFull(history, k, capacity);
  }

  lemma {:induction false} RefinesUntilRevival(history: seq<Point>, k: nat, capacity: nat)
    requires KeyDecidesTime(history) && k <= |history| && capacity > 0
    requires forall i :: 0 <= i < k ==> !RevivesTieAt(history, i, capacity)
    ensures RefinesAt(history, k, capacity)
  {
    if k > 0 {
      RefinesUntilRevival(history, k - 1, capacity);
      NextRefines(history, k - 1, capacity);
    }
  }

  lemma RevivalIsSeen(history: seq<Point>, k: nat, capacity: nat)
    requires KeyDecidesTime(history) && k < |history| && capacity > 0 && RevivesTieAt(history, k, capacity)
    ensures !(RefinesAt(history, k, capacity) && RefinesAt(history, k + 1, capacity))
  {
    if RefinesAt(history, k, capacity) {
      NextRefines(history, k, capacity);
    }
  }

  /** All along a history the stored points are the last 1500 of the uncut timeline, exactly when no write revives a tie. */
  lemma BoundedRefinesFullExactly(history: seq<Point>, capacity: nat)
    requires KeyDecidesTime(history) && capacity > 0
    ensures (forall k :: 0 <= k <= |history| ==> RefinesAt(history, k, capacity)) <==>
            (forall k :: 0 <= k < |history| ==> !RevivesTieAt(history, k, capacity))
  {
    if k :| 0 <= k < |history| && RevivesTieAt(history, k, capacity) {
      RevivalIsSeen(history, k, capacity);
    } else {
      forall k | 0 <= k <= |history|
        ensures RefinesAt(history, k, capacity)
      {
        RefinesUntilRevival(history, k, capacity);
      }
    }
  }

  /** Two points have the same time exactly when they have the same key. */
  predicate DistinctTimes(points: seq<Point>) {
    forall i, j :: 0 <= i < |points| && 0 <= j < |points| ==>
      (points[i].time == points[j].time <==> points[i].simulatedAt == points[j].simulatedAt)
  }

  lemma DistinctTimesReviveNothing(history: seq<Point>, k: nat, capacity: nat)
    requires DistinctTimes(history) && k < |history|
    ensures !RevivesTieAt(history, k, capacity)
  {
    var before, stored := history[..k], RememberAll(history[..k], capacity);
    assert KeyDecidesTime(before) by {
      assert forall i :: 0 <= i < k ==> before[i] == history[i];
    }
    StoredPointsAreLatest(before, capacity);
    if |stored| > 0 && stored[0].time == history[k].time {
      assert LatestWrite(before, stored[0]);
      var j := LatestIsInHistory(before, stored[0]);
      assert history[j] == stored[0];
    }
  }

  /** With one time per key the stored points always are the last 1500 of the uncut timeline. */
  lemma BoundedRefinesFull(history: seq<Point>, capacity: nat)
    requires DistinctTimes(history) && capacity > 0
    ensures RememberAll(history, capacity) == LastN(FullTimeline(history), capacity)
  {
    forall k | 0 <= k < |history|
      ensures !RevivesTieAt(history, k, capacity)
    {
      DistinctTimesReviveNothing(history, k, capacity);
    }
    RefinesUntilRevival(history, |history|, capacity);
    assert history[..|history|] == history;
  }

  // ----- The order of ties ---------------------------------------------------------------------------------

  /** Key a is written before key b is, if b is written at all. */
  predicate WrittenBefore(history: seq<Point>, a: string, b: string) {
    exists m :: 0 <= m < |history| && history[m].simulatedAt == a && forall l :: 0 <= l <= m ==> history[l].simulatedAt != b
  }

  lemma WrittenBeforeSnoc(before: seq<Point>, p: Point, a: string, b: string)
    requires WrittenBefore(before, a, b)
    ensures WrittenBefore(before + [p], a, b)
  {
    var history := before + [p];
    var m :| 0 <= m < |before| && before[m].simulatedAt == a && forall l :: 0 <= l <= m ==> before[l].simulatedAt != b;
    assert history[m] == before[m] && forall l :: 0 <= l <= m ==> history[l] == before[l];
  }

  predicate TiesInOrder(history: seq<Point>, points: seq<Point>) {
    forall i, j :: 0 <= i < j < |points| && points[i].time == points[j].time ==>
      WrittenBefore(history, points[i].simulatedAt, points[j].simulatedAt)
  }

  lemma {:induction false} InsertPlace(points: seq<Point>, p: Point) returns (k: nat)
    requires SortedBy(points, TimeOf)
    ensures k <= |points| && InsertBy(points, p, TimeOf) == points[..k] + [p] + points[k..]
    ensures forall i :: k <= i < |points| ==> p.time < points[i].time
  {
    if |points| == 0 || TimeOf(points[|points| - 1]) <= TimeOf(p) {
      k := |points|;
    } else {
      var front, last := points[..|points| - 1], points[|points| - 1];
      k := InsertPlace(front, p);
      assert points[k..] == front[k..] + [last] && points[..k] == front[..k];
    }
  }

  predicate Written(history: seq<Point>, key: string) {
    exists m :: 0 <= m < |history| && history[m].simulatedAt == key
  }

  lemma ReplacedTies(before: seq<Point>, points: seq<Point>, i: nat, p: Point)
    requires TiesInOrder(before, points) && i < |points|
    requires points[i].simulatedAt == p.simulatedAt && points[i].time == p.time
    ensures TiesInOrder(before + [p], points[i := p])
  {
    var r := points[i := p];
    forall a, b | 0 <= a < b < |r| && r[a].time == r[b].time
      ensures WrittenBefore(before + [p], r[a].simulatedAt, r[b].simulatedAt)
    {
      assert WrittenBefore(before, points[a].simulatedAt, points[b].simulatedAt);
      WrittenBeforeSnoc(before, p, points[a].simulatedAt, points[b].simulatedAt);
    }
  }

  lemma WrittenBeforeNew(before: seq<Point>, a: string, b: string)
    requires Written(before, a) && !Written(before, b)
    ensures WrittenBefore(before, a, b)
  {
    var m :| 0 <= m < |before| && before[m].simulatedAt == a;
    assert forall l :: 0 <= l <= m ==> before[l].simulatedAt != b;
  }

  predicate AllWritten(history: seq<Point>, points: seq<Point>) {
    forall i :: 0 <= i < |points| ==> Written(history, points[i].simulatedAt)
  }

  /** A pair of the list with p inserted at k: two points of the list, or one of them and p. */
  lemma InsertedPair(before: seq<Point>, points: seq<Point>, p: Point, k: nat, a: nat, b: nat)
    requires k <= |points| && TiesInOrder(before, points) && AllWritten(before, points) && !Written(before, p.simulatedAt)
    requires forall i :: k <= i < |points| ==> p.time < points[i].time
    requires var r := points[..k] + [p] + points[k..]; a < b < |r| && r[a].time == r[b].time
    ensures var r := points[..k] + [p] + points[k..]; WrittenBefore(before, r[a].simulatedAt, r[b].simulatedAt)
  {
    var r := points[..k] + [p] + points[k..];
    assert b > k ==> r[b] == points[b - 1];
    if a == k {
      assert false;
    }
    var x := if a < k then a else a - 1;
    assert r[a] == points[x];
    if b == k {
      WrittenBeforeNew(before, points[x].simulatedAt, p.simulatedAt);
    } else {
      var y := if b < k then b else b - 1;
      assert r[b] == points[y];
    }
  }

  lemma InsertedTies(before: seq<Point>, points: seq<Point>, p: Point)
    requires SortedBy(points, TimeOf) && TiesInOrder(before, points) && AllWritten(before, points)
    requires !Written(before, p.simulatedAt)
    ensures TiesInOrder(before + [p], InsertBy(points, p, TimeOf))
  {
    var k := InsertPlace(points, p);
    var r := InsertBy(points, p, TimeOf);
    forall a, b | 0 <= a < b < |r| && r[a].time == r[b].time
      ensures WrittenBefore(before + [p], r[a].simulatedAt, r[b].simulatedAt)
    {
      InsertedPair(before, points, p, k, a, b);
      WrittenBeforeSnoc(before, p, r[a].simulatedAt, r[b].simulatedAt);
    }
  }

  lemma {:induction false} WrittenIsKept(history: seq<Point>, key: string)
    requires Written(history, key)
    ensures exists i :: 0 <= i < |history| && history[i].simulatedAt == key && LatestWrite(history, history[i])
  {
    var before, p := history[..|history| - 1], history[|history| - 1];
    SplitLast(history);
    if p.simulatedAt == key {
      LatestWriteSnoc(before, p, p);
    } else {
      var m :| 0 <= m < |history| && history[m].simulatedAt == key;
      assert before[m].simulatedAt == key;
      WrittenIsKept(before, key);
      var i :| 0 <= i < |before| && before[i].simulatedAt == key && LatestWrite(before, before[i]);
      LatestWriteSnoc(before, p, before[i]);
      assert history[i] == before[i];
    }
  }

  lemma KeysAreWritten(history: seq<Point>, key: string)
    requires KeyDecidesTime(history)
    ensures Written(history, key) <==> IndexOf(FullTimeline(history), key) >= 0
  {
    var full := FullTimeline(history);
    FullTimelineIsLastWriteWins(history);
    if Written(history, key) {
      WrittenIsKept(history, key);
      var i :| 0 <= i < |history| && history[i].simulatedAt == key && LatestWrite(history, history[i]);
      assert history[i] in full;
    }
    var k := IndexOf(full, key);
    if k >= 0 {
      assert full[k] in full;
      assert LatestWrite(history, full[k]);
    }
  }

  /** Points of one time stand in the order in which their keys were first written. */
  lemma {:induction false} TiesStandInFirstOrder(history: seq<Point>)
    requires KeyDecidesTime(history)
    ensures TiesInOrder(history, FullTimeline(history))
  {
    if |history| > 0 {
      var before, p := history[..|history| - 1], history[|history| - 1];
      var full := FullTimeline(before);
      SplitLast(history);
      KeyDecidesTimeBefore(before, p);
      TiesStandInFirstOrder(before);
      FullTimelineIsLastWriteWins(before);
      KeysAreWritten(before, p.simulatedAt);
      FullAgreesOnTime(before, p);
      var i := IndexOf(full, p.simulatedAt);
      if i >= 0 {
        UpsertReplaces(full, p);
        ReplacedTies(before, full, i, p);
      } else {
        UpsertInserts(full, p);
        forall k | 0 <= k < |full|
          ensures Written(before, full[k].simulatedAt)
        {
          assert full[k] in full;
          assert LatestWrite(before, full[k]);
        }
        InsertedTies(before, full, p);
      }
    }
  }

  lemma FullAgreesOnTime(before: seq<Point>, p: Point)
    requires KeyDecidesTime(before + [p])
    ensures AgreesOnTime(FullTimeline(before), p)
  {
    var full, history := FullTimeline(before), before + [p];
    KeyDecidesTimeBefore(before, p);
    FullTimelineIsLastWriteWins(before);
    forall k | 0 <= k < |full| && full[k].simulatedAt == p.simulatedAt
      ensures full[k].time == p.time
    {
      assert full[k] in full;
      var m := LatestIsInHistory(before, full[k]);
      assert history[m] == before[m] && history[|before|] == p;
    }
  }

  // ----- A tie that is revived ------------------------------------------------------------------------------

  function Tie(i: nat): Point {
    Point(seq(i, _ => 'x'), 0, [])
  }

  function Ties(n: nat): seq<Point> {
    seq(n, i requires 0 <= i => Tie(i))
  }

  lemma TieKeys(i: nat, j: nat)
    ensures Tie(i).simulatedAt == Tie(j).simulatedAt <==> i == j
  {
    assert |Tie(i).simulatedAt| == i && |Tie(j).simulatedAt| == j;
  }

  /** Of the end of the ties the first d ones are missing. */
  lemma MissingTie(n: nat, capacity: nat, k: nat)
    requires k < n - |LastN(Ties(n), capacity)| || k >= n
    ensures var stored := LastN(Ties(n), capacity);
            IndexOf(stored, Tie(k).simulatedAt) == -1 && forall i :: 0 <= i < |stored| ==> stored[i].time == 0
  {
    var stored := LastN(Ties(n), capacity);
    forall i | 0 <= i < |stored|
      ensures stored[i].simulatedAt != Tie(k).simulatedAt && stored[i].time == 0
    {
      assert stored[i] == Tie(n - |stored| + i);
      TieKeys(n - |stored| + i, k);
    }
  }

  lemma AppendTie(points: seq<Point>, p: Point, capacity: nat)
    requires IndexOf(points, p.simulatedAt) == -1 && p.time == 0 && forall i :: 0 <= i < |points| ==> points[i].time == 0
    ensures Remembered(points, p, capacity) == LastN(points + [p], capacity)
  {
    UpsertInserts(points, p);
  }

  lemma LastOfAppended(points: seq<Point>, p: Point, n: nat)
    ensures LastN(LastN(points, n) + [p], n) == LastN(points + [p], n)
  {
  }

  lemma {:induction false} TiesAreStored(n: nat, capacity: nat)
    ensures RememberAll(Ties(n), capacity) == LastN(Ties(n), capacity)
  {
    if n > 0 {
      var before, p := Ties(n - 1), Tie(n - 1);
      assert Ties(n)[..n - 1] == before && Ties(n) == before + [p];
      TiesAreStored(n - 1, capacity);
      MissingTie(n - 1, capacity, n - 1);
      AppendTie(LastN(before, capacity), p, capacity);
      LastOfAppended(before, p, capacity);
    }
  }

  lemma FirstTieIsRevived(history: seq<Point>, before: seq<Point>, capacity: nat)
    requires capacity > 0 && before == Ties(capacity + 1) && history == before + [Tie(0)]
    ensures RevivesTieAt(history, |before|, capacity)
  {
    TiesAreStored(capacity + 1, capacity);
    MissingTie(capacity + 1, capacity, 0);
    assert history[..|before|] == before;
    assert history[0] == history[|before|] == Tie(0);
  }

  /** One point more than fits, all of one time, and the first one written again: the cut loses another point. */
  lemma RevivedTieDiffers(capacity: nat) returns (history: seq<Point>)
    requires capacity > 0
    ensures KeyDecidesTime(history)
    ensures exists k :: 0 <= k <= |history| && !RefinesAt(history, k, capacity)
  {
    var n := capacity + 1;
    history := Ties(n) + [Tie(0)];
    assert forall i :: 0 <= i < |history| ==> history[i].time == 0;
    FirstTieIsRevived(history, Ties(n), capacity);
    RevivalIsSeen(history, n, capacity);
    assert !RefinesAt(history, n, capacity) || !RefinesAt(history, n + 1, capacity);
  }
}
