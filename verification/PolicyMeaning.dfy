/** Which issues the paper policy validators report, told by the fields of the policy. */
module PolicyMeaning {
  import opened Numbers
  import opened PolicyValidation

  predicate OutOfShare(x: real) {
    x < 0.0 || x > 1.0
  }

  predicate WrongHint(e: BucketPolicy) {
    match e.bucket
    case LongTerm => e.holdingPeriodHint != MultiMonth
    case Swing => e.holdingPeriodHint != MultiWeek
    case ShortTerm => e.holdingPeriodHint != MultiDay
    case Intraday => e.holdingPeriodHint != WithinDay
    case Hedge => e.holdingPeriodHint != HedgePeriod
  }

  /** The weight asked for the hedge: that of its first entry, or zero without one. */
  predicate HedgeAsked(p: Policy, target: real) {
    || (&& target == 0.0 && forall k :: 0 <= k < |p.strategyBuckets| ==> p.strategyBuckets[k].bucket != Hedge)
    || exists k :: && 0 <= k < |p.strategyBuckets| && p.strategyBuckets[k].bucket == Hedge
                   && p.strategyBuckets[k].targetWeightRatio == target
                   && forall j :: 0 <= j < k ==> p.strategyBuckets[j].bucket != Hedge
  }

  /** The faults of one entry, by the code that names them. */
  predicate EntryFault(e: BucketPolicy, code: Code) {
    match code
    case TargetWeightOutOfRange => OutOfShare(e.targetWeightRatio)
    case MinWeightOutOfRange => OutOfShare(e.minWeightRatio)
    case MaxWeightOutOfRange => OutOfShare(e.maxWeightRatio)
    case TurnoverOutOfRange => OutOfShare(e.maxTurnoverRatio)
    case DrawdownOutOfRange => OutOfShare(e.maxDrawdownRatio)
    case MinExceedsMax => e.minWeightRatio > e.maxWeightRatio
    case TargetOutOfRange => e.targetWeightRatio < e.minWeightRatio || e.targetWeightRatio > e.maxWeightRatio
    case HoldingPeriodMismatch => WrongHint(e)
    case _ => false
  }

  predicate NoEntry(p: Policy, b: Bucket) {
    forall k :: 0 <= k < |p.strategyBuckets| ==> p.strategyBuckets[k].bucket != b
  }

  predicate TwoEntries(p: Policy, b: Bucket) {
    exists j, k :: 0 <= j < k < |p.strategyBuckets| && p.strategyBuckets[j].bucket == b == p.strategyBuckets[k].bucket
  }

  predicate BadCap(x: real) {
    x <= 0.0 || x > 1.0
  }

  /** The faults of the rest of the policy, by the code that names them. */
  ghost predicate PolicyFault(p: Policy, code: Code) {
    match code
    case AllocationTotalMismatch => Abs(TotalAllocation(p) - 1.0) > 0.0001
    case BucketMissing(b) => NoEntry(p, b)
    case BucketDuplicated(b) => TwoEntries(p, b)
    case CashTargetOutOfRange => p.targetCashRatio < 0.0 || p.targetCashRatio > 0.8
    case MinimumCashInvalid => p.minimumCashReserveKrw < 0.0 || p.minimumCashReserveKrw != p.minimumCashReserveKrw.Floor as real
    case HedgeTargetMismatch => exists t :: HedgeAsked(p, t) && Abs(p.hedgeTargetRatio - t) > 0.0001
    case HedgeBucketWithoutPolicy => !p.hedgeEnabled && exists t :: HedgeAsked(p, t) && t > 0.0
    case HedgePolicyWithoutBucket => p.hedgeEnabled && exists t :: HedgeAsked(p, t) && t <= 0.0
    case HedgeCostOutOfRange => p.maxCostRatio < 0.0 || p.maxCostRatio > 0.1
    case ExposureCapOutOfRange(path) =>
      || (path == "maxSymbolExposureRatio" && BadCap(p.maxSymbolExposureRatio))
      || (path == "maxCountryExposureRatio" && BadCap(p.maxCountryExposureRatio))
      || (path == "maxCurrencyExposureRatio" && BadCap(p.maxCurrencyExposureRatio))
    case _ => false
  }

  predicate AboutFaultyEntry(entries: seq<BucketPolicy>, i: Issue) {
    i.entry.Some? && i.entry.value < |entries| && EntryFault(entries[i.entry.value], i.code)
  }

  /** The fault an issue names is there, in the entry the issue is about or in the rest of the policy. */
  ghost predicate Faulty(p: Policy, i: Issue) {
    AboutFaultyEntry(p.strategyBuckets, i) || (i.entry.None? && PolicyFault(p, i.code))
  }

  lemma {:induction false} BucketSetReports(items: seq<Issue>, names: seq<Bucket>, required: seq<Bucket>, i: Issue)
    ensures i in AfterBucketSet(items, names, required) <==>
            || i in items
            || (i.code.BucketMissing? && i.entry.None? && i.code.bucket in required && multiset(names)[i.code.bucket] == 0)
            || (i.code.BucketDuplicated? && i.entry.None? && i.code.bucket in required && multiset(names)[i.code.bucket] > 1)
  {
    if |required| > 0 {
      BucketSetReports(items, names, required[..|required| - 1], i);
      assert required == required[..|required| - 1] + [required[|required| - 1]];
    }
  }

  lemma RatiosReport(items: seq<Issue>, e: BucketPolicy, at: Option<nat>, i: Issue)
    ensures i in AfterRatios(items, e, at) <==>
            || i in items
            || (i.entry == at && EntryFault(e, i.code)
                && (i.code.TargetWeightOutOfRange? || i.code.MinWeightOutOfRange? || i.code.MaxWeightOutOfRange?
                    || i.code.TurnoverOutOfRange? || i.code.DrawdownOutOfRange?))
  {
  }

  lemma EntryReports(items: seq<Issue>, e: BucketPolicy, at: Option<nat>, i: Issue)
    ensures i in AfterEntry(items, e, at) <==> i in items || (i.entry == at && EntryFault(e, i.code))
  {
    RatiosReport(items, e, at, i);
  }

  lemma {:induction false} EntriesReport(items: seq<Issue>, entries: seq<BucketPolicy>, i: Issue)
    ensures i in AfterEntries(items, entries) <==>
              i in items || AboutFaultyEntry(entries, i)
  {
    if |entries| > 0 {
      EntriesReport(items, entries[..|entries| - 1], i);
      EntryReports(AfterEntries(items, entries[..|entries| - 1]), entries[|entries| - 1], Some(|entries| - 1), i);
    }
  }

  lemma CashReports(items: seq<Issue>, p: Policy, i: Issue)
    ensures i in AfterCash(items, p) <==>
              || i in items
              || (i.entry.None? && (i.code.CashTargetOutOfRange? || i.code.MinimumCashInvalid?) && PolicyFault(p, i.code))
  {
  }

  predicate AboutHedge(code: Code) {
    code.HedgeTargetMismatch? || code.HedgeBucketWithoutPolicy? || code.HedgePolicyWithoutBucket? || code.HedgeCostOutOfRange?
  }

  lemma HedgeReports(items: seq<Issue>, p: Policy, i: Issue)
    ensures i in AfterHedge(items, p) <==> i in items || (i.entry.None? && AboutHedge(i.code) && PolicyFault(p, i.code))
  {
    HedgeTargetMeaning(p);
    var target := HedgeTarget(p);
    assert HedgeAsked(p, target);
  }

  lemma CapReports(items: seq<Issue>, before: seq<(string, real)>, path: string, cap: real, i: Issue)
    ensures i in AfterExposure(items, before + [(path, cap)]) <==>
              i in AfterExposure(items, before) || (i == Issue(ExposureCapOutOfRange(path), None) && BadCap(cap))
  {
    var caps := before + [(path, cap)];
    assert caps[..|caps| - 1] == before;
  }

  lemma ExposureReports(items: seq<Issue>, p: Policy, i: Issue)
    ensures i in AfterExposure(items, Caps(p)) <==>
              i in items || (i.entry.None? && i.code.ExposureCapOutOfRange? && PolicyFault(p, i.code))
  {
    var symbol, country := "maxSymbolExposureRatio", "maxCountryExposureRatio";
    var one := [] + [(symbol, p.maxSymbolExposureRatio)];
    var two := one + [(country, p.maxCountryExposureRatio)];
    CapReports(items, [], symbol, p.maxSymbolExposureRatio, i);
    CapReports(items, one, country, p.maxCountryExposureRatio, i);
    CapReports(items, two, "maxCurrencyExposureRatio", p.maxCurrencyExposureRatio, i);
    assert Caps(p) == two + [("maxCurrencyExposureRatio", p.maxCurrencyExposureRatio)];
  }

  lemma {:induction false} FirstHedge(entries: seq<BucketPolicy>)
    ensures EntryOf(entries, Hedge).Some? ==>
              exists k :: && 0 <= k < |entries| && entries[k].bucket == Hedge && entries[k] == EntryOf(entries, Hedge).value
                          && forall j :: 0 <= j < k ==> entries[j].bucket != Hedge
  {
    if |entries| > 0 {
      var before := entries[..|entries| - 1];
      FirstHedge(before);
      assert forall j :: 0 <= j < |before| ==> before[j] == entries[j];
      if EntryOf(before, Hedge).Some? {
        var k :| && 0 <= k < |before| && before[k].bucket == Hedge && before[k] == EntryOf(before, Hedge).value
                 && forall j :: 0 <= j < k ==> before[j].bucket != Hedge;
        assert entries[k] == before[k];
      } else if EntryOf(entries, Hedge).Some? {
        assert entries[|before|].bucket == Hedge;
      }
    }
  }

  /** There is exactly one weight asked for the hedge. */
  lemma HedgeTargetMeaning(p: Policy)
    ensures forall t :: HedgeAsked(p, t) <==> t == HedgeTarget(p)
  {
    FirstHedge(p.strategyBuckets);
  }

  lemma {:induction false} CountTwice(names: seq<Bucket>, b: Bucket)
    ensures multiset(names)[b] > 1 <==> exists j, k :: 0 <= j < k < |names| && names[j] == b == names[k]
    ensures multiset(names)[b] > 0 <==> exists k :: 0 <= k < |names| && names[k] == b
  {
    if |names| > 0 {
      var front, last := names[..|names| - 1], names[|names| - 1];
      CountTwice(front, b);
      assert names == front + [last];
      assert forall j :: 0 <= j < |front| ==> front[j] == names[j];
      if j, k :| 0 <= j < k < |front| && front[j] == b == front[k] {
        assert names[j] == b == names[k];
      }
      if j :| 0 <= j < |front| && front[j] == b {
        assert names[j] == b;
      }
    }
  }

  lemma NamesMeaning(p: Policy, b: Bucket)
    ensures multiset(Names(p.strategyBuckets))[b] == 0 <==> NoEntry(p, b)
    ensures multiset(Names(p.strategyBuckets))[b] > 1 <==> TwoEntries(p, b)
  {
    var names := Names(p.strategyBuckets);
    CountTwice(names, b);
    assert forall k :: 0 <= k < |names| ==> names[k] == p.strategyBuckets[k].bucket;
  }

  lemma SetReports(items: seq<Issue>, p: Policy, i: Issue)
    ensures i in AfterBucketSet(items, Names(p.strategyBuckets), REQUIRED_BUCKETS) <==>
              || i in items
              || (i.entry.None? && (i.code.BucketMissing? || i.code.BucketDuplicated?) && PolicyFault(p, i.code))
  {
    BucketSetReports(items, Names(p.strategyBuckets), REQUIRED_BUCKETS, i);
    if i.code.BucketMissing? || i.code.BucketDuplicated? {
      NamesMeaning(p, i.code.bucket);
      EveryBucketListed(i.code.bucket);
    }
  }

  lemma TotalReports(p: Policy, i: Issue)
    ensures i in Pushed([], Abs(TotalAllocation(p) - 1.0) > TOLERANCE, Issue(AllocationTotalMismatch, None)) <==>
              i.entry.None? && i.code.AllocationTotalMismatch? && PolicyFault(p, i.code)
  {
  }

  /** An issue is reported exactly when the fault it names is there. */
  lemma ReportedExactlyWhenFaulty(p: Policy, i: Issue)
    ensures i in PolicyIssues(p) <==> Faulty(p, i)
  {
    var total := Pushed([], Abs(TotalAllocation(p) - 1.0) > TOLERANCE, Issue(AllocationTotalMismatch, None));
    var sets := AfterBucketSet(total, Names(p.strategyBuckets), REQUIRED_BUCKETS);
    var entries := AfterEntries(sets, p.strategyBuckets);
    TotalReports(p, i);
    SetReports(total, p, i);
    EntriesReport(sets, p.strategyBuckets, i);
    CashReports(entries, p, i);
    HedgeReports(AfterCash(entries, p), p, i);
    ExposureReports(AfterHedge(AfterCash(entries, p), p), p, i);
  }
}
