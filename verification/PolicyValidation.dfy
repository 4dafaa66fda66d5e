/** The paper policy validators, which push into one shared list of issues, and the validity they decide. */
module PolicyValidation {
  import opened Numbers

  const TOLERANCE := 0.0001

  datatype Bucket = LongTerm | Swing | ShortTerm | Intraday | Hedge

  const REQUIRED_BUCKETS: seq<Bucket> := [LongTerm, Swing, ShortTerm, Intraday, Hedge]

  datatype HoldingPeriod = MultiMonth | MultiWeek | MultiDay | WithinDay | HedgePeriod

  datatype BucketPolicy = BucketPolicy(bucket: Bucket, targetWeightRatio: real, minWeightRatio: real, maxWeightRatio: real,
                                       maxTurnoverRatio: real, maxDrawdownRatio: real, holdingPeriodHint: HoldingPeriod)

  datatype Policy = Policy(strategyBuckets: seq<BucketPolicy>, targetCashRatio: real, minimumCashReserveKrw: real,
                           hedgeEnabled: bool, hedgeTargetRatio: real, maxCostRatio: real,
                           maxSymbolExposureRatio: real, maxCountryExposureRatio: real, maxCurrencyExposureRatio: real)

  datatype Code =
    | AllocationTotalMismatch
    | BucketMissing(bucket: Bucket) | BucketDuplicated(bucket: Bucket)
    | TargetWeightOutOfRange | MinWeightOutOfRange | MaxWeightOutOfRange | TurnoverOutOfRange | DrawdownOutOfRange
    | MinExceedsMax | TargetOutOfRange | HoldingPeriodMismatch
    | CashTargetOutOfRange | MinimumCashInvalid
    | HedgeTargetMismatch | HedgeBucketWithoutPolicy | HedgePolicyWithoutBucket | HedgeCostOutOfRange
    | ExposureCapOutOfRange(path: string)

  /** entry is the position of the bucket entry an issue is about, `None` for the rest of the policy. */
  datatype Issue = Issue(code: Code, entry: Option<nat>)

  class IssueList<T> {
    var items: seq<T>

    constructor ()
      ensures items == []
    {
      items := [];
    }
  }

  function HoldingPeriodHintFor(bucket: Bucket): HoldingPeriod {
    match bucket
    case LongTerm => MultiMonth
    case Swing => MultiWeek
    case ShortTerm => MultiDay
    case Intraday => WithinDay
    case Hedge => HedgePeriod
  }

  function Names(entries: seq<BucketPolicy>): (names: seq<Bucket>)
    ensures |names| == |entries|
  {
    seq(|entries|, i requires 0 <= i < |entries| => entries[i].bucket)
  }

  function Targets(entries: seq<BucketPolicy>): (targets: seq<real>)
    ensures |targets| == |entries|
  {
    seq(|entries|, i requires 0 <= i < |entries| => entries[i].targetWeightRatio)
  }

  function TotalAllocation(p: Policy): real {
    RoundMillionth(RoundMillionth(Sum(Targets(p.strategyBuckets))) + p.targetCashRatio)
  }

  /** The first entry of a bucket, as `find` returns it. */
  function EntryOf(entries: seq<BucketPolicy>, bucket: Bucket): (entry: Option<BucketPolicy>)
    ensures entry.Some? ==> entry.value in entries && entry.value.bucket == bucket
    ensures entry.None? ==> forall i :: 0 <= i < |entries| ==> entries[i].bucket != bucket
  {
    if |entries| == 0 then None
    else
      var earlier := EntryOf(entries[..|entries| - 1], bucket);
      var last := entries[|entries| - 1];
      if earlier.Some? then earlier else if last.bucket == bucket then Some(last) else None
  }

  function HedgeTarget(p: Policy): real {
    var entry := EntryOf(p.strategyBuckets, Hedge);
    if entry.Some? then entry.value.targetWeightRatio else 0.0
  }

  // ----- What validity means -----------------------------------------------------------------------------

  predicate Share(x: real) {
    0.0 <= x <= 1.0
  }

  predicate SoundEntry(e: BucketPolicy) {
    && Share(e.minWeightRatio) && Share(e.maxWeightRatio)
    && e.minWeightRatio <= e.targetWeightRatio <= e.maxWeightRatio
    && Share(e.maxTurnoverRatio) && Share(e.maxDrawdownRatio)
    && e.holdingPeriodHint == HoldingPeriodHintFor(e.bucket)
  }

  ghost predicate OneOfEach(entries: seq<BucketPolicy>) {
    forall b: Bucket :: multiset(Names(entries))[b] == 1
  }

  predicate NonNegativeInteger(x: real) {
    x >= 0.0 && x == x.Floor as real
  }

  predicate SoundHedge(p: Policy) {
    && 0.0 <= p.maxCostRatio <= 0.1
    && forall i :: 0 <= i < |p.strategyBuckets| && p.strategyBuckets[i].bucket == Hedge ==>
         && Abs(p.hedgeTargetRatio - p.strategyBuckets[i].targetWeightRatio) <= TOLERANCE
         && (p.hedgeEnabled <==> p.strategyBuckets[i].targetWeightRatio > 0.0)
  }

  predicate Cap(x: real) {
    0.0 < x <= 1.0
  }

  ghost predicate Sound(p: Policy) {
    && Abs(TotalAllocation(p) - 1.0) <= TOLERANCE
    && OneOfEach(p.strategyBuckets)
    && (forall i :: 0 <= i < |p.strategyBuckets| ==> SoundEntry(p.strategyBuckets[i]))
    && 0.0 <= p.targetCashRatio <= 0.8
    && NonNegativeInteger(p.minimumCashReserveKrw)
    && SoundHedge(p)
    && Cap(p.maxSymbolExposureRatio) && Cap(p.maxCountryExposureRatio) && Cap(p.maxCurrencyExposureRatio)
  }

  // ----- The list after each validator, in the order the issues are pushed -----------------------------------

  function Pushed(items: seq<Issue>, condition: bool, issue: Issue): seq<Issue> {
    if condition then items + [issue] else items
  }

  function AfterBucketSet(items: seq<Issue>, names: seq<Bucket>, required: seq<Bucket>): seq<Issue> {
    if |required| == 0 then items
    else
      var last := required[|required| - 1];
      Pushed(Pushed(AfterBucketSet(items, names, required[..|required| - 1]),
                    multiset(names)[last] == 0, Issue(BucketMissing(last), None)),
             multiset(names)[last] > 1, Issue(BucketDuplicated(last), None))
  }

  function AfterRatios(items: seq<Issue>, e: BucketPolicy, at: Option<nat>): seq<Issue> {
    var target := Pushed(items, !Share(e.targetWeightRatio), Issue(TargetWeightOutOfRange, at));
    var min := Pushed(target, !Share(e.minWeightRatio), Issue(MinWeightOutOfRange, at));
    var max := Pushed(min, !Share(e.maxWeightRatio), Issue(MaxWeightOutOfRange, at));
    var turnover := Pushed(max, !Share(e.maxTurnoverRatio), Issue(TurnoverOutOfRange, at));
    Pushed(turnover, !Share(e.maxDrawdownRatio), Issue(DrawdownOutOfRange, at))
  }

  function AfterEntry(items: seq<Issue>, e: BucketPolicy, at: Option<nat>): seq<Issue> {
    var order := Pushed(AfterRatios(items, e, at), e.minWeightRatio > e.maxWeightRatio, Issue(MinExceedsMax, at));
    var target := Pushed(order, e.targetWeightRatio < e.minWeightRatio || e.targetWeightRatio > e.maxWeightRatio,
                         Issue(TargetOutOfRange, at));
    Pushed(target, e.holdingPeriodHint != HoldingPeriodHintFor(e.bucket), Issue(HoldingPeriodMismatch, at))
  }

  function AfterEntries(items: seq<Issue>, entries: seq<BucketPolicy>): seq<Issue> {
    if |entries| == 0 then items
    else AfterEntry(AfterEntries(items, entries[..|entries| - 1]), entries[|entries| - 1], Some(|entries| - 1))
  }

  function AfterCash(items: seq<Issue>, p: Policy): seq<Issue> {
    var target := Pushed(items, p.targetCashRatio < 0.0 || p.targetCashRatio > 0.8, Issue(CashTargetOutOfRange, None));
    Pushed(target, p.minimumCashReserveKrw != p.minimumCashReserveKrw.Floor as real || p.minimumCashReserveKrw < 0.0,
           Issue(MinimumCashInvalid, None))
  }

  function AfterHedge(items: seq<Issue>, p: Policy): seq<Issue> {
    var target := HedgeTarget(p);
    var mismatch := Pushed(items, Abs(p.hedgeTargetRatio - target) > TOLERANCE, Issue(HedgeTargetMismatch, None));
    var bucket := Pushed(mismatch, !p.hedgeEnabled && target > 0.0, Issue(HedgeBucketWithoutPolicy, None));
    var policy := Pushed(bucket, p.hedgeEnabled && target <= 0.0, Issue(HedgePolicyWithoutBucket, None));
    Pushed(policy, p.maxCostRatio < 0.0 || p.maxCostRatio > 0.1, Issue(HedgeCostOutOfRange, None))
  }

  function AfterExposure(items: seq<Issue>, caps: seq<(string, real)>): seq<Issue> {
    if |caps| == 0 then items
    else
      var (path, cap) := caps[|caps| - 1];
      Pushed(AfterExposure(items, caps[..|caps| - 1]), !Cap(cap), Issue(ExposureCapOutOfRange(path), None))
  }

  function Caps(p: Policy): seq<(string, real)> {
    [("maxSymbolExposureRatio", p.maxSymbolExposureRatio),
     ("maxCountryExposureRatio", p.maxCountryExposureRatio),
     ("maxCurrencyExposureRatio", p.maxCurrencyExposureRatio)]
  }

  function PolicyIssues(p: Policy): seq<Issue> {
    var total := Pushed([], Abs(TotalAllocation(p) - 1.0) > TOLERANCE, Issue(AllocationTotalMismatch, None));
    var sets := AfterBucketSet(total, Names(p.strategyBuckets), REQUIRED_BUCKETS);
    var entries := AfterEntries(sets, p.strategyBuckets);
    AfterExposure(AfterHedge(AfterCash(entries, p), p), Caps(p))
  }

  // ----- The validators ------------------------------------------------------------------------------------

  method PushWhen(condition: bool, issue: Issue, issues: IssueList<Issue>)
    modifies issues
    ensures issues.items == Pushed(old(issues.items), condition, issue)
  {
    if condition {
      issues.items := issues.items + [issue];
    }
  }

  method CountBuckets(names: seq<Bucket>) returns (counts: map<Bucket, nat>)
    ensures forall b: Bucket :: (if b in counts then counts[b] else 0) == multiset(names)[b]
  {
    counts := map[];
    for i := 0 to |names|
      invariant forall b: Bucket :: (if b in counts then counts[b] else 0) == multiset(names[..i])[b]
    {
      assert names[..i + 1] == names[..i] + [names[i]];
      counts := counts[names[i] := (if names[i] in counts then counts[names[i]] else 0) + 1];
    }
    assert names[..|names|] == names;
  }

  method ValidateBucketSet(p: Policy, issues: IssueList<Issue>)
    modifies issues
    ensures issues.items == AfterBucketSet(old(issues.items), Names(p.strategyBuckets), REQUIRED_BUCKETS)
  {
    var names := Names(p.strategyBuckets);
    var counts := CountBuckets(names);
    var required := REQUIRED_BUCKETS;
    for i := 0 to |required|
      invariant issues.items == AfterBucketSet(old(issues.items), names, required[..i])
    {
      var bucket := required[i];
      assert required[..i + 1][..i] == required[..i];
      var count := if bucket in counts then counts[bucket] else 0;
      PushWhen(count == 0, Issue(BucketMissing(bucket), None), issues);
      PushWhen(count > 1, Issue(BucketDuplicated(bucket), None), issues);
    }
    assert required[..|required|] == required;
  }

  method ValidateBuckets(p: Policy, issues: IssueList<Issue>)
    modifies issues
    ensures issues.items == AfterEntries(old(issues.items), p.strategyBuckets)
  {
    var entries := p.strategyBuckets;
    for i := 0 to |entries|
      invariant issues.items == AfterEntries(old(issues.items), entries[..i])
    {
      assert entries[..i + 1][..i] == entries[..i];
      ValidateEntry(entries[i], i, issues);
    }
    assert entries[..|entries|] == entries;
  }

  method ValidateEntry(e: BucketPolicy, i: nat, issues: IssueList<Issue>)
    modifies issues
    ensures issues.items == AfterEntry(old(issues.items), e, Some(i))
  {
    var at := Some(i);
    ValidateRatioRange(e.targetWeightRatio, Issue(TargetWeightOutOfRange, at), issues);
    ValidateRatioRange(e.minWeightRatio, Issue(MinWeightOutOfRange, at), issues);
    ValidateRatioRange(e.maxWeightRatio, Issue(MaxWeightOutOfRange, at), issues);
    ValidateRatioRange(e.maxTurnoverRatio, Issue(TurnoverOutOfRange, at), issues);
    ValidateRatioRange(e.maxDrawdownRatio, Issue(DrawdownOutOfRange, at), issues);
    PushWhen(e.minWeightRatio > e.maxWeightRatio, Issue(MinExceedsMax, at), issues);
    PushWhen(e.targetWeightRatio < e.minWeightRatio || e.targetWeightRatio > e.maxWeightRatio, Issue(TargetOutOfRange, at), issues);
    PushWhen(e.holdingPeriodHint != HoldingPeriodHintFor(e.bucket), Issue(HoldingPeriodMismatch, at), issues);
  }

  method ValidateRatioRange(value: real, issue: Issue, issues: IssueList<Issue>)
    modifies issues
    ensures issues.items == Pushed(old(issues.items), !Share(value), issue)
  {
    if value < 0.0 || value > 1.0 {
      issues.items := issues.items + [issue];
    }
  }

  method ValidateCashPolicy(p: Policy, issues: IssueList<Issue>)
    modifies issues
    ensures issues.items == AfterCash(old(issues.items), p)
  {
    PushWhen(p.targetCashRatio < 0.0 || p.targetCashRatio > 0.8, Issue(CashTargetOutOfRange, None), issues);
    PushWhen(p.minimumCashReserveKrw != p.minimumCashReserveKrw.Floor as real || p.minimumCashReserveKrw < 0.0,
             Issue(MinimumCashInvalid, None), issues);
  }

  method ValidateHedgePolicy(p: Policy, issues: IssueList<Issue>)
    modifies issues
    ensures issues.items == AfterHedge(old(issues.items), p)
  {
    var target := HedgeTarget(p);
    PushWhen(Abs(p.hedgeTargetRatio - target) > TOLERANCE, Issue(HedgeTargetMismatch, None), issues);
    PushWhen(!p.hedgeEnabled && target > 0.0, Issue(HedgeBucketWithoutPolicy, None), issues);
    PushWhen(p.hedgeEnabled && target <= 0.0, Issue(HedgePolicyWithoutBucket, None), issues);
    PushWhen(p.maxCostRatio < 0.0 || p.maxCostRatio > 0.1, Issue(HedgeCostOutOfRange, None), issues);
  }

  method ValidateExposurePolicy(p: Policy, issues: IssueList<Issue>)
    modifies issues
    ensures issues.items == AfterExposure(old(issues.items), Caps(p))
  {
    var caps := Caps(p);
    for i := 0 to |caps|
      invariant issues.items == AfterExposure(old(issues.items), caps[..i])
    {
      assert caps[..i + 1][..i] == caps[..i];
      var (path, cap) := caps[i];
      PushWhen(cap <= 0.0 || cap > 1.0, Issue(ExposureCapOutOfRange(path), None), issues);
    }
    assert caps[..|caps|] == caps;
  }

  /** `validatePaperPolicyCandidate` after parsing: it reports nothing exactly for sound policies. */
  method ValidatePaperPolicyCandidate(p: Policy) returns (issues: seq<Issue>)
    ensures issues == PolicyIssues(p)
    ensures issues == [] <==> Sound(p)
  {
    var list := new IssueList<Issue>();
    PushWhen(Abs(TotalAllocation(p) - 1.0) > TOLERANCE, Issue(AllocationTotalMismatch, None), list);
    ValidateBucketSet(p, list);
    ValidateBuckets(p, list);
    ValidateCashPolicy(p, list);
    ValidateHedgePolicy(p, list);
    ValidateExposurePolicy(p, list);
    NoIssuesExactlyWhenSound(p);
    return list.items;
  }

  // ----- No issue is reported exactly for sound policies ------------------------------------------------------

  lemma {:induction false} AfterBucketSetMeaning(items: seq<Issue>, names: seq<Bucket>, required: seq<Bucket>)
    ensures AfterBucketSet(items, names, required) == [] <==>
              items == [] && forall b :: b in required ==> multiset(names)[b] == 1
  {
    if |required| > 0 {
      AfterBucketSetMeaning(items, names, required[..|required| - 1]);
    }
  }

  lemma EachBucketIsRequired(items: seq<Issue>, names: seq<Bucket>)
    ensures AfterBucketSet(items, names, REQUIRED_BUCKETS) == [] <==>
              items == [] && forall b: Bucket :: multiset(names)[b] == 1
  {
    AfterBucketSetMeaning(items, names, REQUIRED_BUCKETS);
    forall b: Bucket
      ensures b in REQUIRED_BUCKETS
    {
      EveryBucketListed(b);
    }
  }

  lemma EveryBucketListed(b: Bucket)
    ensures b in REQUIRED_BUCKETS
  {
  }

  lemma {:induction false} AfterEntriesMeaning(items: seq<Issue>, entries: seq<BucketPolicy>)
    ensures AfterEntries(items, entries) == [] <==>
              items == [] && forall i :: 0 <= i < |entries| ==> SoundEntry(entries[i])
  {
    if |entries| > 0 {
      var earlier := AfterEntries(items, entries[..|entries| - 1]);
      AfterEntriesMeaning(items, entries[..|entries| - 1]);
      AfterEntryMeaning(earlier, entries[|entries| - 1], Some(|entries| - 1));
    }
  }

  lemma AfterEntryMeaning(items: seq<Issue>, e: BucketPolicy, at: Option<nat>)
    ensures AfterEntry(items, e, at) == [] <==> items == [] && SoundEntry(e)
  {
  }

  lemma AfterCashMeaning(items: seq<Issue>, p: Policy)
    ensures AfterCash(items, p) == [] <==>
              items == [] && 0.0 <= p.targetCashRatio <= 0.8 && NonNegativeInteger(p.minimumCashReserveKrw)
  {
  }

  lemma AfterHedgeMeaning(items: seq<Issue>, p: Policy)
    requires OneOfEach(p.strategyBuckets)
    ensures AfterHedge(items, p) == [] <==> items == [] && SoundHedge(p)
  {
    var entries := p.strategyBuckets;
    forall i | 0 <= i < |entries| && entries[i].bucket == Hedge
      ensures entries[i].targetWeightRatio == HedgeTarget(p)
    {
      OnlyEntry(entries, i);
    }
    var i := PositionOf(entries, Hedge);
    assert HedgeTarget(p) == entries[i].targetWeightRatio;
  }

  lemma PositionOf(entries: seq<BucketPolicy>, b: Bucket) returns (i: nat)
    requires OneOfEach(entries)
    ensures i < |entries| && entries[i].bucket == b
  {
    assert b in multiset(Names(entries));
    assert b in Names(entries);
    i :| 0 <= i < |entries| && Names(entries)[i] == b;
  }

  lemma Twice(names: seq<Bucket>, i: nat, j: nat)
    requires i < j < |names| && names[i] == names[j]
    ensures multiset(names)[names[i]] >= 2
  {
    assert names == names[..i] + [names[i]] + names[i + 1..j] + [names[i]] + names[j + 1..];
  }

  /** With one entry per bucket, an entry is the one `find` returns. */
  lemma OnlyEntry(entries: seq<BucketPolicy>, i: nat)
    requires OneOfEach(entries) && i < |entries|
    ensures EntryOf(entries, entries[i].bucket) == Some(entries[i])
  {
    var found := EntryOf(entries, entries[i].bucket);
    var names := Names(entries);
    forall j | 0 <= j < |entries| && entries[j].bucket == entries[i].bucket
      ensures j == i
    {
      OnePosition(entries, i, j);
    }
  }

  lemma OnePosition(entries: seq<BucketPolicy>, i: nat, j: nat)
    requires OneOfEach(entries) && i < |entries| && j < |entries| && entries[i].bucket == entries[j].bucket
    ensures i == j
  {
    if i < j {
      Twice(Names(entries), i, j);
    } else if j < i {
      Twice(Names(entries), j, i);
    }
  }

  lemma AfterExposureMeaning(items: seq<Issue>, p: Policy)
    ensures AfterExposure(items, Caps(p)) == [] <==>
              && items == [] && Cap(p.maxSymbolExposureRatio) && Cap(p.maxCountryExposureRatio)
              && Cap(p.maxCurrencyExposureRatio)
  {
    var caps := Caps(p);
    assert caps[..2][..1] == caps[..1];
    var one := Pushed(items, !Cap(p.maxSymbolExposureRatio), Issue(ExposureCapOutOfRange(caps[0].0), None));
    assert AfterExposure(items, caps[..1]) == one;
    assert AfterExposure(items, caps[..2]) == Pushed(one, !Cap(p.maxCountryExposureRatio), Issue(ExposureCapOutOfRange(caps[1].0), None));
  }

  lemma NoIssuesExactlyWhenSound(p: Policy)
    ensures PolicyIssues(p) == [] <==> Sound(p)
  {
    var total := Pushed([], Abs(TotalAllocation(p) - 1.0) > TOLERANCE, Issue(AllocationTotalMismatch, None));
    var sets := AfterBucketSet(total, Names(p.strategyBuckets), REQUIRED_BUCKETS);
    var entries := AfterEntries(sets, p.strategyBuckets);
    var cash := AfterCash(entries, p);
    EachBucketIsRequired(total, Names(p.strategyBuckets));
    AfterEntriesMeaning(sets, p.strategyBuckets);
    AfterCashMeaning(entries, p);
    if OneOfEach(p.strategyBuckets) {
      AfterHedgeMeaning(cash, p);
    } else {
      HedgeOnlyPushes(cash, p);
    }
    AfterExposureMeaning(AfterHedge(cash, p), p);
  }

  lemma HedgeOnlyPushes(items: seq<Issue>, p: Policy)
    ensures AfterHedge(items, p) == [] ==> items == []
  {
  }

  // ----- What a sound policy looks like -------------------------------------------------------------------------

  /** The entries of a sound policy are the five buckets in some order. */
  lemma SoundIsPermutation(p: Policy)
    requires OneOfEach(p.strategyBuckets)
    ensures |p.strategyBuckets| == 5
    ensures multiset(Names(p.strategyBuckets)) == multiset(REQUIRED_BUCKETS)
  {
    var names := Names(p.strategyBuckets);
    assert multiset(REQUIRED_BUCKETS) == multiset{LongTerm, Swing, ShortTerm, Intraday, Hedge};
    forall b: Bucket
      ensures multiset(names)[b] == multiset(REQUIRED_BUCKETS)[b]
    {
      match b {
        case LongTerm => assert multiset(REQUIRED_BUCKETS)[LongTerm] == 1;
        case Swing => assert multiset(REQUIRED_BUCKETS)[Swing] == 1;
        case ShortTerm => assert multiset(REQUIRED_BUCKETS)[ShortTerm] == 1;
        case Intraday => assert multiset(REQUIRED_BUCKETS)[Intraday] == 1;
        case Hedge => assert multiset(REQUIRED_BUCKETS)[Hedge] == 1;
      }
    }
    assert multiset(names) == multiset(REQUIRED_BUCKETS);
    assert |names| == |multiset(names)| == |multiset(REQUIRED_BUCKETS)|;
  }

  /** The unrounded weights of targets and cash; the two roundings move the total by at most a millionth. */
  function ExactTotal(p: Policy): real {
    Sum(Targets(p.strategyBuckets)) + p.targetCashRatio
  }

  lemma AllocationMargin(p: Policy)
    ensures Abs(TotalAllocation(p) - ExactTotal(p)) <= 0.000001
    ensures Abs(TotalAllocation(p) - 1.0) <= TOLERANCE ==> Abs(ExactTotal(p) - 1.0) <= TOLERANCE + 0.000001
    ensures Abs(ExactTotal(p) - 1.0) <= TOLERANCE - 0.000001 ==> Abs(TotalAllocation(p) - 1.0) <= TOLERANCE
  {
  }

  lemma {:induction false} NonPositiveSum(xs: seq<real>)
    requires forall i :: 0 <= i < |xs| ==> xs[i] <= 0.0
    ensures Sum(xs) <= 0.0
  {
    if |xs| > 0 {
      NonPositiveSum(xs[..|xs| - 1]);
    }
  }

  /** A sound policy enables some bucket: cash alone can never make up the whole. */
  lemma SoundEnablesSome(p: Policy) returns (i: nat)
    requires Sound(p)
    ensures i < |p.strategyBuckets| && p.strategyBuckets[i].targetWeightRatio > 0.0
  {
    AllocationMargin(p);
    var targets := Targets(p.strategyBuckets);
    if forall i :: 0 <= i < |targets| ==> targets[i] <= 0.0 {
      NonPositiveSum(targets);
      assert false;
    }
    i :| 0 <= i < |targets| && targets[i] > 0.0;
  }
}
