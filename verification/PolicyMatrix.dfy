/** One strategy bucket test per enabled bucket of a policy: identities, bounds, and when the whole matrix is queued. */
module PolicyMatrix {
  import opened Numbers
  import opened PolicyValidation
  import opened Sequences
  import opened Texts

  const MAX_LENGTH := 120
  const HASH_LENGTH := 12
  const MATRIX_ID_LENGTH := 80
  const REQUEST_PART_LENGTH := 48
  const DEFAULT_MATRIX_ID := "strategy-bucket-matrix"

  /** configOk is the outcome of the checks that look at neither the bucket, the seed nor the request id. */
  datatype TestCandidate = TestCandidate(requestId: Option<string>, bucket: Bucket, seed: string, policy: Policy, configOk: bool)

  /** candidate is what the configuration hash of the record is computed from. */
  datatype Record = Record(testId: string, requestId: Option<string>, bucket: Bucket, candidate: TestCandidate)

  datatype Refusal = InvalidRequest | InvalidCandidate | InvalidPolicyCandidate | EmptyMatrix | InvalidConfig(issues: seq<TestIssue>)

  datatype Result<T> = Ok(value: T) | Err(refusal: Refusal)

  datatype TestIssue = PolicyInvalid | ConfigInvalid | BucketPolicyMissing | BucketDisabled | HedgePolicyRequired

  function BucketText(bucket: Bucket): string {
    match bucket
    case LongTerm => "long_term"
    case Swing => "swing"
    case ShortTerm => "short_term"
    case Intraday => "intraday"
    case Hedge => "hedge"
  }

  function Slice(s: string, n: nat): string {
    if |s| <= n then s else s[..n]
  }

  // ----- safeArtifactPathPart ------------------------------------------------------------------------------

  predicate Digit(c: char) {
    '0' <= c <= '9'
  }

  predicate Safe(c: char) {
    'A' <= c <= 'Z' || 'a' <= c <= 'z' || Digit(c) || c == '_' || c == '-'
  }

  predicate Underscore(c: char) {
    c == '_'
  }

  /** Every run of unsafe characters becomes one underscore. */
  function Collapse(s: string): (r: string)
    ensures forall i :: 0 <= i < |r| ==> Safe(r[i])
    ensures (forall i :: 0 <= i < |s| ==> Safe(s[i])) ==> r == s
  {
    if |s| == 0 then ""
    else
      var before, c := Collapse(s[..|s| - 1]), s[|s| - 1];
      if Safe(c) then before + [c]
      else if |s| > 1 && !Safe(s[|s| - 2]) then before
      else before + "_"
  }

  function SafeArtifactPathPart(value: string, fallback: string): string {
    var trimmed := Trim(value);
    var sanitized := TrimEnd(TrimStart(Collapse(trimmed), Underscore), Underscore);
    if |sanitized| == 0 then fallback else sanitized
  }

  /** A sanitized part is never empty and holds safe characters only. */
  lemma SanitizedIsSafe(value: string, fallback: string)
    requires |fallback| > 0 && forall i :: 0 <= i < |fallback| ==> Safe(fallback[i])
    ensures var r := SafeArtifactPathPart(value, fallback); |r| > 0 && forall i :: 0 <= i < |r| ==> Safe(r[i])
  {
    var trimmed := Trim(value);
    TrimStartIsSuffix(Collapse(trimmed), Underscore);
    TrimEndIsPrefix(TrimStart(Collapse(trimmed), Underscore), Underscore, 0);
  }

  /** Sanitizing a safe text that starts with other than an underscore only cuts off trailing underscores. */
  lemma SanitizedKeeps(value: string, fallback: string, keep: nat)
    requires 0 < keep <= |value| && value[0] != '_' && value[keep - 1] != '_'
    requires forall i :: 0 <= i < |value| ==> Safe(value[i])
    ensures var r := SafeArtifactPathPart(value, fallback); keep <= |r| <= |value| && r == value[..|r|]
  {
    assert Trim(value) == value;
    TrimEndIsPrefix(value, Underscore, keep);
  }

  // ----- Identities of the matrix candidates -----------------------------------------------------------------

  function MatrixSuffix(digest: string, bucket: Bucket): string {
    "-" + Slice(digest, HASH_LENGTH) + "-" + BucketText(bucket)
  }

  function Room(suffix: string): nat {
    if MAX_LENGTH > |suffix| then MAX_LENGTH - |suffix| else 0
  }

  /** digest is the hexadecimal digest of the seed base and the bucket. */
  function MatrixBucketSeedFor(seedBase: string, bucket: Bucket, digest: string): string {
    var suffix := MatrixSuffix(digest, bucket);
    Slice(seedBase, Room(suffix)) + suffix
  }

  function MatrixRequestId(matrixId: string, bucket: Bucket): string {
    matrixId + "-" + BucketText(bucket)
  }

  function MatrixIdFor(matrixId: Option<string>): string {
    Slice(SafeArtifactPathPart(if matrixId.Some? then matrixId.value else DEFAULT_MATRIX_ID, "strategy_bucket_matrix"),
          MATRIX_ID_LENGTH)
  }

  function Digits(s: string): (r: string)
    ensures forall i :: 0 <= i < |r| ==> Digit(r[i])
  {
    if |s| == 0 then "" else Digits(s[..|s| - 1]) + if Digit(s[|s| - 1]) then [s[|s| - 1]] else ""
  }

  function TestIdText(createdAt: string, bucket: Bucket, requestPart: string): string {
    "strategy_bucket_test_" + Slice(Digits(createdAt), 17) + "_" + BucketText(bucket) + "_" + requestPart
  }

  function RequestPart(c: TestCandidate): string {
    Slice(SafeArtifactPathPart(if c.requestId.Some? then c.requestId.value else c.seed, "request"), REQUEST_PART_LENGTH)
  }

  function TestIdFor(c: TestCandidate, createdAt: string): string {
    SafeArtifactPathPart(TestIdText(createdAt, c.bucket, RequestPart(c)), "strategy_bucket_test")
  }

  function CandidateFor(c: TestCandidate, matrixId: string, bucket: Bucket, digest: (string, Bucket) -> string): TestCandidate {
    c.(requestId := Some(MatrixRequestId(matrixId, bucket)),
       bucket := bucket,
       seed := MatrixBucketSeedFor(c.seed, bucket, digest(c.seed, bucket)))
  }

  lemma BucketTextFacts(bucket: Bucket)
    ensures 5 <= |BucketText(bucket)| <= 10 && '-' !in BucketText(bucket)
    ensures forall i :: 0 <= i < |BucketText(bucket)| ==> Safe(BucketText(bucket)[i])
    ensures BucketText(bucket)[|BucketText(bucket)| - 1] != '_'
  {
  }

  lemma BucketTextInjective(a: Bucket, b: Bucket)
    requires BucketText(a)[..2] == BucketText(b)[..2]
    ensures a == b
  {
    assert BucketText(a)[..2][0] == BucketText(a)[0] && BucketText(a)[..2][1] == BucketText(a)[1];
    assert BucketText(b)[..2][0] == BucketText(b)[0] && BucketText(b)[..2][1] == BucketText(b)[1];
  }

  /** Different buckets of one matrix get different request ids and, whatever the hash gives, different seeds. */
  lemma IdentitiesDiffer(matrixId: string, seedBase: string, a: Bucket, b: Bucket, digestA: string, digestB: string)
    requires a != b
    ensures MatrixRequestId(matrixId, a) != MatrixRequestId(matrixId, b)
    ensures MatrixBucketSeedFor(seedBase, a, digestA) != MatrixBucketSeedFor(seedBase, b, digestB)
  {
    BucketTextFacts(a);
    BucketTextFacts(b);
    if MatrixRequestId(matrixId, a) == MatrixRequestId(matrixId, b) {
      LastSeparatorDecides(matrixId, BucketText(a), matrixId, BucketText(b), '-');
      BucketTextInjective(a, b);
    }
    if MatrixBucketSeedFor(seedBase, a, digestA) == MatrixBucketSeedFor(seedBase, b, digestB) {
      var headA := SeedHead(seedBase, a, digestA);
      var headB := SeedHead(seedBase, b, digestB);
      LastSeparatorDecides(headA, BucketText(a), headB, BucketText(b), '-');
      BucketTextInjective(a, b);
    }
  }

  lemma SeedHead(seedBase: string, bucket: Bucket, digest: string) returns (head: string)
    ensures MatrixBucketSeedFor(seedBase, bucket, digest) == head + "-" + BucketText(bucket)
  {
    var suffix := MatrixSuffix(digest, bucket);
    var kept := Slice(seedBase, Room(suffix));
    head := kept + "-" + Slice(digest, HASH_LENGTH);
    assert kept + suffix == head + "-" + BucketText(bucket);
  }

  /** The generated identities meet the length bounds again that every candidate has to meet. */
  lemma IdentitiesWithinBounds(matrixId: Option<string>, seedBase: string, bucket: Bucket, digest: string)
    ensures 1 <= |MatrixRequestId(MatrixIdFor(matrixId), bucket)| <= MAX_LENGTH
    ensures 1 <= |MatrixBucketSeedFor(seedBase, bucket, digest)| <= MAX_LENGTH
    ensures |seedBase| + |MatrixSuffix(digest, bucket)| <= MAX_LENGTH ==>
              MatrixBucketSeedFor(seedBase, bucket, digest) == seedBase + MatrixSuffix(digest, bucket)
  {
  }

  /** Different buckets get different test ids, although the request part is cut and the ends are trimmed. */
  lemma TestIdsDiffer(c: TestCandidate, d: TestCandidate, createdAt: string)
    requires c.bucket != d.bucket
    ensures TestIdFor(c, createdAt) != TestIdFor(d, createdAt)
  {
    TestIdKeepsBucket(c, createdAt);
    TestIdKeepsBucket(d, createdAt);
    if TestIdFor(c, createdAt) == TestIdFor(d, createdAt) {
      BucketTextInjective(c.bucket, d.bucket);
    }
  }

  function TestIdHead(createdAt: string): string {
    "strategy_bucket_test_" + Slice(Digits(createdAt), 17) + "_"
  }

  lemma TestIdHeadFacts(createdAt: string)
    ensures |TestIdHead(createdAt)| > 0 && TestIdHead(createdAt)[0] == 's'
    ensures forall i :: 0 <= i < |TestIdHead(createdAt)| ==> Safe(TestIdHead(createdAt)[i])
  {
  }

  /** Sanitizing a safe text keeps what stands in its middle. */
  lemma SanitizedKeepsMiddle(head: string, middle: string, tail: string, fallback: string)
    requires |head| > 0 && head[0] != '_' && |middle| >= 2 && middle[|middle| - 1] != '_'
    requires forall i :: 0 <= i < |head| ==> Safe(head[i])
    requires forall i :: 0 <= i < |middle| ==> Safe(middle[i])
    requires forall i :: 0 <= i < |tail| ==> Safe(tail[i])
    ensures var id := SafeArtifactPathPart(head + middle + tail, fallback);
            |id| >= |head| + 2 && id[|head|..|head| + 2] == middle[..2]
  {
    var text := head + middle + tail;
    SanitizedKeeps(text, fallback, |head| + |middle|);
    var id := SafeArtifactPathPart(text, fallback);
    assert id[|head|..|head| + 2] == text[|head|..|head| + 2] == middle[..2];
  }

  lemma RequestPartIsSafe(c: TestCandidate)
    ensures forall i :: 0 <= i < |RequestPart(c)| ==> Safe(RequestPart(c)[i])
  {
    SanitizedIsSafe(if c.requestId.Some? then c.requestId.value else c.seed, "request");
  }

  lemma TestIdKeepsBucket(c: TestCandidate, createdAt: string)
    ensures var n := |TestIdHead(createdAt)|;
            |TestIdFor(c, createdAt)| >= n + 2 && TestIdFor(c, createdAt)[n..n + 2] == BucketText(c.bucket)[..2]
  {
    var part := RequestPart(c);
    RequestPartIsSafe(c);
    TestTextKeepsBucket(createdAt, c.bucket, part);
  }

  lemma TestTextKeepsBucket(createdAt: string, bucket: Bucket, part: string)
    requires forall i :: 0 <= i < |part| ==> Safe(part[i])
    ensures var n, id := |TestIdHead(createdAt)|, SafeArtifactPathPart(TestIdText(createdAt, bucket, part), "strategy_bucket_test");
            |id| >= n + 2 && id[n..n + 2] == BucketText(bucket)[..2]
  {
    BucketTextFacts(bucket);
    TestIdHeadFacts(createdAt);
    TestIdSplit(createdAt, bucket, part);
    SanitizedKeepsMiddle(TestIdHead(createdAt), BucketText(bucket), "_" + part, "strategy_bucket_test");
  }

  lemma TestIdSplit(createdAt: string, bucket: Bucket, requestPart: string)
    ensures TestIdText(createdAt, bucket, requestPart) == TestIdHead(createdAt) + BucketText(bucket) + ("_" + requestPart)
  {
  }

  // ----- Validation of one candidate ---------------------------------------------------------------------------

  predicate WithinSchema(p: Policy) {
    1 <= |p.strategyBuckets| <= 5
  }

  predicate CandidateWithinSchema(c: TestCandidate) {
    (c.requestId.Some? ==> 1 <= |c.requestId.value| <= MAX_LENGTH) && 1 <= |c.seed| <= MAX_LENGTH
  }

  function Pushed(items: seq<TestIssue>, condition: bool, issue: TestIssue): seq<TestIssue> {
    if condition then items + [issue] else items
  }

  function AfterSelectedBucket(items: seq<TestIssue>, bucket: Bucket, p: Policy): seq<TestIssue> {
    var entry := EntryOf(p.strategyBuckets, bucket);
    if entry.None? then items + [BucketPolicyMissing]
    else
      Pushed(Pushed(items, entry.value.targetWeightRatio <= 0.0, BucketDisabled),
             bucket.Hedge? && (!p.hedgeEnabled || p.hedgeTargetRatio <= 0.0), HedgePolicyRequired)
  }

  method ValidateSelectedBucket(bucket: Bucket, p: Policy, issues: IssueList<TestIssue>)
    modifies issues
    ensures issues.items == AfterSelectedBucket(old(issues.items), bucket, p)
  {
    var entry := EntryOf(p.strategyBuckets, bucket);
    if entry.None? {
      issues.items := issues.items + [BucketPolicyMissing];
      return;
    }
    if entry.value.targetWeightRatio <= 0.0 {
      issues.items := issues.items + [BucketDisabled];
    }
    if bucket.Hedge? && (!p.hedgeEnabled || p.hedgeTargetRatio <= 0.0) {
      issues.items := issues.items + [HedgePolicyRequired];
    }
  }

  function CandidateIssues(c: TestCandidate): seq<TestIssue> {
    AfterSelectedBucket(Pushed(Pushed([], PolicyIssues(c.policy) != [], PolicyInvalid), !c.configOk, ConfigInvalid), c.bucket, c.policy)
  }

  function Prepared(c: TestCandidate, createdAt: string): Result<Record> {
    if !CandidateWithinSchema(c) then Err(InvalidCandidate)
    else if !WithinSchema(c.policy) then Err(InvalidPolicyCandidate)
    else if CandidateIssues(c) != [] then Err(InvalidConfig(CandidateIssues(c)))
    else Ok(Record(TestIdFor(c, createdAt), c.requestId, c.bucket, c))
  }

  /** `prepareStrategyBucketTestRun`. */
  method PrepareStrategyBucketTestRun(c: TestCandidate, createdAt: string) returns (r: Result<Record>)
    ensures r == Prepared(c, createdAt)
  {
    if !CandidateWithinSchema(c) {
      return Err(InvalidCandidate);
    }
    if !WithinSchema(c.policy) {
      return Err(InvalidPolicyCandidate);
    }
    var issues := new IssueList<TestIssue>();
    var policyIssues := ValidatePaperPolicyCandidate(c.policy);
    if policyIssues != [] {
      issues.items := issues.items + [PolicyInvalid];
    }
    if !c.configOk {
      issues.items := issues.items + [ConfigInvalid];
    }
    ValidateSelectedBucket(c.bucket, c.policy, issues);
    if issues.items != [] {
      return Err(InvalidConfig(issues.items));
    }
    return Ok(Record(TestIdFor(c, createdAt), c.requestId, c.bucket, c));
  }

  // ----- The matrix --------------------------------------------------------------------------------------------

  function EnabledBuckets(entries: seq<BucketPolicy>): seq<Bucket> {
    if |entries| == 0 then []
    else
      var earlier, last := EnabledBuckets(entries[..|entries| - 1]), entries[|entries| - 1];
      if last.targetWeightRatio > 0.0 then earlier + [last.bucket] else earlier
  }

  /** Maps every element, or stops at the first refusal. */
  function Collected<T, U>(f: T -> Result<U>, xs: seq<T>): Result<seq<U>> {
    if |xs| == 0 then Ok([])
    else
      var earlier := Collected(f, xs[..|xs| - 1]);
      if earlier.Err? then earlier
      else
        var last := f(xs[|xs| - 1]);
        if last.Err? then Err(last.refusal) else Ok(earlier.value + [last.value])
  }

  function Preparer(c: TestCandidate, matrixId: string, digest: (string, Bucket) -> string, createdAt: string)
    : Bucket -> Result<Record>
  {
    (bucket: Bucket) => Prepared(CandidateFor(c, matrixId, bucket, digest), createdAt)
  }

  predicate RequestWithinSchema(matrixId: Option<string>, c: TestCandidate) {
    (matrixId.Some? ==> 1 <= |matrixId.value| <= MAX_LENGTH) && CandidateWithinSchema(c)
  }

  function MatrixRuns(matrixId: Option<string>, c: TestCandidate, digest: (string, Bucket) -> string, createdAt: string)
    : Result<seq<Record>>
  {
    if !RequestWithinSchema(matrixId, c) then Err(InvalidRequest)
    else if !WithinSchema(c.policy) then Err(InvalidPolicyCandidate)
    else if EnabledBuckets(c.policy.strategyBuckets) == [] then Err(EmptyMatrix)
    else Collected(Preparer(c, MatrixIdFor(matrixId), digest, createdAt), EnabledBuckets(c.policy.strategyBuckets))
  }

  class TestRecordStore {
    var records: seq<Record>
    var auditedTestIds: seq<string>

    constructor ()
      ensures records == [] && auditedTestIds == []
    {
      records := [];
      auditedTestIds := [];
    }
  }

  function TestIds(records: seq<Record>): seq<string> {
    if |records| == 0 then [] else TestIds(records[..|records| - 1]) + [records[|records| - 1].testId]
  }

  /** `createStrategyBucketTestMatrixRun`: every run is prepared before the first one is stored. */
  method CreateStrategyBucketTestMatrixRun(matrixId: Option<string>, c: TestCandidate, digest: (string, Bucket) -> string,
                                           createdAt: string, store: TestRecordStore)
    returns (r: Result<seq<Record>>)
    modifies store
    ensures r == MatrixRuns(matrixId, c, digest, createdAt)
    ensures store.records == old(store.records) + (if r.Ok? then r.value else [])
    ensures store.auditedTestIds == old(store.auditedTestIds) + (if r.Ok? then TestIds(r.value) else [])
  {
    if !RequestWithinSchema(matrixId, c) {
      return Err(InvalidRequest);
    }
    if !WithinSchema(c.policy) {
      return Err(InvalidPolicyCandidate);
    }
    var buckets := EnabledBuckets(c.policy.strategyBuckets);
    if buckets == [] {
      return Err(EmptyMatrix);
    }
    var prepared := PrepareAll(c, MatrixIdFor(matrixId), buckets, digest, createdAt);
    if prepared.Err? {
      return prepared;
    }
    AppendAll(prepared.value, store);
    return prepared;
  }

  method AppendAll(runs: seq<Record>, store: TestRecordStore)
    modifies store
    ensures store.records == old(store.records) + runs
    ensures store.auditedTestIds == old(store.auditedTestIds) + TestIds(runs)
  {
    for i := 0 to |runs|
      invariant store.records == old(store.records) + runs[..i]
      invariant store.auditedTestIds == old(store.auditedTestIds) + TestIds(runs[..i])
    {
      assert runs[..i + 1][..i] == runs[..i];
      store.records := store.records + [runs[i]];
      store.auditedTestIds := store.auditedTestIds + [runs[i].testId];
    }
    assert runs[..|runs|] == runs;
  }

  method PrepareFor(c: TestCandidate, matrixId: string, bucket: Bucket, digest: (string, Bucket) -> string, createdAt: string)
    returns (r: Result<Record>)
    ensures r == Preparer(c, matrixId, digest, createdAt)(bucket)
  {
    r := PrepareStrategyBucketTestRun(CandidateFor(c, matrixId, bucket, digest), createdAt);
  }

  method PrepareAll(c: TestCandidate, matrixId: string, buckets: seq<Bucket>, digest: (string, Bucket) -> string, createdAt: string)
    returns (r: Result<seq<Record>>)
    ensures r == Collected(Preparer(c, matrixId, digest, createdAt), buckets)
  {
    var runs: seq<Record> := [];
    ghost var prepare := Preparer(c, matrixId, digest, createdAt);
    for i := 0 to |buckets|
      invariant Collected(prepare, buckets[..i]) == Ok(runs)
    {
      var run := PrepareFor(c, matrixId, buckets[i], digest, createdAt);
      CollectedStep(prepare, buckets, i, runs, run);
      if run.Err? {
        return Err(run.refusal);
      }
      runs := runs + [run.value];
    }
    assert buckets[..|buckets|] == buckets;
    return Ok(runs);
  }

  lemma CollectedStep<T, U>(f: T -> Result<U>, xs: seq<T>, i: nat, earlier: seq<U>, last: Result<U>)
    requires i < |xs| && Collected(f, xs[..i]) == Ok(earlier) && last == f(xs[i])
    ensures last.Ok? ==> Collected(f, xs[..i + 1]) == Ok(earlier + [last.value])
    ensures last.Err? ==> Collected(f, xs) == Err(last.refusal)
  {
    assert xs[..i + 1][..i] == xs[..i];
    if last.Err? {
      FirstRefusalDecides(f, xs, i + 1);
    }
  }

  lemma {:induction false} FirstRefusalDecides<T, U>(f: T -> Result<U>, xs: seq<T>, n: nat)
    requires n <= |xs| && Collected(f, xs[..n]).Err?
    ensures Collected(f, xs) == Collected(f, xs[..n])
    decreases |xs|
  {
    if n < |xs| {
      assert xs[..|xs| - 1][..n] == xs[..n];
      FirstRefusalDecides(f, xs[..|xs| - 1], n);
    } else {
      assert xs[..n] == xs;
    }
  }

  lemma {:induction false} CollectedMeaning<T, U>(f: T -> Result<U>, xs: seq<T>)
    ensures Collected(f, xs).Ok? <==> forall i :: 0 <= i < |xs| ==> f(xs[i]).Ok?
    ensures Collected(f, xs).Ok? ==>
              && |Collected(f, xs).value| == |xs|
              && forall i :: 0 <= i < |xs| ==> Ok(Collected(f, xs).value[i]) == f(xs[i])
  {
    if |xs| > 0 {
      CollectedMeaning(f, xs[..|xs| - 1]);
    }
  }

  // ----- When a matrix is queued, and what it queues ------------------------------------------------------------

  /** An enabled hedge bucket needs a positive hedge target in the hedge policy. */
  predicate HedgeReady(p: Policy) {
    forall i :: 0 <= i < |p.strategyBuckets| && p.strategyBuckets[i].bucket == Hedge && p.strategyBuckets[i].targetWeightRatio > 0.0
      ==> p.hedgeTargetRatio > 0.0
  }

  lemma {:induction false} EnabledMembers(entries: seq<BucketPolicy>)
    ensures forall b :: b in EnabledBuckets(entries) <==>
              exists i :: 0 <= i < |entries| && entries[i].bucket == b && entries[i].targetWeightRatio > 0.0
  {
    if |entries| > 0 {
      EnabledMembers(entries[..|entries| - 1]);
    }
  }

  predicate Distinct(buckets: seq<Bucket>) {
    forall i, j :: 0 <= i < j < |buckets| ==> buckets[i] != buckets[j]
  }

  lemma {:induction false} EnabledDistinct(entries: seq<BucketPolicy>)
    requires forall i, j :: 0 <= i < j < |entries| ==> entries[i].bucket != entries[j].bucket
    ensures Distinct(EnabledBuckets(entries))
  {
    if |entries| > 0 {
      EnabledDistinct(entries[..|entries| - 1]);
      EnabledMembers(entries[..|entries| - 1]);
      var earlier := EnabledBuckets(entries[..|entries| - 1]);
      forall k | 0 <= k < |earlier|
        ensures earlier[k] != entries[|entries| - 1].bucket
      {
        assert earlier[k] in earlier;
        var i :| 0 <= i < |entries| - 1 && entries[..|entries| - 1][i].bucket == earlier[k];
        assert entries[i].bucket == earlier[k];
      }
      assert EnabledBuckets(entries) == earlier + [entries[|entries| - 1].bucket] || EnabledBuckets(entries) == earlier;
    }
  }

  /** An enabled bucket of a sound policy passes the selected-bucket check exactly when the hedge is ready for it. */
  lemma SelectedBucketPasses(p: Policy, i: nat)
    requires Sound(p) && i < |p.strategyBuckets| && p.strategyBuckets[i].targetWeightRatio > 0.0
    ensures AfterSelectedBucket([], p.strategyBuckets[i].bucket, p) == [] <==>
              (p.strategyBuckets[i].bucket == Hedge ==> p.hedgeTargetRatio > 0.0)
  {
    OnlyEntry(p.strategyBuckets, i);
  }

  /** A sound policy is hedge-ready when its hedge target is zero or above the tolerance. */
  lemma HedgeAboveToleranceIsReady(p: Policy)
    requires Sound(p)
    requires forall i :: 0 <= i < |p.strategyBuckets| && p.strategyBuckets[i].bucket == Hedge ==>
               p.strategyBuckets[i].targetWeightRatio == 0.0 || p.strategyBuckets[i].targetWeightRatio > TOLERANCE
    ensures HedgeReady(p)
  {
  }

  lemma CandidateIssuesMeaning(c: TestCandidate)
    ensures CandidateIssues(c) == [] <==> Sound(c.policy) && c.configOk && AfterSelectedBucket([], c.bucket, c.policy) == []
  {
    NoIssuesExactlyWhenSound(c.policy);
  }

  lemma PreparedMeaning(c: TestCandidate, createdAt: string)
    requires CandidateWithinSchema(c) && WithinSchema(c.policy)
    ensures Prepared(c, createdAt).Ok? <==> CandidateIssues(c) == []
  {
  }

  lemma PreparedExactlyWhen(matrixId: Option<string>, c: TestCandidate, bucket: Bucket, digest: (string, Bucket) -> string,
                            createdAt: string)
    requires WithinSchema(c.policy)
    ensures Preparer(c, MatrixIdFor(matrixId), digest, createdAt)(bucket).Ok? <==>
              Sound(c.policy) && c.configOk && AfterSelectedBucket([], bucket, c.policy) == []
  {
    var candidate := CandidateFor(c, MatrixIdFor(matrixId), bucket, digest);
    IdentitiesWithinBounds(matrixId, c.seed, bucket, digest(c.seed, bucket));
    PreparedMeaning(candidate, createdAt);
    CandidateIssuesMeaning(candidate);
  }

  lemma SelectedBucketsPass(p: Policy, k: nat)
    requires Sound(p) && k < |EnabledBuckets(p.strategyBuckets)|
    ensures AfterSelectedBucket([], EnabledBuckets(p.strategyBuckets)[k], p) == [] <==>
              (EnabledBuckets(p.strategyBuckets)[k] == Hedge ==> p.hedgeTargetRatio > 0.0)
  {
    var entries := p.strategyBuckets;
    EnabledMembers(entries);
    assert EnabledBuckets(entries)[k] in EnabledBuckets(entries);
    var j :| 0 <= j < |entries| && entries[j].bucket == EnabledBuckets(entries)[k] && entries[j].targetWeightRatio > 0.0;
    SelectedBucketPasses(p, j);
  }

  lemma EnabledRunsPrepared(matrixId: Option<string>, c: TestCandidate, digest: (string, Bucket) -> string, createdAt: string)
    requires WithinSchema(c.policy) && EnabledBuckets(c.policy.strategyBuckets) != []
    ensures Collected(Preparer(c, MatrixIdFor(matrixId), digest, createdAt), EnabledBuckets(c.policy.strategyBuckets)).Ok? <==>
              Sound(c.policy) && c.configOk && HedgeReady(c.policy)
  {
    var buckets := EnabledBuckets(c.policy.strategyBuckets);
    var prepare := Preparer(c, MatrixIdFor(matrixId), digest, createdAt);
    CollectedMeaning(prepare, buckets);
    forall i | 0 <= i < |buckets|
      ensures prepare(buckets[i]).Ok? <==> Sound(c.policy) && c.configOk && (buckets[i] == Hedge ==> c.policy.hedgeTargetRatio > 0.0)
    {
      PreparedExactlyWhen(matrixId, c, buckets[i], digest, createdAt);
      if Sound(c.policy) {
        SelectedBucketsPass(c.policy, i);
      }
    }
    HedgeReadyMeaning(c.policy);
    assert prepare(buckets[0]).Ok? ==> Sound(c.policy) && c.configOk;
  }

  /** A well-formed matrix request is queued exactly when its policy is sound, its other settings pass and its
      hedge is ready; the generated identities never make it fail. */
  lemma QueuedExactlyWhen(matrixId: Option<string>, c: TestCandidate, digest: (string, Bucket) -> string, createdAt: string)
    requires RequestWithinSchema(matrixId, c)
    ensures MatrixRuns(matrixId, c, digest, createdAt).Ok? <==> Sound(c.policy) && c.configOk && HedgeReady(c.policy)
  {
    var entries := c.policy.strategyBuckets;
    if Sound(c.policy) {
      SoundIsPermutation(c.policy);
      var k := SoundEnablesSome(c.policy);
      EnabledMembers(entries);
      assert entries[k].bucket in EnabledBuckets(entries);
    }
    if WithinSchema(c.policy) && EnabledBuckets(entries) != [] {
      EnabledRunsPrepared(matrixId, c, digest, createdAt);
    }
  }

  lemma HedgeReadyMeaning(p: Policy)
    ensures HedgeReady(p) <==>
              forall i :: 0 <= i < |EnabledBuckets(p.strategyBuckets)| && EnabledBuckets(p.strategyBuckets)[i] == Hedge
                ==> p.hedgeTargetRatio > 0.0
  {
    EnabledMembers(p.strategyBuckets);
    assert Hedge in EnabledBuckets(p.strategyBuckets) <==>
      exists i :: 0 <= i < |EnabledBuckets(p.strategyBuckets)| && EnabledBuckets(p.strategyBuckets)[i] == Hedge;
  }

  lemma EnabledOnce(p: Policy)
    requires Sound(p)
    ensures Distinct(EnabledBuckets(p.strategyBuckets))
  {
    var entries := p.strategyBuckets;
    forall k, l | 0 <= k < l < |entries|
      ensures entries[k].bucket != entries[l].bucket
    {
      if entries[k].bucket == entries[l].bucket {
        OnePosition(entries, k, l);
      }
    }
    EnabledDistinct(entries);
  }

  /** What a queued run says of its bucket. */
  predicate RunFor(run: Record, matrixId: Option<string>, c: TestCandidate, bucket: Bucket, digest: (string, Bucket) -> string,
                   createdAt: string)
  {
    var candidate := CandidateFor(c, MatrixIdFor(matrixId), bucket, digest);
    && run.bucket == bucket && run.testId == TestIdFor(candidate, createdAt) && run.candidate == candidate
    && run.requestId == Some(MatrixRequestId(MatrixIdFor(matrixId), bucket))
    && run.candidate.seed == MatrixBucketSeedFor(c.seed, bucket, digest(c.seed, bucket))
  }

  lemma PreparedRun(matrixId: Option<string>, c: TestCandidate, bucket: Bucket, digest: (string, Bucket) -> string, createdAt: string)
    ensures var r := Preparer(c, MatrixIdFor(matrixId), digest, createdAt)(bucket);
            r.Ok? ==> RunFor(r.value, matrixId, c, bucket, digest, createdAt)
  {
  }

  /** A queued matrix holds one run per enabled bucket, in policy order. */
  lemma QueuedRuns(matrixId: Option<string>, c: TestCandidate, digest: (string, Bucket) -> string, createdAt: string)
    ensures var r, buckets := MatrixRuns(matrixId, c, digest, createdAt), EnabledBuckets(c.policy.strategyBuckets);
            r.Ok? ==> |r.value| == |buckets|
                      && forall i :: 0 <= i < |buckets| ==> RunFor(r.value[i], matrixId, c, buckets[i], digest, createdAt)
  {
    var r, buckets := MatrixRuns(matrixId, c, digest, createdAt), EnabledBuckets(c.policy.strategyBuckets);
    CollectedMeaning(Preparer(c, MatrixIdFor(matrixId), digest, createdAt), buckets);
    if r.Ok? {
      forall i | 0 <= i < |buckets|
        ensures RunFor(r.value[i], matrixId, c, buckets[i], digest, createdAt)
      {
        PreparedRun(matrixId, c, buckets[i], digest, createdAt);
      }
    }
  }

  lemma RunsDiffer(r: Record, s: Record, matrixId: Option<string>, c: TestCandidate, a: Bucket, b: Bucket,
                   digest: (string, Bucket) -> string, createdAt: string)
    requires a != b && RunFor(r, matrixId, c, a, digest, createdAt) && RunFor(s, matrixId, c, b, digest, createdAt)
    ensures r.testId != s.testId && r.requestId != s.requestId && r.candidate.seed != s.candidate.seed
  {
    IdentitiesDiffer(MatrixIdFor(matrixId), c.seed, a, b, digest(c.seed, a), digest(c.seed, b));
    TestIdsDiffer(r.candidate, s.candidate, createdAt);
  }

  /** The runs of a queued matrix have pairwise different buckets, test ids, request ids and seeds. */
  lemma QueuedRunsAreDistinct(matrixId: Option<string>, c: TestCandidate, digest: (string, Bucket) -> string, createdAt: string)
    ensures var r := MatrixRuns(matrixId, c, digest, createdAt);
            r.Ok? ==>
              forall i, j :: 0 <= i < j < |r.value| ==>
                && r.value[i].bucket != r.value[j].bucket && r.value[i].testId != r.value[j].testId
                && r.value[i].requestId != r.value[j].requestId && r.value[i].candidate.seed != r.value[j].candidate.seed
  {
    var r, buckets := MatrixRuns(matrixId, c, digest, createdAt), EnabledBuckets(c.policy.strategyBuckets);
    if r.Ok? {
      QueuedExactlyWhen(matrixId, c, digest, createdAt);
      EnabledOnce(c.policy);
      QueuedRuns(matrixId, c, digest, createdAt);
      forall i, j | 0 <= i < j < |r.value|
        ensures r.value[i].bucket != r.value[j].bucket && r.value[i].testId != r.value[j].testId
        ensures r.value[i].requestId != r.value[j].requestId && r.value[i].candidate.seed != r.value[j].candidate.seed
      {
        RunsDiffer(r.value[i], r.value[j], matrixId, c, buckets[i], buckets[j], digest, createdAt);
      }
    }
  }

  function PlainEntry(bucket: Bucket, target: real): BucketPolicy {
    BucketPolicy(bucket, target, 0.0, 1.0, 0.5, 0.5, HoldingPeriodHintFor(bucket))
  }

  function TinyHedgeEntries(): seq<BucketPolicy> {
    [PlainEntry(LongTerm, 0.5), PlainEntry(Swing, 0.2), PlainEntry(ShortTerm, 0.1), PlainEntry(Intraday, 0.1),
     PlainEntry(Hedge, 0.00005)]
  }

  lemma TinyHedgeTotal()
    ensures Sum(Targets(TinyHedgeEntries())) == 0.90005
  {
    var targets := Targets(TinyHedgeEntries());
    assert targets == [0.5, 0.2, 0.1, 0.1, 0.00005];
    assert targets[..4][..3] == targets[..3] && targets[..3][..2] == targets[..2] && targets[..2][..1] == targets[..1];
    assert Sum(targets[..1]) == 0.5;
    assert Sum(targets[..2]) == 0.7;
    assert Sum(targets[..3]) == 0.8;
    assert Sum(targets[..4]) == 0.9;
  }

  lemma TinyHedgeBuckets()
    ensures OneOfEach(TinyHedgeEntries())
  {
    var names := Names(TinyHedgeEntries());
    assert names == [LongTerm, Swing, ShortTerm, Intraday, Hedge];
    assert multiset(names) == multiset{LongTerm, Swing, ShortTerm, Intraday, Hedge};
    forall b: Bucket
      ensures multiset(names)[b] == 1
    {
      match b {
        case LongTerm => assert multiset(names)[LongTerm] == 1;
        case Swing => assert multiset(names)[Swing] == 1;
        case ShortTerm => assert multiset(names)[ShortTerm] == 1;
        case Intraday => assert multiset(names)[Intraday] == 1;
        case Hedge => assert multiset(names)[Hedge] == 1;
      }
    }
  }

  /** A sound policy whose tiny hedge target is within the tolerance of a zero in the hedge policy: its matrix is refused. */
  lemma TinyHedgeIsNotReady() returns (p: Policy)
    ensures Sound(p) && !HedgeReady(p)
  {
    p := Policy(TinyHedgeEntries(), 0.1, 0.0, true, 0.0, 0.01, 0.2, 1.0, 1.0);
    TinyHedgeTotal();
    AllocationMargin(p);
    TinyHedgeBuckets();
    assert p.strategyBuckets[4].bucket == Hedge;
  }
}
