/** The identities, refusals and issues of a strategy bucket test matrix, told by texts and fields. */
module MatrixMeaning {
  import opened Numbers
  import opened PolicyMatrix
  import opened PolicyMeaning
  import opened PolicyValidation
  import opened Sequences
  import opened Texts

  // ----- Sanitized parts ----------------------------------------------------------------------------------

  /** An ASCII letter, a digit, an underscore or a hyphen, by its code. */
  predicate PartChar(c: char) {
    65 <= c as int <= 90 || 97 <= c as int <= 122 || 48 <= c as int <= 57 || c as int == 95 || c as int == 45
  }

  predicate PartText(s: string) {
    |s| > 0 && forall i :: 0 <= i < |s| ==> PartChar(s[i])
  }

  predicate Gap(s: string) {
    |s| > 0 && forall i :: 0 <= i < |s| ==> !PartChar(s[i])
  }

  predicate NoBorderUnderscore(s: string) {
    |s| > 0 && s[0] != '_' && s[|s| - 1] != '_'
  }

  /** Parts with a gap before each but the first. */
  function Woven(parts: seq<string>, gaps: seq<string>): string
    requires |gaps| == |parts|
  {
    if |parts| == 0 then ""
    else if |parts| == 1 then parts[0]
    else Woven(parts[..|parts| - 1], gaps[..|gaps| - 1]) + gaps[|gaps| - 1] + parts[|parts| - 1]
  }

  function Joined(parts: seq<string>): string {
    if |parts| == 0 then ""
    else if |parts| == 1 then parts[0]
    else Joined(parts[..|parts| - 1]) + "_" + parts[|parts| - 1]
  }

  lemma SafeByCode(c: char)
    ensures Safe(c) <==> PartChar(c)
    ensures PartChar(c) ==> !Space(c)
  {
  }

  lemma {:induction false} CollapseKeeps(a: string, part: string)
    requires PartText(part)
    ensures Collapse(a + part) == Collapse(a) + part
  {
    var front, c := part[..|part| - 1], part[|part| - 1];
    SafeByCode(c);
    assert (a + part)[..|a + part| - 1] == a + front && (a + part)[|a + part| - 1] == c;
    if |front| > 0 {
      CollapseKeeps(a, front);
      assert part == front + [c];
    } else {
      assert a + front == a && part == [c];
    }
  }

  lemma {:induction false} CollapseGap(a: string, gap: string)
    requires Gap(gap) && |a| > 0 && PartChar(a[|a| - 1])
    ensures Collapse(a + gap) == Collapse(a) + "_"
  {
    var front, c, s := gap[..|gap| - 1], gap[|gap| - 1], a + gap;
    SafeByCode(c);
    assert s[..|s| - 1] == a + front && s[|s| - 1] == c;
    if |front| > 0 {
      SafeByCode(front[|front| - 1]);
      assert s[|s| - 2] == front[|front| - 1];
      CollapseGap(a, front);
    } else {
      SafeByCode(a[|a| - 1]);
      assert a + front == a && s[|s| - 2] == a[|a| - 1];
    }
  }

  predicate Parts(parts: seq<string>, gaps: seq<string>) {
    && |gaps| == |parts| && |parts| > 0
    && (forall i :: 0 <= i < |parts| ==> PartText(parts[i]))
    && forall i :: 0 < i < |gaps| ==> Gap(gaps[i])
  }

  lemma CollapseNext(before: string, gap: string, part: string)
    requires |before| > 0 && PartChar(before[|before| - 1]) && Gap(gap) && PartText(part)
    ensures Collapse(before + gap + part) == Collapse(before) + "_" + part
  {
    CollapseGap(before, gap);
    CollapseKeeps(before + gap, part);
  }

  predicate SameEnds(s: string, t: string) {
    |s| > 0 && |t| > 0 && s[0] == t[0] && s[|s| - 1] == t[|t| - 1]
  }

  lemma EndsExtended(s: string, t: string, a: string, b: string, part: string)
    requires SameEnds(s, t) && |part| > 0
    ensures SameEnds(s + a + part, t + b + part)
  {
  }

  lemma {:induction false} CollapseWoven(parts: seq<string>, gaps: seq<string>)
    requires Parts(parts, gaps)
    ensures Collapse(Woven(parts, gaps)) == Joined(parts)
    ensures SameEnds(Woven(parts, gaps), Joined(parts))
    ensures PartChar(Woven(parts, gaps)[0]) && PartChar(Woven(parts, gaps)[|Woven(parts, gaps)| - 1])
  {
    var n := |parts| - 1;
    if n == 0 {
      CollapseKeeps("", parts[0]);
      assert "" + parts[0] == parts[0] && PartText(parts[0]);
    } else {
      var before := Woven(parts[..n], gaps[..n]);
      CollapseWoven(parts[..n], gaps[..n]);
      CollapseNext(before, gaps[n], parts[n]);
      EndsExtended(before, Joined(parts[..n]), gaps[n], "_", parts[n]);
      assert PartText(parts[n]);
    }
  }

  lemma TrimKeeps(s: string)
    requires |s| > 0 && PartChar(s[0]) && PartChar(s[|s| - 1])
    ensures Trim(s) == s
  {
    SafeByCode(s[0]);
    SafeByCode(s[|s| - 1]);
  }

  /** Safe parts are kept in order and every gap of unsafe characters between them becomes one underscore. */
  lemma SanitizedJoinsParts(parts: seq<string>, gaps: seq<string>, fallback: string)
    requires Parts(parts, gaps) && NoBorderUnderscore(Woven(parts, gaps))
    ensures SafeArtifactPathPart(Woven(parts, gaps), fallback) == Joined(parts)
  {
    CollapseWoven(parts, gaps);
    TrimKeeps(Woven(parts, gaps));
  }

  lemma SanitizedIsPart(value: string, fallback: string)
    ensures var r := SafeArtifactPathPart(value, fallback); r == fallback || (PartText(r) && NoBorderUnderscore(r))
  {
    var collapsed := Collapse(Trim(value));
    var started := TrimStart(collapsed, Underscore);
    TrimStartIsSuffix(collapsed, Underscore);
    TrimEndIsPrefix(started, Underscore, 0);
    TrimmedBorders(collapsed);
    var r := TrimEnd(started, Underscore);
    forall i | 0 <= i < |r|
      ensures PartChar(r[i])
    {
      assert r[i] == started[i] && Safe(started[i]);
      SafeByCode(r[i]);
    }
  }

  lemma {:induction false} TrimmedEnd(s: string)
    ensures var r := TrimEnd(s, Underscore); |r| > 0 ==> r[|r| - 1] != '_' && r[0] == s[0] && |s| > 0
  {
    if |s| > 0 && s[|s| - 1] == '_' {
      TrimmedEnd(s[..|s| - 1]);
    }
  }

  lemma {:induction false} TrimmedStart(s: string)
    ensures var r := TrimStart(s, Underscore); |r| > 0 ==> r[0] != '_'
  {
    if |s| > 0 && s[0] == '_' {
      TrimmedStart(s[1..]);
    }
  }

  lemma TrimmedBorders(s: string)
    ensures var r := TrimEnd(TrimStart(s, Underscore), Underscore); |r| > 0 ==> NoBorderUnderscore(r)
  {
    TrimmedStart(s);
    TrimmedEnd(TrimStart(s, Underscore));
  }

  /** A part that needs no cleaning is kept. */
  lemma CleanPartIsKept(value: string, fallback: string)
    requires PartText(value) && NoBorderUnderscore(value)
    ensures SafeArtifactPathPart(value, fallback) == value
  {
    SanitizedJoinsParts([value], [""], fallback);
  }

  // ----- Identities -----------------------------------------------------------------------------------------

  predicate IsName(bucket: Bucket, name: string) {
    match bucket
    case LongTerm => name == "long_term"
    case Swing => name == "swing"
    case ShortTerm => name == "short_term"
    case Intraday => name == "intraday"
    case Hedge => name == "hedge"
  }

  /** The seed of a bucket is as much of the seed base as fits, twelve characters of the digest and the bucket's name. */
  lemma SeedMeaning(seedBase: string, bucket: Bucket, digest: string) returns (kept: nat, name: string)
    ensures kept <= |seedBase| && IsName(bucket, name)
    ensures MatrixBucketSeedFor(seedBase, bucket, digest) ==
            seedBase[..kept] + "-" + (if |digest| <= 12 then digest else digest[..12]) + "-" + name
    ensures |MatrixBucketSeedFor(seedBase, bucket, digest)| <= 120
    ensures kept < |seedBase| ==> |MatrixBucketSeedFor(seedBase, bucket, digest)| == 120
  {
    name := BucketText(bucket);
    var suffix := MatrixSuffix(digest, bucket);
    kept := if |seedBase| <= Room(suffix) then |seedBase| else Room(suffix);
    assert seedBase[..|seedBase|] == seedBase;
    assert MatrixBucketSeedFor(seedBase, bucket, digest) == seedBase[..kept] + suffix;
  }

  lemma {:induction false} DigitsMeaning(s: string)
    ensures Digits(s) == Select(s, (c: char) => 48 <= c as int <= 57)
  {
    if |s| > 0 {
      DigitsMeaning(s[..|s| - 1]);
    }
  }

  /** A clean matrix id of at most 80 characters is kept, and names the request of every bucket. */
  lemma RequestIdMeaning(matrixId: string, bucket: Bucket) returns (name: string)
    requires PartText(matrixId) && NoBorderUnderscore(matrixId)
    ensures IsName(bucket, name)
    ensures MatrixRequestId(MatrixIdFor(Some(matrixId)), bucket) ==
            (if |matrixId| <= 80 then matrixId else matrixId[..80]) + "-" + name
    ensures MatrixRequestId(MatrixIdFor(None), bucket) == "strategy-bucket-matrix" + "-" + name
  {
    name := BucketText(bucket);
    CleanPartIsKept(matrixId, "strategy_bucket_matrix");
    CleanPartIsKept("strategy-bucket-matrix", "strategy_bucket_matrix");
  }

  function FirstOf(s: string, n: nat): string {
    if |s| <= n then s else s[..n]
  }

  lemma HeadIsPart(createdAt: string, bucket: Bucket)
    ensures PartText(TestIdHead(createdAt) + BucketText(bucket) + "_")
    ensures TestIdHead(createdAt)[0] == 's'
  {
    var head := TestIdHead(createdAt) + BucketText(bucket) + "_";
    TestIdHeadFacts(createdAt);
    BucketTextFacts(bucket);
    forall i | 0 <= i < |head|
      ensures PartChar(head[i])
    {
      SafeByCode(head[i]);
    }
  }

  /** With a clean short request id a test id is the fixed head, seventeen digits of the time, the bucket and that id. */
  lemma TestIdMeaning(c: TestCandidate, createdAt: string) returns (name: string)
    requires c.requestId.Some? && |c.requestId.value| <= 48
    requires PartText(c.requestId.value) && NoBorderUnderscore(c.requestId.value)
    ensures IsName(c.bucket, name)
    ensures TestIdFor(c, createdAt) ==
            "strategy_bucket_test_" + FirstOf(Select(createdAt, (c: char) => 48 <= c as int <= 57), 17) + "_" + name + "_"
            + c.requestId.value
  {
    name := BucketText(c.bucket);
    var id := c.requestId.value;
    CleanPartIsKept(id, "request");
    DigitsMeaning(createdAt);
    HeadIsPart(createdAt, c.bucket);
    var text := TestIdHead(createdAt) + name + "_" + id;
    assert text == TestIdText(createdAt, c.bucket, id);
    assert PartText(text) && text[0] == 's' && text[|text| - 1] == id[|id| - 1];
    CleanPartIsKept(text, "strategy_bucket_test");
  }

  // ----- Refusals ---------------------------------------------------------------------------------------------

  /** The first entry of the bucket has no positive target. */
  predicate FirstIsDisabled(p: Policy, b: Bucket) {
    exists k :: && 0 <= k < |p.strategyBuckets| && p.strategyBuckets[k].bucket == b
                && p.strategyBuckets[k].targetWeightRatio <= 0.0
                && forall j :: 0 <= j < k ==> p.strategyBuckets[j].bucket != b
  }

  lemma {:induction false} FirstEntry(entries: seq<BucketPolicy>, b: Bucket)
    ensures EntryOf(entries, b).Some? ==>
              exists k :: && 0 <= k < |entries| && entries[k].bucket == b && entries[k] == EntryOf(entries, b).value
                          && forall j :: 0 <= j < k ==> entries[j].bucket != b
  {
    if |entries| > 0 {
      var before := entries[..|entries| - 1];
      FirstEntry(before, b);
      assert forall j :: 0 <= j < |before| ==> before[j] == entries[j];
      if EntryOf(before, b).Some? {
        var k :| && 0 <= k < |before| && before[k].bucket == b && before[k] == EntryOf(before, b).value
                 && forall j :: 0 <= j < k ==> before[j].bucket != b;
        assert entries[k] == before[k];
      } else if EntryOf(entries, b).Some? {
        assert entries[|before|].bucket == b;
      }
    }
  }

  lemma SelectedBucketReports(items: seq<TestIssue>, b: Bucket, p: Policy, i: TestIssue)
    ensures i in AfterSelectedBucket(items, b, p) <==>
              || i in items
              || (i == BucketPolicyMissing && NoEntry(p, b))
              || (i == BucketDisabled && FirstIsDisabled(p, b))
              || (i == HedgePolicyRequired && b == Hedge && !NoEntry(p, b) && (!p.hedgeEnabled || p.hedgeTargetRatio <= 0.0))
  {
    FirstEntry(p.strategyBuckets, b);
  }

  /** Which issues a candidate is refused for. */
  lemma CandidateReports(c: TestCandidate, i: TestIssue)
    ensures i in CandidateIssues(c) <==>
              || (i == PolicyInvalid && !Sound(c.policy))
              || (i == ConfigInvalid && !c.configOk)
              || (i == BucketPolicyMissing && NoEntry(c.policy, c.bucket))
              || (i == BucketDisabled && FirstIsDisabled(c.policy, c.bucket))
              || (i == HedgePolicyRequired && c.bucket == Hedge && !NoEntry(c.policy, c.bucket)
                  && (!c.policy.hedgeEnabled || c.policy.hedgeTargetRatio <= 0.0))
  {
    NoIssuesExactlyWhenSound(c.policy);
    var ofPolicy := PolicyMatrix.Pushed([], PolicyIssues(c.policy) != [], PolicyInvalid);
    SelectedBucketReports(PolicyMatrix.Pushed(ofPolicy, !c.configOk, ConfigInvalid), c.bucket, c.policy, i);
  }

  predicate BadLength(s: string) {
    |s| == 0 || |s| > 120
  }

  predicate BadTexts(c: TestCandidate) {
    BadLength(c.seed) || (c.requestId.Some? && BadLength(c.requestId.value))
  }

  /** What one candidate is refused for, in this order. */
  lemma PreparedDecides(c: TestCandidate, createdAt: string)
    ensures var r := Prepared(c, createdAt);
            && (r == Err(InvalidCandidate) <==> BadTexts(c))
            && (r == Err(InvalidPolicyCandidate) <==>
                  !BadTexts(c) && (|c.policy.strategyBuckets| == 0 || |c.policy.strategyBuckets| > 5))
            && (r.Err? ==> r.refusal in {InvalidCandidate, InvalidPolicyCandidate, InvalidConfig(CandidateIssues(c))})
            && (r.Ok? <==> !BadTexts(c) && 1 <= |c.policy.strategyBuckets| <= 5 && CandidateIssues(c) == [])
            && (r.Ok? ==> r.value.bucket == c.bucket && r.value.requestId == c.requestId)
  {
  }

  lemma {:induction false} NoneEnabled(entries: seq<BucketPolicy>)
    ensures EnabledBuckets(entries) == [] <==> forall k :: 0 <= k < |entries| ==> entries[k].targetWeightRatio <= 0.0
  {
    if |entries| > 0 {
      NoneEnabled(entries[..|entries| - 1]);
    }
  }

  /** The enabled buckets are those of the entries with a positive target, in policy order. */
  lemma {:induction false} EnabledInOrder(entries: seq<BucketPolicy>)
    ensures EnabledBuckets(entries) == Names(Select(entries, (e: BucketPolicy) => e.targetWeightRatio > 0.0))
  {
    if |entries| > 0 {
      EnabledInOrder(entries[..|entries| - 1]);
    }
  }

  /** What a whole matrix is refused for before its runs are prepared, in this order. */
  lemma MatrixDecides(matrixId: Option<string>, c: TestCandidate, digest: (string, Bucket) -> string, createdAt: string)
    ensures var r, n := MatrixRuns(matrixId, c, digest, createdAt), |c.policy.strategyBuckets|;
            var badRequest := BadTexts(c) || (matrixId.Some? && BadLength(matrixId.value));
            var disabled := forall k :: 0 <= k < n ==> c.policy.strategyBuckets[k].targetWeightRatio <= 0.0;
            && (badRequest ==> r == Err(InvalidRequest))
            && (!badRequest && (n == 0 || n > 5) ==> r == Err(InvalidPolicyCandidate))
            && (!badRequest && 1 <= n <= 5 && disabled ==> r == Err(EmptyMatrix))
  {
    NoneEnabled(c.policy.strategyBuckets);
  }

  /** A queued run is the candidate as it was, but for its bucket, its request id and its seed. */
  lemma QueuedRunKeepsCandidate(matrixId: Option<string>, c: TestCandidate, digest: (string, Bucket) -> string,
                                createdAt: string, k: nat)
    requires MatrixRuns(matrixId, c, digest, createdAt).Ok? && k < |MatrixRuns(matrixId, c, digest, createdAt).value|
    ensures var run := MatrixRuns(matrixId, c, digest, createdAt).value[k];
            && k < |EnabledBuckets(c.policy.strategyBuckets)| && run.bucket == EnabledBuckets(c.policy.strategyBuckets)[k]
            && run.candidate.policy == c.policy && run.candidate.configOk == c.configOk
            && run.candidate.bucket == run.bucket && run.candidate.requestId == run.requestId
  {
    QueuedRuns(matrixId, c, digest, createdAt);
  }
}
