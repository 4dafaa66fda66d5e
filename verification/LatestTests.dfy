/** The dashboard's backward scans over append-only strategy bucket test records. */
module LatestTests {
  import opened Numbers

  datatype Status = Queued | Running | Completed | Failed | Cancelled

  datatype Summary = Summary(testId: string, bucket: string, status: Status)

  /** A stored record: its summary when it parses, and the metric and warning fields of its result part. */
  datatype TestRecord = TestRecord(summary: Option<Summary>, metrics: seq<Option<real>>, warnings: seq<string>)

  datatype TestResult = TestResult(testId: string, bucket: string, status: Status, metrics: seq<Option<real>>, warnings: seq<string>)

  predicate IsActive(status: Status) {
    status.Queued? || status.Running?
  }

  predicate IsTerminal(status: Status) {
    status.Completed? || status.Failed? || status.Cancelled?
  }

  function StatusText(status: Status): string {
    match status
    case Queued => "queued"
    case Running => "running"
    case Completed => "completed"
    case Failed => "failed"
    case Cancelled => "cancelled"
  }

  /** The result shown for a record; an unfinished run without warnings gets one naming its status. */
  function ResultOf(r: TestRecord): TestResult
    requires r.summary.Some?
  {
    var s := r.summary.value;
    TestResult(s.testId, s.bucket, s.status, r.metrics,
               if !s.status.Completed? && r.warnings == [] then
                 ["strategy bucket test ended with status " + StatusText(s.status)]
               else r.warnings)
  }

  // ----- The declarative view -------------------------------------------------------------------------

  /** Record i parses and no later record parses to the same test. */
  predicate IsLatest(records: seq<TestRecord>, i: nat)
    requires i < |records|
  {
    && records[i].summary.Some?
    && forall j :: i < j < |records| && records[j].summary.Some? ==> records[j].summary.value.testId != records[i].summary.value.testId
  }

  /** The latest record of every test at or after lo whose status is wanted, newest first. */
  function LatestFrom(records: seq<TestRecord>, lo: nat, wanted: Status -> bool): (latest: seq<TestRecord>)
    requires lo <= |records|
    ensures forall i :: 0 <= i < |latest| ==> latest[i].summary.Some?
    decreases |records| - lo
  {
    if lo == |records| then []
    else
      var later := LatestFrom(records, lo + 1, wanted);
      if IsLatest(records, lo) && wanted(records[lo].summary.value.status) then later + [records[lo]] else later
  }

  function Limited<T>(xs: seq<T>, limit: int): seq<T> {
    if limit <= 0 then [] else if |xs| <= limit then xs else xs[..limit]
  }

  function Summaries(records: seq<TestRecord>): (s: seq<Summary>)
    requires forall i :: 0 <= i < |records| ==> records[i].summary.Some?
    ensures |s| == |records|
  {
    seq(|records|, i requires 0 <= i < |records| => records[i].summary.value)
  }

  function Results(records: seq<TestRecord>): (s: seq<TestResult>)
    requires forall i :: 0 <= i < |records| ==> records[i].summary.Some?
    ensures |s| == |records|
  {
    seq(|records|, i requires 0 <= i < |records| => ResultOf(records[i]))
  }

  lemma {:induction false} LatestFromIsPrefix(records: seq<TestRecord>, lo: nat, hi: nat, wanted: Status -> bool)
    requires lo <= hi <= |records|
    ensures LatestFrom(records, hi, wanted) <= LatestFrom(records, lo, wanted)
    decreases hi - lo
  {
    if lo < hi {
      LatestFromIsPrefix(records, lo + 1, hi, wanted);
    }
  }

  /** The list holds exactly the wanted latest records, the newest first; indices says where they stand. */
  lemma {:induction false} NewestFirst(records: seq<TestRecord>, lo: nat, wanted: Status -> bool) returns (indices: seq<nat>)
    requires lo <= |records|
    ensures |indices| == |LatestFrom(records, lo, wanted)|
    ensures forall k :: 0 <= k < |indices| ==>
              lo <= indices[k] < |records| && LatestFrom(records, lo, wanted)[k] == records[indices[k]]
    ensures forall k, l :: 0 <= k < l < |indices| ==> indices[k] > indices[l]
    ensures forall i :: lo <= i < |records| ==>
              (i in indices <==> IsLatest(records, i) && wanted(records[i].summary.value.status))
    decreases |records| - lo
  {
    if lo == |records| {
      indices := [];
    } else {
      indices := NewestFirst(records, lo + 1, wanted);
      assert lo !in indices;
      if IsLatest(records, lo) && wanted(records[lo].summary.value.status) {
        indices := indices + [lo];
      }
    }
  }

  // ----- The scans ---------------------------------------------------------------------------------------

  ghost predicate SeenIds(records: seq<TestRecord>, lo: int, seen: set<string>) {
    forall id :: id in seen <==>
      exists i :: 0 <= lo <= i < |records| && records[i].summary.Some? && records[i].summary.value.testId == id
  }

  method LatestActiveStrategyBucketTests(records: seq<TestRecord>, limit: int) returns (active: seq<Summary>)
    ensures active == Limited(Summaries(LatestFrom(records, 0, IsActive)), limit)
  {
    active := [];
    var seen: set<string> := {};
    var index := |records|;
    while index > 0
      invariant 0 <= index <= |records| && SeenIds(records, index, seen)
      invariant |active| == |LatestFrom(records, index, IsActive)| && (|active| == 0 || |active| <= limit)
      invariant forall i :: 0 <= i < |active| ==> LatestFrom(records, index, IsActive)[i].summary == Some(active[i])
    {
      if |active| >= limit {
        break;
      }
      index := index - 1;
      var summary := records[index].summary;
      if summary.None? || summary.value.testId in seen {
        continue;
      }
      seen := seen + {summary.value.testId};
      if IsActive(summary.value.status) {
        active := active + [summary.value];
      }
    }
    LatestFromIsPrefix(records, 0, index, IsActive);
  }

  method LatestStrategyBucketTestResults(records: seq<TestRecord>, limit: int) returns (results: seq<TestResult>)
    ensures results == Limited(Results(LatestFrom(records, 0, IsTerminal)), limit)
  {
    results := [];
    var seen: set<string> := {};
    var index := |records|;
    while index > 0
      invariant 0 <= index <= |records| && SeenIds(records, index, seen)
      invariant |results| == |LatestFrom(records, index, IsTerminal)| && (|results| == 0 || |results| <= limit)
      invariant forall i :: 0 <= i < |results| ==>
                  results[i] == ResultOf(LatestFrom(records, index, IsTerminal)[i])
    {
      if |results| >= limit {
        break;
      }
      index := index - 1;
      var summary := records[index].summary;
      if summary.None? || summary.value.testId in seen {
        continue;
      }
      seen := seen + {summary.value.testId};
      if !IsTerminal(summary.value.status) {
        continue;
      }
      results := results + [ResultOf(records[index])];
    }
    LatestFromIsPrefix(records, 0, index, IsTerminal);
  }

  /** The newest parseable record with the id. */
  function ById(records: seq<TestRecord>, testId: string): Option<Summary> {
    if |records| == 0 then None
    else
      var s := records[|records| - 1].summary;
      if s.Some? && s.value.testId == testId then s else ById(records[..|records| - 1], testId)
  }

  method LatestStrategyBucketTestById(records: seq<TestRecord>, testId: string) returns (found: Option<Summary>)
    ensures found == ById(records, testId)
  {
    var index := |records|;
    assert records[..|records|] == records;
    while index > 0
      invariant 0 <= index <= |records| && ById(records[..index], testId) == ById(records, testId)
    {
      index := index - 1;
      assert records[..index + 1][..index] == records[..index];
      var summary := records[index].summary;
      if summary.Some? && summary.value.testId == testId {
        return summary;
      }
    }
    return None;
  }

  // ----- How the three views fit together -----------------------------------------------------------------

  lemma {:induction false} ByIdIsLatest(records: seq<TestRecord>, i: nat)
    requires i < |records| && IsLatest(records, i)
    ensures ById(records, records[i].summary.value.testId) == records[i].summary
  {
    if i < |records| - 1 {
      ByIdIsLatest(records[..|records| - 1], i);
    }
  }

  lemma LimitedMember<T>(xs: seq<T>, limit: int, k: nat)
    requires k < |Limited(xs, limit)|
    ensures k < |xs| && Limited(xs, limit)[k] == xs[k]
  {
  }

  /** Looking up a listed test by its id finds the very summary that is listed. */
  lemma ListedTestsAreFound(records: seq<TestRecord>, wanted: Status -> bool, limit: int, k: nat)
    requires k < |Limited(Summaries(LatestFrom(records, 0, wanted)), limit)|
    ensures var s := Limited(Summaries(LatestFrom(records, 0, wanted)), limit)[k];
            ById(records, s.testId) == Some(s) && wanted(s.status)
  {
    LimitedMember(Summaries(LatestFrom(records, 0, wanted)), limit, k);
    var indices := NewestFirst(records, 0, wanted);
    assert indices[k] in indices;
    ByIdIsLatest(records, indices[k]);
  }

  /** No test is listed twice. */
  lemma ListedTestsAreDistinct(records: seq<TestRecord>, wanted: Status -> bool, limit: int, k: nat, l: nat)
    requires k < l < |Limited(Summaries(LatestFrom(records, 0, wanted)), limit)|
    ensures var listed := Limited(Summaries(LatestFrom(records, 0, wanted)), limit); listed[k].testId != listed[l].testId
  {
    LimitedMember(Summaries(LatestFrom(records, 0, wanted)), limit, k);
    LimitedMember(Summaries(LatestFrom(records, 0, wanted)), limit, l);
    var indices := NewestFirst(records, 0, wanted);
    assert indices[k] in indices && indices[l] in indices;
    assert IsLatest(records, indices[l]);
  }

  /** No test is both in the active list and in the result list, whatever the limits. */
  lemma ListsAreDisjoint(records: seq<TestRecord>, activeLimit: int, resultLimit: int, k: nat, l: nat)
    requires k < |Limited(Summaries(LatestFrom(records, 0, IsActive)), activeLimit)|
    requires l < |Limited(Results(LatestFrom(records, 0, IsTerminal)), resultLimit)|
    ensures Limited(Summaries(LatestFrom(records, 0, IsActive)), activeLimit)[k].testId
            != Limited(Results(LatestFrom(records, 0, IsTerminal)), resultLimit)[l].testId
  {
    ListedTestsAreFound(records, IsActive, activeLimit, k);
    ListedTestsAreFound(records, IsTerminal, resultLimit, l);
    LimitedMember(Summaries(LatestFrom(records, 0, IsTerminal)), resultLimit, l);
    LimitedMember(Results(LatestFrom(records, 0, IsTerminal)), resultLimit, l);
  }

  // ----- What is listed, told by the records -------------------------------------------------------------------

  /** Record i parses, has one of the wanted statuses, and no later record parses to its test. */
  predicate Listed(records: seq<TestRecord>, i: nat, wanted: set<Status>)
    requires i < |records|
  {
    && records[i].summary.Some? && records[i].summary.value.status in wanted
    && !exists j :: i < j < |records| && records[j].summary.Some? && records[j].summary.value.testId == records[i].summary.value.testId
  }

  lemma LimitedSize<T>(xs: seq<T>, limit: int)
    ensures |Limited(xs, limit)| == if limit <= 0 then 0 else if limit < |xs| then limit else |xs|
  {
  }

  /** The active tests are the queued and running ones, newest first; indices are their records, and as many as the limit
      allows are shown. */
  lemma ActiveTestsTold(records: seq<TestRecord>, limit: int) returns (indices: seq<nat>)
    ensures forall i :: 0 <= i < |records| ==> (i in indices <==> Listed(records, i, {Queued, Running}))
    ensures forall k, l :: 0 <= k < l < |indices| ==> indices[k] > indices[l]
    ensures var shown := Limited(Summaries(LatestFrom(records, 0, IsActive)), limit);
            && |shown| == (if limit <= 0 then 0 else if limit < |indices| then limit else |indices|)
            && forall k :: 0 <= k < |shown| ==> indices[k] < |records| && records[indices[k]].summary == Some(shown[k])
  {
    indices := NewestFirst(records, 0, IsActive);
    LimitedSize(Summaries(LatestFrom(records, 0, IsActive)), limit);
  }

  /** The warnings shown for a record are its own, unless it has none and its test did not complete. */
  predicate WarningsShown(shown: seq<string>, own: seq<string>, status: Status) {
    if own != [] || status == Completed then shown == own
    else
      shown == ["strategy bucket test ended with status " +
                (match status
                 case Queued => "queued"
                 case Running => "running"
                 case Failed => "failed"
                 case Cancelled => "cancelled"
                 case Completed => "")]
  }

  /** The results are those of completed, failed and cancelled tests, newest first, each with the fields of its record. */
  lemma ResultsTold(records: seq<TestRecord>, limit: int) returns (indices: seq<nat>)
    ensures forall i :: 0 <= i < |records| ==> (i in indices <==> Listed(records, i, {Completed, Failed, Cancelled}))
    ensures forall k, l :: 0 <= k < l < |indices| ==> indices[k] > indices[l]
    ensures var shown := Limited(Results(LatestFrom(records, 0, IsTerminal)), limit);
            && |shown| == (if limit <= 0 then 0 else if limit < |indices| then limit else |indices|)
            && forall k :: 0 <= k < |shown| ==>
                 && indices[k] < |records| && records[indices[k]].summary.Some?
                 && var r, s := records[indices[k]], records[indices[k]].summary.value;
                    && shown[k].testId == s.testId && shown[k].bucket == s.bucket && shown[k].status == s.status
                    && shown[k].metrics == r.metrics && WarningsShown(shown[k].warnings, r.warnings, s.status)
  {
    indices := NewestFirst(records, 0, IsTerminal);
    LimitedSize(Results(LatestFrom(records, 0, IsTerminal)), limit);
  }
}
