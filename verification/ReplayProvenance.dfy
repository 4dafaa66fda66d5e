/** The provenance reader: consistency of batch manifests with their append-only run logs, over a whole directory. */
module ReplayProvenance {
  import opened Numbers
  import opened Sequences

  const MAX_ENTRIES := 256
  const MANIFEST_BYTES := 256 * 1024
  const INDEX_BYTES := 4 * 1024 * 1024
  const MAX_LINES := 10000
  const TOTAL_BYTES := 8 * 1024 * 1024

  datatype Reason = Invalid | Ambiguous | Limit | Blocked

  datatype RowStatus = Completed | CompletedWithFailures | Skipped | Failed
  datatype BatchStatus = Running | BatchCompleted | BatchCompletedWithFailures

  /** The five fields a row and the active run of a manifest must agree on. */
  datatype Identity = Identity(runId: string, runIndex: int, runSeed: string, storageBaseDir: string, startedAt: string)

  /** wellFormed stands for the checks of single fields (text, timestamps, mode, batch id);
      pathInside for the stored path lying under the batch's runs directory. */
  datatype Row = Row(id: Identity, status: RowStatus, wellFormed: bool, pathInside: bool)

  datatype Active = Active(id: Identity, wellFormed: bool, pathInside: bool)

  datatype Manifest = Manifest(
    batchId: string, status: BatchStatus, wellFormed: bool, runCount: int,
    completedCount: int, skippedCount: int, failedCount: int, active: Option<Active>)

  /** One line of the log: blank, not a JSON record, or a record. */
  datatype Line = Blank | Garbage | Record(row: Row)

  datatype ManifestFile = ManifestFile(size: nat, content: Option<Manifest>)   // content None: not a JSON record
  datatype LogFile = LogFile(size: nat, lines: seq<Line>, endsWithNewline: bool)

  /** A directory entry; boundName says that the directory carries the sanitized batch id. */
  datatype Entry = Entry(isDirectory: bool, manifest: Option<ManifestFile>, log: Option<LogFile>, boundName: bool)

  datatype Match = Match(batch: Manifest, run: Identity, active: bool)

  datatype Outcome = Found(match_: Match) | NotFound | Refused(reason: Reason)

  // ----- What a consistent batch is -----------------------------------------------------------------

  function Rows(lines: seq<Line>): seq<Row> {
    if |lines| == 0 then []
    else
      var last := lines[|lines| - 1];
      Rows(lines[..|lines| - 1]) + if last.Record? then [last.row] else []
  }

  predicate IsCompleted(row: Row) {
    row.status.Completed? || row.status.CompletedWithFailures?
  }

  function CompletedIn(rows: seq<Row>): (n: nat)
    ensures n <= |rows|
  {
    if |rows| == 0 then 0 else CompletedIn(rows[..|rows| - 1]) + if IsCompleted(rows[|rows| - 1]) then 1 else 0
  }

  function StatusIn(rows: seq<Row>, status: RowStatus): (n: nat)
    ensures n <= |rows|
  {
    if |rows| == 0 then 0 else StatusIn(rows[..|rows| - 1], status) + if rows[|rows| - 1].status == status then 1 else 0
  }

  predicate ManifestOk(m: Manifest) {
    && m.wellFormed && m.runCount > 0
    && m.completedCount >= 0 && m.skippedCount >= 0 && m.failedCount >= 0
    && m.completedCount + m.skippedCount + m.failedCount <= m.runCount
    && (m.status != Running ==> m.active.None?)
    && (m.active.Some? ==> m.active.value.wellFormed && 0 <= m.active.value.id.runIndex < m.runCount)
  }

  predicate RowOk(m: Manifest, row: Row) {
    && row.wellFormed && row.pathInside && 0 <= row.id.runIndex < m.runCount
    && (m.active.Some? && (row.id.runId == m.active.value.id.runId || row.id.runIndex == m.active.value.id.runIndex) ==>
          row.id == m.active.value.id)
  }

  predicate Distinct(rows: seq<Row>) {
    forall i, j :: 0 <= i < j < |rows| ==> rows[i].id.runId != rows[j].id.runId && rows[i].id.runIndex != rows[j].id.runIndex
  }

  predicate HasIndex(rows: seq<Row>, index: int) {
    exists i :: 0 <= i < |rows| && rows[i].id.runIndex == index
  }

  /** The terminal status a finished batch must carry. */
  function TerminalStatus(rows: seq<Row>): BatchStatus {
    if StatusIn(rows, Failed) > 0 || StatusIn(rows, CompletedWithFailures) > 0 then BatchCompletedWithFailures
    else BatchCompleted
  }

  /** Manifest counts never claim more than the log shows, and a finished manifest claims exactly it. */
  predicate CountsOk(m: Manifest, rows: seq<Row>) {
    && m.completedCount <= CompletedIn(rows) && m.skippedCount <= StatusIn(rows, Skipped)
    && m.failedCount <= StatusIn(rows, Failed)
    && (m.status != Running ==>
          && |rows| == m.runCount && m.completedCount == CompletedIn(rows) && m.skippedCount == StatusIn(rows, Skipped)
          && m.failedCount == StatusIn(rows, Failed) && m.status == TerminalStatus(rows))
  }

  /** The logged indices are a prefix 0, ..., n - 1 in some order, and the active run is logged or next. */
  predicate IndicesOk(m: Manifest, rows: seq<Row>) {
    && (forall k :: 0 <= k < |rows| ==> HasIndex(rows, k))
    && (m.active.Some? ==> HasIndex(rows, m.active.value.id.runIndex) || m.active.value.id.runIndex == |rows|)
  }

  predicate Consistent(m: Manifest, rows: seq<Row>) {
    && ManifestOk(m) && (m.active.Some? ==> m.active.value.pathInside)
    && (forall i :: 0 <= i < |rows| ==> RowOk(m, rows[i]))
    && Distinct(rows) && CountsOk(m, rows) && IndicesOk(m, rows)
  }

  predicate LinesOk(log: LogFile) {
    && |log.lines| <= MAX_LINES + (if log.endsWithNewline then 1 else 0)
    && Garbage !in log.lines
  }

  predicate EntryOk(e: Entry) {
    e.isDirectory ==>
      && (e.manifest.None? ==> e.log.None?)
      && (e.manifest.Some? ==>
            && e.manifest.value.content.Some? && e.boundName && e.log.Some?
            && LinesOk(e.log.value) && Consistent(e.manifest.value.content.value, Rows(e.log.value.lines)))
      && (e.manifest.Some? ==> e.manifest.value.size <= MANIFEST_BYTES)
      && (e.log.Some? ==> e.log.value.size <= INDEX_BYTES)
  }

  function FindRow(rows: seq<Row>, runId: string): (r: Option<Row>)
    ensures r.Some? ==> r.value in rows && r.value.id.runId == runId
    ensures r.None? ==> forall i :: 0 <= i < |rows| ==> rows[i].id.runId != runId
  {
    if |rows| == 0 then None
    else if rows[|rows| - 1].id.runId == runId then Some(rows[|rows| - 1])
    else FindRow(rows[..|rows| - 1], runId)
  }

  /** The run a consistent batch holds under the requested id, terminal row before active run. */
  function Holding(m: Manifest, rows: seq<Row>, runId: string): Option<Match> {
    var child := FindRow(rows, runId);
    if child.Some? then Some(Match(m, child.value.id, false))
    else if m.active.Some? && m.active.value.id.runId == runId then Some(Match(m, m.active.value.id, true))
    else None
  }

  // ----- What is found, told by the lines of the log and the manifest --------------------------------

  predicate Logged(lines: seq<Line>, runId: string) {
    exists i :: 0 <= i < |lines| && lines[i].Record? && lines[i].row.id.runId == runId
  }

  predicate LoggedAs(lines: seq<Line>, id: Identity) {
    exists i :: 0 <= i < |lines| && lines[i].Record? && lines[i].row.id == id
  }

  predicate ActiveIs(m: Manifest, runId: string) {
    m.active.Some? && m.active.value.id.runId == runId
  }

  /** The match names this batch and the requested run: its logged identity, or that of the active run if none is logged. */
  predicate Names(match_: Match, m: Manifest, lines: seq<Line>, runId: string) {
    && match_.batch == m && match_.run.runId == runId && (match_.active <==> !Logged(lines, runId))
    && if match_.active then m.active.Some? && m.active.value.id == match_.run else LoggedAs(lines, match_.run)
  }

  lemma {:induction false} RowsAreRecords(lines: seq<Line>, row: Row)
    ensures row in Rows(lines) <==> exists i :: 0 <= i < |lines| && lines[i] == Record(row)
  {
    if |lines| > 0 {
      var before, last := lines[..|lines| - 1], lines[|lines| - 1];
      RowsAreRecords(before, row);
      assert forall i :: 0 <= i < |before| ==> before[i] == lines[i];
      if last == Record(row) {
        assert lines[|before|] == Record(row);
      }
      if i :| 0 <= i < |before| && before[i] == Record(row) {
        assert lines[i] == Record(row);
      }
    }
  }

  /** A batch holds the requested run exactly when a line of its log or its active run has the id. */
  lemma HoldingMeaning(m: Manifest, lines: seq<Line>, runId: string)
    ensures var found := Holding(m, Rows(lines), runId);
            && (found.Some? <==> Logged(lines, runId) || ActiveIs(m, runId))
            && (found.Some? ==> Names(found.value, m, lines, runId))
  {
    var child := FindRow(Rows(lines), runId);
    if child.Some? {
      RowsAreRecords(lines, child.value);
      var i :| 0 <= i < |lines| && lines[i] == Record(child.value);
      assert lines[i].Record? && lines[i].row.id.runId == runId && lines[i].row.id == child.value.id;
    } else if i :| 0 <= i < |lines| && lines[i].Record? && lines[i].row.id.runId == runId {
      RowsAreRecords(lines, lines[i].row);
      assert lines[i] == Record(lines[i].row);
    }
  }

  // ----- The reader's loops ---------------------------------------------------------------------------

  class Budget {
    var bytes: nat

    constructor ()
      ensures bytes == 0
    {
      bytes := 0;
    }

    /** `readText` on a file of the given size: false is its `limit` failure. */
    method Charge(size: nat, cap: nat) returns (ok: bool)
      modifies this
      ensures ok <==> size <= cap && old(bytes) + size <= TOTAL_BYTES
      ensures bytes == if ok then old(bytes) + size else old(bytes)
    {
      if size > cap || size > TOTAL_BYTES - bytes {
        return false;
      }
      bytes := bytes + size;
      return true;
    }
  }

  predicate Disagrees(m: Manifest, row: Row) {
    && m.active.Some? && (row.id.runId == m.active.value.id.runId || row.id.runIndex == m.active.value.id.runIndex)
    && row.id != m.active.value.id
  }

  ghost predicate Tallied(rows: seq<Row>, ids: set<string>, indices: set<int>, completed: nat, skipped: nat, failed: nat,
                          withFailures: bool) {
    && ids == (set i | 0 <= i < |rows| :: rows[i].id.runId) && indices == (set i | 0 <= i < |rows| :: rows[i].id.runIndex)
    && |ids| == |rows| == |indices|
    && completed == CompletedIn(rows) && skipped == StatusIn(rows, Skipped) && failed == StatusIn(rows, Failed)
    && (withFailures <==> StatusIn(rows, CompletedWithFailures) > 0)
  }

  lemma TallyStep(rows: seq<Row>, row: Row, ids: set<string>, indices: set<int>, completed: nat, skipped: nat, failed: nat,
                  withFailures: bool)
    requires Tallied(rows, ids, indices, completed, skipped, failed, withFailures)
    requires row.id.runId !in ids && row.id.runIndex !in indices
    ensures Tallied(rows + [row], ids + {row.id.runId}, indices + {row.id.runIndex},
                    completed + (if IsCompleted(row) then 1 else 0), skipped + (if row.status.Skipped? then 1 else 0),
                    failed + (if row.status.Failed? then 1 else 0), withFailures || row.status.CompletedWithFailures?)
  {
    CountsAppend(rows, row);
    var more := rows + [row];
    assert forall i :: 0 <= i < |more| ==> more[i] == if i < |rows| then rows[i] else row;
  }

  lemma CountsAppend(rows: seq<Row>, row: Row)
    ensures CompletedIn(rows + [row]) == CompletedIn(rows) + if IsCompleted(row) then 1 else 0
    ensures forall s :: StatusIn(rows + [row], s) == StatusIn(rows, s) + if row.status == s then 1 else 0
  {
    assert (rows + [row])[..|rows|] == rows;
  }

  lemma RowsSnoc(lines: seq<Line>, i: nat)
    requires i < |lines|
    ensures Rows(lines[..i + 1]) ==
            if lines[i].Record? then Rows(lines[..i]) + [lines[i].row] else Rows(lines[..i])
  {
    assert lines[..i + 1][..i] == lines[..i];
  }

  lemma {:induction false} RowsPrefix(lines: seq<Line>, i: nat)
    requires i <= |lines|
    ensures Rows(lines[..i]) <= Rows(lines)
    decreases |lines| - i
  {
    if i == |lines| {
      assert lines[..i] == lines;
    } else {
      RowsSnoc(lines, i);
      RowsPrefix(lines, i + 1);
    }
  }

  /** What the per-line loop hands on when no line was refused. */
  datatype Scanned = Scanned(child: Option<Row>, ids: set<string>, indices: set<int>,
                             completed: nat, skipped: nat, failed: nat, withFailures: bool)

  ghost predicate Describes(s: Scanned, rows: seq<Row>, runId: string) {
    && Tallied(rows, s.ids, s.indices, s.completed, s.skipped, s.failed, s.withFailures)
    && s.child == FindRow(rows, runId)
  }

  lemma FindRowSnoc(rows: seq<Row>, row: Row, runId: string)
    ensures FindRow(rows + [row], runId) == if row.id.runId == runId then Some(row) else FindRow(rows, runId)
  {
  }

  predicate LinesAgree(m: Manifest, lines: seq<Line>) {
    && Garbage !in lines && Distinct(Rows(lines))
    && forall i :: 0 <= i < |Rows(lines)| ==> RowOk(m, Rows(lines)[i])
  }

  predicate Seen(rows: seq<Row>, row: Row) {
    exists i :: 0 <= i < |rows| && (rows[i].id.runId == row.id.runId || rows[i].id.runIndex == row.id.runIndex)
  }

  lemma AgreeStep(m: Manifest, lines: seq<Line>, k: nat)
    requires k < |lines| && LinesAgree(m, lines[..k])
    ensures LinesAgree(m, lines[..k + 1]) <==>
            match lines[k]
            case Blank => true
            case Garbage => false
            case Record(row) => RowOk(m, row) && !Seen(Rows(lines[..k]), row)
  {
    RowsSnoc(lines, k);
    assert lines[..k + 1] == lines[..k] + [lines[k]];
    if lines[k].Record? {
      var before, after := Rows(lines[..k]), Rows(lines[..k + 1]);
      DistinctSnoc(before, lines[k].row);
      assert after[|before|] == lines[k].row && forall i :: 0 <= i < |before| ==> after[i] == before[i];
    }
  }

  lemma DistinctSnoc(rows: seq<Row>, row: Row)
    requires Distinct(rows)
    ensures Distinct(rows + [row]) <==> !Seen(rows, row)
  {
    var more := rows + [row];
    if Seen(rows, row) {
      var i :| 0 <= i < |rows| && (rows[i].id.runId == row.id.runId || rows[i].id.runIndex == row.id.runIndex);
      assert more[i] == rows[i] && more[|rows|] == row;
    }
  }

  lemma AgreePrefix(m: Manifest, lines: seq<Line>, k: nat)
    requires k <= |lines| && LinesAgree(m, lines)
    ensures LinesAgree(m, lines[..k])
  {
    RowsPrefix(lines, k);
  }

  lemma AgreeNext(m: Manifest, lines: seq<Line>, k: nat)
    requires k < |lines| && LinesAgree(m, lines[..k])
    ensures LinesAgree(m, lines[..k + 1]) <==>
            match lines[k]
            case Blank => true
            case Garbage => false
            case Record(row) => RowOk(m, row) && !Seen(Rows(lines[..k]), row)
    ensures LinesAgree(m, lines) ==> LinesAgree(m, lines[..k + 1])
  {
    AgreeStep(m, lines, k);
    if LinesAgree(m, lines) {
      AgreePrefix(m, lines, k + 1);
    }
  }

  /** The per-line loop: the checks of each line against the manifest and the lines before it. */
  method ScanLines(m: Manifest, lines: seq<Line>, runId: string) returns (failure: Option<Reason>, s: Scanned)
    ensures failure.None? <==> LinesAgree(m, lines)
    ensures failure.None? ==> Describes(s, Rows(lines), runId)
  {
    failure, s := None, Scanned(None, {}, {}, 0, 0, 0, false);
    for k := 0 to |lines|
      invariant LinesAgree(m, lines[..k]) && Describes(s, Rows(lines[..k]), runId)
    {
      AgreeNext(m, lines, k);
      RowsSnoc(lines, k);
      match lines[k] {
        case Blank =>
        case Garbage => return Some(Invalid), s;
        case Record(row) =>
          if !row.wellFormed || !(0 <= row.id.runIndex < m.runCount) {
            return Some(Invalid), s;
          }
          if !row.pathInside {
            return Some(Blocked), s;
          }
          if Disagrees(m, row) || row.id.runId in s.ids || row.id.runIndex in s.indices {
            return Some(Ambiguous), s;
          }
          s := Extend(s, Rows(lines[..k]), row, runId);
      }
    }
    assert lines[..|lines|] == lines;
  }

  /** Remembering one more row. */
  method Extend(s: Scanned, ghost rows: seq<Row>, row: Row, runId: string) returns (t: Scanned)
    requires Describes(s, rows, runId) && row.id.runId !in s.ids && row.id.runIndex !in s.indices
    ensures Describes(t, rows + [row], runId)
  {
    TallyStep(rows, row, s.ids, s.indices, s.completed, s.skipped, s.failed, s.withFailures);
    FindRowSnoc(rows, row, runId);
    t := Scanned(if row.id.runId == runId then Some(row) else s.child,
                 s.ids + {row.id.runId}, s.indices + {row.id.runIndex},
                 s.completed + (if IsCompleted(row) then 1 else 0), s.skipped + (if row.status.Skipped? then 1 else 0),
                 s.failed + (if row.status.Failed? then 1 else 0), s.withFailures || row.status.CompletedWithFailures?);
  }

  /** The checks after the last line, and the run this batch contributes. */
  method CheckBatch(m: Manifest, lines: seq<Line>, runId: string) returns (failure: Option<Reason>, found: Option<Match>)
    requires ManifestOk(m)
    ensures failure.None? <==>
            Garbage !in lines && Consistent(m, Rows(lines))
    ensures failure.None? ==> found == Holding(m, Rows(lines), runId)
    ensures failure.None? ==> (found.Some? <==> Logged(lines, runId) || ActiveIs(m, runId))
    ensures failure.None? && found.Some? ==> Names(found.value, m, lines, runId)
  {
    HoldingMeaning(m, lines, runId);
    found := None;
    if m.active.Some? && !m.active.value.pathInside {
      return Some(Blocked), found;
    }
    var s: Scanned;
    failure, s := ScanLines(m, lines, runId);
    if failure.Some? {
      return failure, found;
    }
    ghost var rows := Rows(lines);
    if m.completedCount > s.completed || m.skippedCount > s.skipped || m.failedCount > s.failed {
      return Some(Invalid), found;
    }
    if m.status != Running &&
       (|s.ids| != m.runCount || s.completed != m.completedCount || s.skipped != m.skippedCount || s.failed != m.failedCount
        || m.status != if s.failed > 0 || s.withFailures then BatchCompletedWithFailures else BatchCompleted) {
      return Some(Invalid), found;
    }
    for index := 0 to |s.indices|
      invariant forall k :: 0 <= k < index ==> HasIndex(rows, k)
    {
      if index !in s.indices {
        assert !HasIndex(rows, index);
        return Some(Invalid), found;
      }
    }
    if m.active.Some? && m.active.value.id.runIndex !in s.indices && m.active.value.id.runIndex != |s.indices| {
      assert !HasIndex(rows, m.active.value.id.runIndex);
      return Some(Invalid), found;
    }
    assert m.active.Some? && m.active.value.id.runIndex in s.indices ==> HasIndex(rows, m.active.value.id.runIndex);
    if s.child.Some? {
      found := Some(Match(m, s.child.value.id, false));
    } else if m.active.Some? && m.active.value.id.runId == runId {
      found := Some(Match(m, m.active.value.id, true));
    }
  }

  // ----- The directory ------------------------------------------------------------------------------------

  /** The bytes one entry charges to the budget. */
  function Charged(e: Entry): nat {
    if !e.isDirectory then 0
    else (if e.manifest.Some? then e.manifest.value.size else 0) + (if e.log.Some? then e.log.value.size else 0)
  }

  function TotalCharged(entries: seq<Entry>): nat {
    SumBy(entries, Charged)
  }

  /** The match an acceptable entry contributes. */
  function Contribution(e: Entry, runId: string): Option<Match> {
    if e.isDirectory && e.manifest.Some? && e.manifest.value.content.Some? && e.log.Some? then
      Holding(e.manifest.value.content.value, Rows(e.log.value.lines), runId)
    else None
  }

  function Contributing(runId: string): Entry -> seq<Match> {
    (e: Entry) => var c := Contribution(e, runId); if c.Some? then [c.value] else []
  }

  function Contributions(entries: seq<Entry>, runId: string): seq<Match> {
    FlatMap(entries, Contributing(runId))
  }

  /** Every entry is consistent, everything fits the limits, and at most one batch holds the requested run. */
  predicate Acceptable(entries: seq<Entry>, runId: string) {
    && |entries| <= MAX_ENTRIES && (forall e :: e in entries ==> EntryOk(e))
    && TotalCharged(entries) <= TOTAL_BYTES && |Contributions(entries, runId)| <= 1
  }

  lemma EntriesSnoc(entries: seq<Entry>, i: nat, runId: string)
    requires i < |entries|
    ensures TotalCharged(entries[..i + 1]) == TotalCharged(entries[..i]) + Charged(entries[i])
    ensures Contributions(entries[..i + 1], runId) ==
            if Contribution(entries[i], runId).Some? then
              Contributions(entries[..i], runId) + [Contribution(entries[i], runId).value]
            else Contributions(entries[..i], runId)
  {
    assert entries[..i + 1][..i] == entries[..i];
  }

  lemma {:induction false} AcceptablePrefix(entries: seq<Entry>, i: nat, runId: string)
    requires i <= |entries| && Acceptable(entries, runId)
    ensures Acceptable(entries[..i], runId)
    decreases |entries| - i
  {
    if i == |entries| {
      assert entries[..i] == entries;
    } else {
      AcceptablePrefix(entries, i + 1, runId);
      EntriesSnoc(entries, i, runId);
      PrefixMembers(entries, i);
    }
  }

  lemma PrefixMembers(entries: seq<Entry>, i: nat)
    requires i < |entries|
    ensures forall e :: e in entries[..i] ==> e in entries[..i + 1]
  {
    TakeNext(entries, i);
  }

  /** One directory entry: read both files within the budget, then check them. */
  method ScanEntry(e: Entry, runId: string, budget: Budget) returns (failure: Option<Reason>, found: Option<Match>)
    requires budget.bytes <= TOTAL_BYTES
    modifies budget
    ensures failure.None? <==> EntryOk(e) && old(budget.bytes) + Charged(e) <= TOTAL_BYTES
    ensures failure.None? ==> budget.bytes == old(budget.bytes) + Charged(e) && found == Contribution(e, runId)
  {
    found := None;
    if !e.isDirectory {
      return None, None;
    }
    if e.manifest.Some? {
      var ok := budget.Charge(e.manifest.value.size, MANIFEST_BYTES);
      if !ok {
        return Some(Limit), None;
      }
      if e.manifest.value.content.None? {
        return Some(Invalid), None;
      }
    }
    if e.log.Some? {
      var ok := budget.Charge(e.log.value.size, INDEX_BYTES);
      if !ok {
        return Some(Limit), None;
      }
    }
    if e.manifest.None? {
      if e.log.Some? {
        return Some(Invalid), None;
      }
      return None, None;
    }
    var m := e.manifest.value.content.value;
    if !ManifestOk(m) || !e.boundName || e.log.None? {
      return Some(Invalid), None;
    }
    if |e.log.value.lines| > MAX_LINES + (if e.log.value.endsWithNewline then 1 else 0) {
      return Some(Limit), None;
    }
    failure, found := CheckBatch(m, e.log.value.lines, runId);
  }

  lemma MembersNext(entries: seq<Entry>, i: nat)
    requires i < |entries|
    ensures (forall e :: e in entries[..i + 1] ==> EntryOk(e)) <==> (forall e :: e in entries[..i] ==> EntryOk(e)) && EntryOk(entries[i])
  {
    TakeNext(entries, i);
    assert forall e :: e in entries[..i + 1] <==> e in entries[..i] || e == entries[i];
  }

  lemma AcceptableStep(entries: seq<Entry>, i: nat, runId: string)
    requires i < |entries| && Acceptable(entries[..i], runId)
    ensures Acceptable(entries[..i + 1], runId) <==>
            && i + 1 <= MAX_ENTRIES && EntryOk(entries[i])
            && TotalCharged(entries[..i]) + Charged(entries[i]) <= TOTAL_BYTES
            && (Contribution(entries[i], runId).Some? ==> Contributions(entries[..i], runId) == [])
    ensures Acceptable(entries, runId) ==> Acceptable(entries[..i + 1], runId)
  {
    EntriesSnoc(entries, i, runId);
    MembersNext(entries, i);
    if Acceptable(entries, runId) {
      AcceptablePrefix(entries, i + 1, runId);
    }
  }

  predicate IsBatch(e: Entry) {
    e.isDirectory && e.manifest.Some? && e.manifest.value.content.Some? && e.log.Some?
  }

  /** The entry is a batch with the requested run, logged or active. */
  predicate HasRun(e: Entry, runId: string) {
    IsBatch(e) && (Logged(e.log.value.lines, runId) || ActiveIs(e.manifest.value.content.value, runId))
  }

  predicate NamedBy(e: Entry, runId: string, match_: Match) {
    IsBatch(e) && Names(match_, e.manifest.value.content.value, e.log.value.lines, runId)
  }

  lemma ContributionMeaning(e: Entry, runId: string)
    ensures Contribution(e, runId).Some? <==> HasRun(e, runId)
    ensures Contribution(e, runId).Some? ==> NamedBy(e, runId, Contribution(e, runId).value)
  {
    if IsBatch(e) {
      HoldingMeaning(e.manifest.value.content.value, e.log.value.lines, runId);
    }
  }

  /** Something is found exactly when some entry has the requested run, and what is found first names such an entry. */
  lemma {:induction false} FoundExactly(entries: seq<Entry>, runId: string)
    ensures Contributions(entries, runId) == [] <==> forall i :: 0 <= i < |entries| ==> !HasRun(entries[i], runId)
    ensures Contributions(entries, runId) != [] ==>
              exists i :: 0 <= i < |entries| && NamedBy(entries[i], runId, Contributions(entries, runId)[0])
  {
    if |entries| > 0 {
      var before, last := entries[..|entries| - 1], entries[|entries| - 1];
      FoundExactly(before, runId);
      EntriesSnoc(entries, |entries| - 1, runId);
      assert entries[..|entries| - 1 + 1] == entries;
      ContributionMeaning(last, runId);
      assert forall i :: 0 <= i < |before| ==> before[i] == entries[i];
      if Contributions(before, runId) != [] {
        var i :| 0 <= i < |before| && NamedBy(before[i], runId, Contributions(before, runId)[0]);
        assert NamedBy(entries[i], runId, Contributions(entries, runId)[0]);
      } else if Contribution(last, runId).Some? {
        assert NamedBy(entries[|before|], runId, Contributions(entries, runId)[0]);
      }
    }
  }

  /** The whole scan accepts exactly the acceptable directories and returns the one match there is. */
  method Scan(entries: seq<Entry>, runId: string) returns (r: Outcome)
    ensures r.Refused? <==> !Acceptable(entries, runId)
    ensures !r.Refused? ==>
              r == if Contributions(entries, runId) == [] then NotFound else Found(Contributions(entries, runId)[0])
    ensures !r.Refused? ==> (r.Found? <==> exists i :: 0 <= i < |entries| && HasRun(entries[i], runId))
    ensures r.Found? ==> exists i :: 0 <= i < |entries| && NamedBy(entries[i], runId, r.match_)
  {
    FoundExactly(entries, runId);
    var budget := new Budget();
    var match_: Option<Match> := None;
    for i := 0 to |entries|
      invariant Acceptable(entries[..i], runId)
      invariant budget.bytes == TotalCharged(entries[..i])
      invariant Contributions(entries[..i], runId) == if match_.Some? then [match_.value] else []
    {
      AcceptableStep(entries, i, runId);
      EntriesSnoc(entries, i, runId);
      if i + 1 > MAX_ENTRIES {
        return Refused(Limit);
      }
      var failure, found := ScanEntry(entries[i], runId, budget);
      if failure.Some? {
        return Refused(failure.value);
      }
      if found.Some? {
        if match_.Some? {
          return Refused(Ambiguous);
        }
        match_ := found;
      }
    }
    assert entries[..|entries|] == entries;
    return if match_.Some? then Found(match_.value) else NotFound;
  }

  // ----- Consequences ---------------------------------------------------------------------------------------

  lemma SameEntriesRead(xs: seq<Entry>, ys: seq<Entry>)
    requires multiset(xs) == multiset(ys)
    ensures |xs| == |ys| && TotalCharged(xs) == TotalCharged(ys)
    ensures (forall e :: e in xs ==> EntryOk(e)) <==> (forall e :: e in ys ==> EntryOk(e))
  {
    SumByReordered(xs, ys, Charged);
    SameElements(xs, ys);
  }

  lemma SameContributions(xs: seq<Entry>, ys: seq<Entry>, runId: string)
    requires multiset(xs) == multiset(ys)
    ensures |Contributions(xs, runId)| == |Contributions(ys, runId)|
    ensures |Contributions(xs, runId)| <= 1 ==> Contributions(xs, runId) == Contributions(ys, runId)
  {
    FlatMapReordered(xs, ys, Contributing(runId));
    SameElements(Contributions(xs, runId), Contributions(ys, runId));
  }

  /** Neither acceptance nor the match depends on the order the directory is listed in. */
  lemma OrderIndependent(xs: seq<Entry>, ys: seq<Entry>, runId: string)
    requires multiset(xs) == multiset(ys)
    ensures Acceptable(xs, runId) <==> Acceptable(ys, runId)
    ensures Acceptable(xs, runId) ==> Contributions(xs, runId) == Contributions(ys, runId)
  {
    SameEntriesRead(xs, ys);
    SameContributions(xs, ys, runId);
  }

  /** Two accepted directories never both hold the requested run. */
  lemma AtMostOneHolder(entries: seq<Entry>, runId: string, i: nat, j: nat)
    requires Acceptable(entries, runId) && i < j < |entries|
    ensures !HasRun(entries[i], runId) || !HasRun(entries[j], runId)
  {
    ContributionMeaning(entries[i], runId);
    ContributionMeaning(entries[j], runId);
    var f := Contributing(runId);
    assert entries == entries[..i] + [entries[i]] + entries[i + 1..j] + [entries[j]] + entries[j + 1..];
    FlatMapConcat(entries[..i] + [entries[i]] + entries[i + 1..j] + [entries[j]], entries[j + 1..], f);
    FlatMapConcat(entries[..i] + [entries[i]] + entries[i + 1..j], [entries[j]], f);
    FlatMapConcat(entries[..i] + [entries[i]], entries[i + 1..j], f);
    FlatMapConcat(entries[..i], [entries[i]], f);
  }

  function Range(n: nat): (s: set<int>)
    ensures |s| == n && forall k :: k in s <==> 0 <= k < n
  {
    if n == 0 then {} else Range(n - 1) + {n - 1}
  }

  function IndexSet(rows: seq<Row>): (s: set<int>)
    ensures |s| <= |rows| && forall i :: 0 <= i < |rows| ==> rows[i].id.runIndex in s
  {
    if |rows| == 0 then {} else IndexSet(rows[..|rows| - 1]) + {rows[|rows| - 1].id.runIndex}
  }

  lemma SubsetSize(a: set<int>, b: set<int>)
    requires a <= b
    ensures |a| <= |b|
  {
    assert b == a + (b - a);
  }

  /** In a consistent batch the logged indices are exactly 0, ..., n - 1, each once, and ids are distinct. */
  lemma IndicesExact(m: Manifest, rows: seq<Row>, i: nat, j: nat)
    requires Consistent(m, rows) && i < j < |rows|
    ensures 0 <= rows[i].id.runIndex < |rows| && 0 <= rows[j].id.runIndex < |rows|
    ensures rows[i].id.runIndex != rows[j].id.runIndex && rows[i].id.runId != rows[j].id.runId
  {
    IndexInRange(m, rows, i);
    IndexInRange(m, rows, j);
  }

  lemma IndexInRange(m: Manifest, rows: seq<Row>, i: nat)
    requires Consistent(m, rows) && i < |rows|
    ensures 0 <= rows[i].id.runIndex < |rows|
  {
    var index, slots, seen := rows[i].id.runIndex, Range(|rows|), IndexSet(rows);
    forall k | k in slots
      ensures k in seen
    {
      assert HasIndex(rows, k);
    }
    if index !in slots {
      SubsetSize(slots + {index}, seen);
    }
  }

  lemma {:induction false} StatusesPartition(rows: seq<Row>)
    ensures CompletedIn(rows) + StatusIn(rows, Skipped) + StatusIn(rows, Failed) == |rows|
  {
    if |rows| > 0 {
      StatusesPartition(rows[..|rows| - 1]);
    }
  }

  /** The counts of an accepted terminal manifest are those of its log and sum to the run count. */
  lemma TerminalCountsSum(m: Manifest, rows: seq<Row>)
    requires Consistent(m, rows) && m.status != Running
    ensures |rows| == m.runCount == m.completedCount + m.skippedCount + m.failedCount
    ensures m.completedCount == CompletedIn(rows) && m.skippedCount == StatusIn(rows, Skipped)
    ensures m.failedCount == StatusIn(rows, Failed)
  {
    StatusesPartition(rows);
  }
}
