/** Which directories the provenance reader accepts, told by the lines of the logs and the fields of the manifests. */
module ReplayMeaning {
  import opened Numbers
  import opened ReplayProvenance
  import opened Sequences

  // ----- Counting lines ------------------------------------------------------------------------------------

  /** The numbers of the record lines whose status is in the set. */
  function LinesWith(lines: seq<Line>, statuses: set<RowStatus>): set<int> {
    set i | 0 <= i < |lines| && lines[i].Record? && lines[i].row.status in statuses
  }

  const ANY_STATUS: set<RowStatus> := {Completed, CompletedWithFailures, Skipped, Failed}

  lemma LinesWithSnoc(before: seq<Line>, last: Line, statuses: set<RowStatus>)
    ensures |LinesWith(before + [last], statuses)| ==
            |LinesWith(before, statuses)| + if last.Record? && last.row.status in statuses then 1 else 0
  {
    var lines := before + [last];
    if last.Record? && last.row.status in statuses {
      assert LinesWith(lines, statuses) == LinesWith(before, statuses) + {|before|};
    } else {
      assert LinesWith(lines, statuses) == LinesWith(before, statuses);
    }
  }

  lemma {:induction false} CountsAreLines(lines: seq<Line>)
    ensures |Rows(lines)| == |LinesWith(lines, ANY_STATUS)|
    ensures CompletedIn(Rows(lines)) == |LinesWith(lines, {Completed, CompletedWithFailures})|
    ensures forall s :: StatusIn(Rows(lines), s) == |LinesWith(lines, {s})|
  {
    if |lines| > 0 {
      var before, last := lines[..|lines| - 1], lines[|lines| - 1];
      CountsAreLines(before);
      SplitLast(lines);
      if last.Record? {
        assert Rows(lines) == Rows(before) + [last.row];
        CountsAppend(Rows(before), last.row);
      } else {
        assert Rows(lines) == Rows(before);
      }
      LinesWithSnoc(before, last, ANY_STATUS);
      LinesWithSnoc(before, last, {Completed, CompletedWithFailures});
      forall s: RowStatus
        ensures StatusIn(Rows(lines), s) == |LinesWith(lines, {s})|
      {
        LinesWithSnoc(before, last, {s});
      }
    }
  }

  // ----- Sound batches -------------------------------------------------------------------------------------

  predicate SoundManifest(m: Manifest) {
    && m.wellFormed && m.runCount >= 1
    && 0 <= m.completedCount && 0 <= m.skippedCount && 0 <= m.failedCount
    && m.runCount >= m.completedCount + m.skippedCount + m.failedCount
    && match m.active
       case None => true
       case Some(active) => m.status == Running && active.wellFormed && active.pathInside && 0 <= active.id.runIndex < m.runCount
  }

  /** A line is blank or a good record, which is the active run when it shares its id or its index. */
  predicate SoundLine(m: Manifest, line: Line) {
    match line
    case Blank => true
    case Garbage => false
    case Record(row) =>
      && row.wellFormed && row.pathInside && 0 <= row.id.runIndex < m.runCount
      && match m.active
         case None => true
         case Some(active) => row.id == active.id || (row.id.runId != active.id.runId && row.id.runIndex != active.id.runIndex)
  }

  predicate LoggedIndex(lines: seq<Line>, index: int) {
    exists i :: 0 <= i < |lines| && lines[i].Record? && lines[i].row.id.runIndex == index
  }

  predicate DistinctLines(lines: seq<Line>) {
    forall i, j :: 0 <= i < j < |lines| && lines[i].Record? && lines[j].Record? ==>
      lines[i].row.id.runId != lines[j].row.id.runId && lines[i].row.id.runIndex != lines[j].row.id.runIndex
  }

  /** The logged runs are the first ones of the batch, and the active run is one of them or the next. */
  predicate SequentialLines(m: Manifest, lines: seq<Line>) {
    && (forall k :: 0 <= k < |LinesWith(lines, ANY_STATUS)| ==> LoggedIndex(lines, k))
    && (m.active.Some? ==>
          LoggedIndex(lines, m.active.value.id.runIndex) || m.active.value.id.runIndex == |LinesWith(lines, ANY_STATUS)|)
  }

  predicate SoundCounts(m: Manifest, lines: seq<Line>) {
    var completed := |LinesWith(lines, {Completed, CompletedWithFailures})|;
    var skipped, failed := |LinesWith(lines, {Skipped})|, |LinesWith(lines, {Failed})|;
    if m.status == Running then m.completedCount <= completed && m.skippedCount <= skipped && m.failedCount <= failed
    else
      && m.completedCount == completed && m.skippedCount == skipped && m.failedCount == failed
      && m.runCount == |LinesWith(lines, ANY_STATUS)|
      && (m.status == BatchCompletedWithFailures <==>
            exists i :: 0 <= i < |lines| && lines[i].Record? && lines[i].row.status in {Failed, CompletedWithFailures})
  }

  predicate SoundBatch(m: Manifest, lines: seq<Line>) {
    && SoundManifest(m) && SoundLines(m, lines)
    && DistinctLines(lines) && SoundCounts(m, lines) && SequentialLines(m, lines)
  }

  lemma ManifestMeaning(m: Manifest)
    ensures SoundManifest(m) <==> ManifestOk(m) && (m.active.Some? ==> m.active.value.pathInside)
  {
  }

  lemma LineMeaning(m: Manifest, row: Row)
    ensures SoundLine(m, Record(row)) <==> RowOk(m, row)
  {
  }

  /** A row is logged exactly when a line records it. */
  lemma RecordedAt(lines: seq<Line>, i: nat)
    requires i < |lines| && lines[i].Record?
    ensures lines[i].row in Rows(lines)
  {
    assert lines[i] == Record(lines[i].row);
    RowsAreRecords(lines, lines[i].row);
  }

  lemma RecordOf(lines: seq<Line>, k: nat) returns (i: nat)
    requires k < |Rows(lines)|
    ensures i < |lines| && lines[i] == Record(Rows(lines)[k])
  {
    RowsAreRecords(lines, Rows(lines)[k]);
    i :| 0 <= i < |lines| && lines[i] == Record(Rows(lines)[k]);
  }

  predicate SoundLines(m: Manifest, lines: seq<Line>) {
    forall i :: 0 <= i < |lines| ==> SoundLine(m, lines[i])
  }

  lemma SoundLinesHold(m: Manifest, lines: seq<Line>, k: nat)
    requires SoundLines(m, lines) && k < |Rows(lines)|
    ensures RowOk(m, Rows(lines)[k])
  {
    var i := RecordOf(lines, k);
    assert SoundLine(m, lines[i]);
    LineMeaning(m, Rows(lines)[k]);
  }

  predicate RowsOk(m: Manifest, lines: seq<Line>) {
    Garbage !in lines && forall k :: 0 <= k < |Rows(lines)| ==> RowOk(m, Rows(lines)[k])
  }

  lemma GoodRowsAreSound(m: Manifest, lines: seq<Line>, i: nat)
    requires RowsOk(m, lines) && i < |lines|
    ensures SoundLine(m, lines[i])
  {
    if lines[i].Record? {
      RecordedAt(lines, i);
      LineMeaning(m, lines[i].row);
      assert lines[i] == Record(lines[i].row);
    }
  }

  lemma LinesMeaning(m: Manifest, lines: seq<Line>)
    ensures SoundLines(m, lines) <==> RowsOk(m, lines)
  {
    if SoundLines(m, lines) {
      forall k | 0 <= k < |Rows(lines)|
        ensures RowOk(m, Rows(lines)[k])
      {
        SoundLinesHold(m, lines, k);
      }
      forall i | 0 <= i < |lines|
        ensures lines[i] != Garbage
      {
        assert SoundLine(m, lines[i]);
      }
    }
    if RowsOk(m, lines) {
      forall i | 0 <= i < |lines|
        ensures SoundLine(m, lines[i])
      {
        GoodRowsAreSound(m, lines, i);
      }
    }
  }

  lemma IndexMeaning(lines: seq<Line>, index: int)
    ensures LoggedIndex(lines, index) <==> HasIndex(Rows(lines), index)
  {
    var rows := Rows(lines);
    if k :| 0 <= k < |rows| && rows[k].id.runIndex == index {
      var i := RecordOf(lines, k);
      assert lines[i].row.id.runIndex == index;
    }
    if i :| 0 <= i < |lines| && lines[i].Record? && lines[i].row.id.runIndex == index {
      RecordedAt(lines, i);
      var k :| 0 <= k < |rows| && rows[k] == lines[i].row;
      assert rows[k].id.runIndex == index;
    }
  }

  predicate SharesNothing(lines: seq<Line>, row: Row) {
    forall i :: 0 <= i < |lines| && lines[i].Record? ==>
      lines[i].row.id.runId != row.id.runId && lines[i].row.id.runIndex != row.id.runIndex
  }

  lemma SeenMeaning(lines: seq<Line>, row: Row)
    ensures SharesNothing(lines, row) <==> !Seen(Rows(lines), row)
  {
    var rows := Rows(lines);
    if k :| 0 <= k < |rows| && (rows[k].id.runId == row.id.runId || rows[k].id.runIndex == row.id.runIndex) {
      var i := RecordOf(lines, k);
      assert lines[i].Record?;
    }
    if i :| && 0 <= i < |lines| && lines[i].Record?
            && (lines[i].row.id.runId == row.id.runId || lines[i].row.id.runIndex == row.id.runIndex) {
      RecordedAt(lines, i);
      var k :| 0 <= k < |rows| && rows[k] == lines[i].row;
    }
  }

  lemma DistinctLinesSnoc(before: seq<Line>, last: Line)
    ensures DistinctLines(before + [last]) <==> DistinctLines(before) && (last.Record? ==> SharesNothing(before, last.row))
  {
    var lines := before + [last];
    assert forall i :: 0 <= i < |before| ==> lines[i] == before[i];
    if DistinctLines(lines) && last.Record? {
      assert lines[|before|] == last;
    }
  }

  lemma {:induction false} DistinctMeaning(lines: seq<Line>)
    ensures DistinctLines(lines) <==> Distinct(Rows(lines))
  {
    if |lines| > 0 {
      var before, last := lines[..|lines| - 1], lines[|lines| - 1];
      DistinctMeaning(before);
      SplitLast(lines);
      DistinctLinesSnoc(before, last);
      if last.Record? {
        SeenMeaning(before, last.row);
        DistinctRowsSnoc(Rows(before), last.row);
      } else {
        assert Rows(lines) == Rows(before);
      }
    }
  }

  lemma DistinctRowsSnoc(rows: seq<Row>, row: Row)
    ensures Distinct(rows + [row]) <==> Distinct(rows) && !Seen(rows, row)
  {
    var more := rows + [row];
    assert forall i :: 0 <= i < |rows| ==> more[i] == rows[i];
    if Distinct(rows) {
      DistinctSnoc(rows, row);
    }
  }

  lemma SequentialMeaning(m: Manifest, lines: seq<Line>)
    ensures SequentialLines(m, lines) <==> IndicesOk(m, Rows(lines))
  {
    CountsAreLines(lines);
    forall k: int
      ensures LoggedIndex(lines, k) <==> HasIndex(Rows(lines), k)
    {
      IndexMeaning(lines, k);
    }
  }

  lemma SomeLineWith(lines: seq<Line>, s: RowStatus)
    ensures |LinesWith(lines, {s})| > 0 <==> exists i :: 0 <= i < |lines| && lines[i].Record? && lines[i].row.status == s
  {
    if i :| 0 <= i < |lines| && lines[i].Record? && lines[i].row.status == s {
      assert i in LinesWith(lines, {s});
    }
    if |LinesWith(lines, {s})| > 0 {
      var i :| i in LinesWith(lines, {s});
    }
  }

  lemma CountsMeaning(m: Manifest, lines: seq<Line>)
    ensures SoundCounts(m, lines) <==> CountsOk(m, Rows(lines))
  {
    CountsAreLines(lines);
    SomeLineWith(lines, Failed);
    SomeLineWith(lines, CompletedWithFailures);
  }

  /** A batch is consistent exactly when it is sound. */
  lemma BatchMeaning(m: Manifest, lines: seq<Line>)
    ensures SoundBatch(m, lines) <==> Garbage !in lines && Consistent(m, Rows(lines))
  {
    ManifestMeaning(m);
    LinesMeaning(m, lines);
    DistinctMeaning(lines);
    CountsMeaning(m, lines);
    SequentialMeaning(m, lines);
  }

  // ----- Sound directories ---------------------------------------------------------------------------------

  /** Anything that is no directory is skipped; a directory has neither file, or both and they make a sound batch. */
  predicate SoundEntry(e: Entry) {
    match (e.isDirectory, e.manifest, e.log)
    case (false, _, _) => true
    case (true, None, None) => true
    case (true, Some(manifest), Some(log)) =>
      && manifest.size <= 262144 && log.size <= 4194304 && e.boundName && manifest.content.Some?
      && |log.lines| <= (if log.endsWithNewline then 10001 else 10000)
      && SoundBatch(manifest.content.value, log.lines)
    case _ => false
  }

  lemma EntryMeaning(e: Entry)
    ensures SoundEntry(e) <==> EntryOk(e)
  {
    if e.manifest.Some? && e.manifest.value.content.Some? && e.log.Some? {
      BatchMeaning(e.manifest.value.content.value, e.log.value.lines);
    }
  }

  /** The bytes read from one entry. */
  function FileBytes(e: Entry): nat {
    match (e.isDirectory, e.manifest, e.log)
    case (true, Some(manifest), None) => manifest.size
    case (true, None, Some(log)) => log.size
    case (true, Some(manifest), Some(log)) => manifest.size + log.size
    case _ => 0
  }

  function BytesRead(entries: seq<Entry>): nat {
    if |entries| == 0 then 0 else BytesRead(entries[..|entries| - 1]) + FileBytes(entries[|entries| - 1])
  }

  lemma {:induction false} BytesReadMeaning(entries: seq<Entry>)
    ensures BytesRead(entries) == TotalCharged(entries)
  {
    if |entries| > 0 {
      BytesReadMeaning(entries[..|entries| - 1]);
    }
  }

  predicate OneHolder(entries: seq<Entry>, runId: string) {
    forall i, j :: 0 <= i < j < |entries| ==> !HasRun(entries[i], runId) || !HasRun(entries[j], runId)
  }

  predicate NoHolder(entries: seq<Entry>, runId: string) {
    forall i :: 0 <= i < |entries| ==> !HasRun(entries[i], runId)
  }

  lemma OneHolderSnoc(before: seq<Entry>, last: Entry, runId: string)
    ensures OneHolder(before + [last], runId) <==> OneHolder(before, runId) && (HasRun(last, runId) ==> NoHolder(before, runId))
  {
    var entries := before + [last];
    assert forall i :: 0 <= i < |before| ==> entries[i] == before[i];
    if OneHolder(entries, runId) && HasRun(last, runId) {
      assert entries[|before|] == last;
    }
  }

  lemma ContributionsSnoc(before: seq<Entry>, last: Entry, runId: string)
    ensures |Contributions(before + [last], runId)| == |Contributions(before, runId)| + if HasRun(last, runId) then 1 else 0
  {
    var entries := before + [last];
    assert entries[..|before|] == before && entries[..|before| + 1] == entries;
    EntriesSnoc(entries, |before|, runId);
    ContributionMeaning(last, runId);
  }

  lemma {:induction false} OneHolderMeaning(entries: seq<Entry>, runId: string)
    ensures OneHolder(entries, runId) <==> |Contributions(entries, runId)| <= 1
  {
    if |entries| > 0 {
      var before, last := entries[..|entries| - 1], entries[|entries| - 1];
      OneHolderMeaning(before, runId);
      FoundExactly(before, runId);
      SplitLast(entries);
      OneHolderSnoc(before, last, runId);
      ContributionsSnoc(before, last, runId);
    }
  }

  /** A directory is accepted exactly when it has at most 256 entries, all are sound, at most 8 MiB are read and at most
      one batch has the requested run. */
  lemma AcceptedExactly(entries: seq<Entry>, runId: string)
    ensures Acceptable(entries, runId) <==>
              && |entries| <= 256 && (forall i :: 0 <= i < |entries| ==> SoundEntry(entries[i]))
              && BytesRead(entries) <= 8388608 && OneHolder(entries, runId)
  {
    BytesReadMeaning(entries);
    OneHolderMeaning(entries, runId);
    forall i | 0 <= i < |entries|
      ensures SoundEntry(entries[i]) <==> EntryOk(entries[i])
    {
      EntryMeaning(entries[i]);
    }
    assert forall i :: 0 <= i < |entries| ==> entries[i] in entries;
  }
}
