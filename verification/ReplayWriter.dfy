/** The batch replay writer, and what the reader makes of any manifest and log it can observe while it writes. */
module ReplayWriter {
  import opened Numbers
  import opened ReplayProvenance

  // ----- Run ids --------------------------------------------------------------------------------------

  function Digit(d: nat): char
    requires d < 10
  {
    "0123456789"[d]
  }

  function Decimal(n: nat): (s: string)
    ensures |s| > 0
  {
    if n < 10 then [Digit(n)] else Decimal(n / 10) + [Digit(n % 10)]
  }

  function Padded(s: string, width: nat): (r: string)
    decreases width - |s|
  {
    if |s| >= width then s else Padded("0" + s, width)
  }

  function Value(s: string): nat {
    if |s| == 0 then 0
    else 10 * Value(s[..|s| - 1]) + if '0' <= s[|s| - 1] <= '9' then (s[|s| - 1] - '0') as nat else 0
  }

  predicate AllDigits(s: string) {
    forall i :: 0 <= i < |s| ==> '0' <= s[i] <= '9'
  }

  /** `batchReplayRunId`: the sanitized batch id, the six-digit run index and the sanitized window. */
  function RunId(batch: string, index: nat, window: string): string {
    batch + "_run_" + Padded(Decimal(index), 6) + "_" + window
  }

  lemma {:induction false} DecimalValue(n: nat)
    ensures AllDigits(Decimal(n)) && Value(Decimal(n)) == n
  {
    assert forall d :: 0 <= d < 10 ==> Digit(d) == '0' + d as char;
    if n < 10 {
      assert Value([]) == 0;
    } else {
      DecimalValue(n / 10);
      var s := Decimal(n);
      assert s[..|s| - 1] == Decimal(n / 10);
    }
  }

  lemma {:induction false} ZeroPrefix(s: string)
    ensures Value("0" + s) == Value(s)
  {
    if |s| == 0 {
      assert ("0" + s)[..0] == [];
    } else {
      ZeroPrefix(s[..|s| - 1]);
      assert ("0" + s)[..|s|] == "0" + s[..|s| - 1];
    }
  }

  lemma {:induction false} PaddedValue(s: string, width: nat)
    requires AllDigits(s)
    ensures AllDigits(Padded(s, width)) && Value(Padded(s, width)) == Value(s)
    decreases width - |s|
  {
    if |s| < width {
      ZeroPrefix(s);
      PaddedValue("0" + s, width);
    }
  }

  lemma FirstUnderscore(a: string, x: string, b: string, y: string)
    requires AllDigits(a) && AllDigits(b) && a + "_" + x == b + "_" + y
    ensures a == b
  {
    var s := a + "_" + x;
    assert s[|a|] == '_' && s[|b|] == '_';
    assert (forall i :: 0 <= i < |a| ==> s[i] == a[i]) && (forall i :: 0 <= i < |b| ==> s[i] == b[i]);
    assert |a| == |b|;
    assert a == s[..|a|] && b == s[..|b|];
  }

  /** Two runs of a batch have different ids, whatever windows they replay. */
  lemma RunIdsDistinct(batch: string, i: nat, x: string, j: nat, y: string)
    requires RunId(batch, i, x) == RunId(batch, j, y)
    ensures i == j
  {
    DecimalValue(i);
    DecimalValue(j);
    PaddedValue(Decimal(i), 6);
    PaddedValue(Decimal(j), 6);
    var p := batch + "_run_";
    var a, b := Padded(Decimal(i), 6), Padded(Decimal(j), 6);
    assert RunId(batch, i, x) == p + (a + "_" + x) && RunId(batch, j, y) == p + (b + "_" + y);
    assert RunId(batch, i, x)[|p|..] == a + "_" + x && RunId(batch, j, y)[|p|..] == b + "_" + y;
    FirstUnderscore(a, x, b, y);
  }

  // ----- The writer ---------------------------------------------------------------------------------------

  /** What is fixed before the batch starts: its id, its size and the window, seed, start and directory of each run. */
  datatype Plan = Plan(batchId: string, directoryId: string, runCount: nat, windows: nat -> string, seeds: nat -> string,
                       directories: nat -> string, starts: nat -> string)

  function IdentityOf(p: Plan, index: nat): Identity {
    Identity(RunId(p.directoryId, index, p.windows(index)), index, p.seeds(index), p.directories(index), p.starts(index))
  }

  function RowFor(p: Plan, index: nat, status: RowStatus): Row {
    Row(IdentityOf(p, index), status, true, true)
  }

  /** records: what the process remembers, which its manifests count; rows: what the log holds.
      begun: the manifest names run `next` as active. ended: the terminal manifest is written. */
  datatype Writer = Writer(next: nat, records: seq<Row>, rows: seq<Row>, manifest: Manifest, begun: bool, ended: bool)

  /** The manifest with the counts of the rows recorded so far. */
  function ManifestOf(p: Plan, records: seq<Row>, status: BatchStatus, active: Option<Active>): Manifest {
    Manifest(p.batchId, status, true, p.runCount, CompletedIn(records), StatusIn(records, Skipped), StatusIn(records, Failed),
             active)
  }

  function Started(p: Plan): Writer {
    Writer(0, [], [], ManifestOf(p, [], Running, None), false, false)
  }

  /** One write: Skip and Finish record and append a row, Begin and End replace the manifest. The other two are the catch
      block of a run that is already recorded as completed, which records and appends a failed row. Refail: the append of
      its selection trial failed, so its completed row is in the log. Lose: the append of its completed row failed. */
  datatype Write = Skip | Begin | Finish(status: RowStatus) | Refail | Lose(status: RowStatus) | End

  predicate CompletedStatus(status: RowStatus) {
    status.Completed? || status.CompletedWithFailures?
  }

  predicate CanWrite(p: Plan, w: Writer, a: Write) {
    !w.ended &&
    match a
    case Skip => !w.begun && w.next < p.runCount
    case Begin => !w.begun && w.next < p.runCount
    case Finish(status) => w.begun && w.next < p.runCount && !status.Skipped?
    case Refail => !w.begun && |w.rows| > 0 && IsCompleted(w.rows[|w.rows| - 1])
    case Lose(status) => w.begun && w.next < p.runCount && CompletedStatus(status)
    case End => !w.begun && w.next == p.runCount
  }

  function Recorded(w: Writer, row: Row): Writer {
    w.(records := w.records + [row], rows := w.rows + [row])
  }

  function DoWrite(p: Plan, w: Writer, a: Write): Writer
    requires CanWrite(p, w, a)
  {
    match a
    case Skip => Recorded(w, RowFor(p, w.next, Skipped)).(next := w.next + 1)
    case Begin => w.(manifest := ManifestOf(p, w.records, Running, Some(Active(IdentityOf(p, w.next), true, true))), begun := true)
    case Finish(status) => Recorded(w, RowFor(p, w.next, status)).(next := w.next + 1, begun := false)
    case Refail => Recorded(w, w.rows[|w.rows| - 1].(status := Failed))
    case Lose(status) =>
      var unwritten := w.(records := w.records + [RowFor(p, w.next, status)]);
      Recorded(unwritten, RowFor(p, w.next, Failed)).(next := w.next + 1, begun := false)
    case End => w.(manifest := ManifestOf(p, w.records, TerminalStatus(w.records), None), ended := true)
  }

  /** ws are the successive states of one batch. */
  ghost predicate Batch(p: Plan, ws: seq<Writer>, acts: seq<Write>) {
    && p.runCount > 0 && |ws| == |acts| + 1 && ws[0] == Started(p)
    && forall i :: 0 <= i < |acts| ==> CanWrite(p, ws[i], acts[i]) && ws[i + 1] == DoWrite(p, ws[i], acts[i])
  }

  /** How many completed rows the first k writes lost. */
  function Losses(acts: seq<Write>, k: nat): nat
    requires k <= |acts|
  {
    if k == 0 then 0 else Losses(acts, k - 1) + if acts[k - 1].Lose? then 1 else 0
  }

  /** How many completed rows the first k writes appended. */
  function Completions(acts: seq<Write>, k: nat): nat
    requires k <= |acts|
  {
    if k == 0 then 0
    else Completions(acts, k - 1) + if acts[k - 1].Finish? && CompletedStatus(acts[k - 1].status) then 1 else 0
  }

  predicate ReplacesManifest(a: Write) {
    a.Begin? || a.End?
  }

  /** How many of the first a writes there were when the manifest seen after them was written. */
  function ManifestTurn(acts: seq<Write>, a: nat): (t: nat)
    requires a <= |acts|
    ensures t <= a
  {
    if a == 0 || ReplacesManifest(acts[a - 1]) then a else ManifestTurn(acts, a - 1)
  }

  predicate NoRefail(acts: seq<Write>, b: nat)
    requires b <= |acts|
  {
    forall i :: 0 <= i < b ==> !acts[i].Refail?
  }

  /** No run was recorded twice. */
  predicate Sequential(p: Plan, rows: seq<Row>) {
    |rows| <= p.runCount && forall i :: 0 <= i < |rows| ==> rows[i] == RowFor(p, i, rows[i].status)
  }

  /** The manifest of the given rows and of as many completed runs more as were lost. */
  function Overcounted(p: Plan, rows: seq<Row>, status: BatchStatus, active: Option<Active>, lost: nat): Manifest {
    ManifestOf(p, rows, status, active).(completedCount := CompletedIn(rows) + lost)
  }

  /** The manifest was written when the log held its first k rows and had lost some others. */
  predicate Reflects(p: Plan, m: Manifest, rows: seq<Row>, k: nat, lost: nat) {
    && k <= |rows|
    && (|| (k == lost == 0 && m == ManifestOf(p, [], Running, None))
        || (k < p.runCount && m == Overcounted(p, rows[..k], Running, Some(Active(IdentityOf(p, k), true, true)), lost))
        || (k == |rows| == p.runCount && m.status != Running && m == Overcounted(p, rows, m.status, None, lost)
            && (lost == 0 ==> m.status == TerminalStatus(rows))))
  }

  /** Beyond the log the process remembers the completed rows that were lost, and nothing else. */
  ghost predicate WriterInv(p: Plan, w: Writer, lost: nat, completed: nat) {
    && Sequential(p, w.rows) && w.next == |w.rows| && (lost == 0 ==> w.records == w.rows)
    && CompletedIn(w.records) == CompletedIn(w.rows) + lost && CompletedIn(w.rows) == completed
    && StatusIn(w.records, Skipped) == StatusIn(w.rows, Skipped) && StatusIn(w.records, Failed) == StatusIn(w.rows, Failed)
  }

  lemma {:induction false} CountsGrow(rows: seq<Row>, k: nat)
    requires k <= |rows|
    ensures CompletedIn(rows[..k]) <= CompletedIn(rows)
    ensures forall s :: StatusIn(rows[..k], s) <= StatusIn(rows, s)
    ensures CompletedIn(rows) - CompletedIn(rows[..k]) <= |rows| - k
  {
    if |rows| > 0 {
      if k < |rows| {
        CountsGrow(rows[..|rows| - 1], k);
        assert rows[..|rows| - 1][..k] == rows[..k];
      } else {
        CountsGrow(rows[..|rows| - 1], |rows| - 1);
        assert rows[..k] == rows;
      }
    }
  }

  lemma IdentitiesDistinct(p: Plan, i: nat, j: nat)
    requires i != j
    ensures IdentityOf(p, i).runId != IdentityOf(p, j).runId
  {
    if IdentityOf(p, i).runId == IdentityOf(p, j).runId {
      RunIdsDistinct(p.directoryId, i, p.windows(i), j, p.windows(j));
    }
  }

  lemma SequentialIsDistinct(p: Plan, rows: seq<Row>)
    requires Sequential(p, rows)
    ensures Distinct(rows)
  {
    forall i, j | 0 <= i < j < |rows|
      ensures rows[i].id.runId != rows[j].id.runId && rows[i].id.runIndex != rows[j].id.runIndex
    {
      IdentitiesDistinct(p, i, j);
    }
  }

  lemma RowsPass(p: Plan, m: Manifest, rows: seq<Row>, k: nat, lost: nat)
    requires p.runCount > 0 && Sequential(p, rows) && Reflects(p, m, rows, k, lost)
    ensures Distinct(rows) && IndicesOk(m, rows) && forall i :: 0 <= i < |rows| ==> RowOk(m, rows[i])
  {
    SequentialIsDistinct(p, rows);
    forall i | 0 <= i < |rows|
      ensures RowOk(m, rows[i]) && HasIndex(rows, i)
    {
      if m.active.Some? && i != k {
        IdentitiesDistinct(p, i, k);
      }
      assert rows[i].id.runIndex == i;
    }
  }

  lemma CountsPass(p: Plan, m: Manifest, rows: seq<Row>, k: nat, lost: nat)
    requires Sequential(p, rows) && Reflects(p, m, rows, k, lost)
    ensures CountsOk(m, rows) <==> lost <= CompletedIn(rows) - CompletedIn(rows[..k])
  {
    CountsGrow(rows, k);
    StatusesPartition(rows);
    if k == |rows| {
      assert rows[..k] == rows;
    }
  }

  lemma CountedIsOk(p: Plan, m: Manifest, rows: seq<Row>, k: nat, lost: nat)
    requires p.runCount > 0 && Sequential(p, rows) && Reflects(p, m, rows, k, lost)
    requires lost <= CompletedIn(rows) - CompletedIn(rows[..k])
    ensures ManifestOk(m)
  {
    CountsGrow(rows, k);
    StatusesPartition(rows[..k]);
    assert k == |rows| ==> rows[..k] == rows;
  }

  /** A manifest written after the first k rows of a sequential log passes every check against that log, exactly when the
      log has by then as many more completed rows as had been lost. */
  lemma ReflectedIsConsistent(p: Plan, m: Manifest, rows: seq<Row>, k: nat, lost: nat)
    requires p.runCount > 0 && Sequential(p, rows) && Reflects(p, m, rows, k, lost)
    ensures Consistent(m, rows) <==> lost <= CompletedIn(rows) - CompletedIn(rows[..k])
  {
    RowsPass(p, m, rows, k, lost);
    CountsPass(p, m, rows, k, lost);
    if lost <= CompletedIn(rows) - CompletedIn(rows[..k]) {
      CountedIsOk(p, m, rows, k, lost);
    }
  }

  lemma RecordKeepsInvariant(p: Plan, w: Writer, v: Writer, status: RowStatus, lost: nat, completed: nat)
    requires WriterInv(p, w, lost, completed) && w.next < p.runCount
    requires v == Recorded(w, RowFor(p, w.next, status)).(next := w.next + 1, begun := false)
    ensures WriterInv(p, v, lost, completed + if CompletedStatus(status) then 1 else 0)
  {
    CountsAppend(w.records, RowFor(p, w.next, status));
    CountsAppend(w.rows, RowFor(p, w.next, status));
  }

  lemma LoseKeepsInvariant(p: Plan, w: Writer, v: Writer, status: RowStatus, lost: nat, completed: nat)
    requires WriterInv(p, w, lost, completed) && w.next < p.runCount && CompletedStatus(status)
    requires v.records == w.records + [RowFor(p, w.next, status)] + [RowFor(p, w.next, Failed)]
    requires v.rows == w.rows + [RowFor(p, w.next, Failed)] && v.next == w.next + 1
    ensures WriterInv(p, v, lost + 1, completed)
  {
    CountsAppend(w.records, RowFor(p, w.next, status));
    CountsAppend(w.records + [RowFor(p, w.next, status)], RowFor(p, w.next, Failed));
    CountsAppend(w.rows, RowFor(p, w.next, Failed));
  }

  lemma WriteKeepsInvariant(p: Plan, w: Writer, a: Write, lost: nat, completed: nat)
    requires WriterInv(p, w, lost, completed) && CanWrite(p, w, a) && !a.Refail?
    ensures WriterInv(p, DoWrite(p, w, a), lost + (if a.Lose? then 1 else 0),
                      completed + if a.Finish? && CompletedStatus(a.status) then 1 else 0)
  {
    var v := DoWrite(p, w, a);
    match a
    case Skip => RecordKeepsInvariant(p, w, v, Skipped, lost, completed);
    case Finish(status) => RecordKeepsInvariant(p, w, v, status, lost, completed);
    case Lose(status) => LoseKeepsInvariant(p, w, v, status, lost, completed);
    case Begin => SameRowsKeepInvariant(p, w, v, lost, completed);
    case End => SameRowsKeepInvariant(p, w, v, lost, completed);
  }

  lemma SameRowsKeepInvariant(p: Plan, w: Writer, v: Writer, lost: nat, completed: nat)
    requires WriterInv(p, w, lost, completed) && v.records == w.records && v.rows == w.rows && v.next == w.next
    ensures WriterInv(p, v, lost, completed)
  {
  }

  lemma {:induction false} WriterStaysSequential(p: Plan, ws: seq<Writer>, acts: seq<Write>, b: nat)
    requires Batch(p, ws, acts) && b < |ws| && NoRefail(acts, b)
    ensures WriterInv(p, ws[b], Losses(acts, b), Completions(acts, b))
  {
    if b > 0 {
      WriterStaysSequential(p, ws, acts, b - 1);
      WriteKeepsInvariant(p, ws[b - 1], acts[b - 1], Losses(acts, b - 1), Completions(acts, b - 1));
    }
  }

  /** Rows are only ever appended, and nothing is written after the terminal manifest. */
  lemma {:induction false} LogOnlyGrows(p: Plan, ws: seq<Writer>, acts: seq<Write>, a: nat, b: nat)
    requires Batch(p, ws, acts) && a <= b < |ws|
    ensures ws[a].rows <= ws[b].rows && (ws[a].ended ==> ws[b] == ws[a])
  {
    if a < b {
      LogOnlyGrows(p, ws, acts, a, b - 1);
    }
  }

  /** A run recorded twice stays in the log. */
  lemma RefailIsSeen(p: Plan, ws: seq<Writer>, acts: seq<Write>, i: nat, b: nat)
    requires Batch(p, ws, acts) && i < b < |ws| && acts[i].Refail?
    ensures !Distinct(ws[b].rows)
  {
    LogOnlyGrows(p, ws, acts, i + 1, b);
    var n := |ws[i].rows|;
    assert ws[b].rows[n - 1] == ws[i + 1].rows[n - 1] && ws[b].rows[n] == ws[i + 1].rows[n];
  }

  lemma ManifestKept(p: Plan, w: Writer, a: Write)
    requires CanWrite(p, w, a) && !ReplacesManifest(a)
    ensures DoWrite(p, w, a).manifest == w.manifest
  {
  }

  lemma {:induction false} ManifestStays(p: Plan, ws: seq<Writer>, acts: seq<Write>, a: nat)
    requires Batch(p, ws, acts) && a < |ws|
    ensures var t := ManifestTurn(acts, a);
            ws[a].manifest == ws[t].manifest && (t == 0 || ReplacesManifest(acts[t - 1]))
  {
    if a > 0 && !ReplacesManifest(acts[a - 1]) {
      ManifestStays(p, ws, acts, a - 1);
      ManifestKept(p, ws[a - 1], acts[a - 1]);
    }
  }

  lemma ReplacedReflects(p: Plan, w: Writer, a: Write, lost: nat, completed: nat)
    requires WriterInv(p, w, lost, completed) && CanWrite(p, w, a) && ReplacesManifest(a)
    ensures Reflects(p, DoWrite(p, w, a).manifest, w.rows, |w.rows|, lost)
  {
    assert w.rows[..|w.rows|] == w.rows;
  }

  /** A manifest counts the log at the moment it is written, and the losses so far. */
  lemma WrittenReflects(p: Plan, ws: seq<Writer>, acts: seq<Write>, t: nat)
    requires Batch(p, ws, acts) && t < |ws| && (t == 0 || ReplacesManifest(acts[t - 1])) && NoRefail(acts, t)
    ensures Reflects(p, ws[t].manifest, ws[t].rows, |ws[t].rows|, Losses(acts, t))
  {
    if t > 0 {
      WriterStaysSequential(p, ws, acts, t - 1);
      ReplacedReflects(p, ws[t - 1], acts[t - 1], Losses(acts, t - 1), Completions(acts, t - 1));
    }
  }

  lemma ReflectsLater(p: Plan, m: Manifest, early: seq<Row>, rows: seq<Row>, lost: nat)
    requires Reflects(p, m, early, |early|, lost) && early <= rows && (m.status != Running ==> rows == early)
    ensures Reflects(p, m, rows, |early|, lost)
  {
    assert rows[..|early|] == early == early[..|early|];
  }

  lemma ReflectsSeen(p: Plan, ws: seq<Writer>, acts: seq<Write>, t: nat, b: nat)
    requires Batch(p, ws, acts) && t <= b < |ws| && (t == 0 || ReplacesManifest(acts[t - 1])) && NoRefail(acts, b)
    ensures Reflects(p, ws[t].manifest, ws[b].rows, |ws[t].rows|, Losses(acts, t)) && ws[t].rows <= ws[b].rows
  {
    WrittenReflects(p, ws, acts, t);
    LogOnlyGrows(p, ws, acts, t, b);
    ReflectsLater(p, ws[t].manifest, ws[t].rows, ws[b].rows, Losses(acts, t));
  }

  /** A manifest seen after a writes passes every check against the log seen after b of them exactly when no run was
      recorded twice before the log was read and at least as many completed rows were appended since the manifest was
      written as had been lost by then. */
  lemma ReaderAcceptsExactly(p: Plan, ws: seq<Writer>, acts: seq<Write>, a: nat, b: nat)
    requires Batch(p, ws, acts) && a <= b < |ws|
    ensures var t := ManifestTurn(acts, a);
            Consistent(ws[a].manifest, ws[b].rows) <==>
            NoRefail(acts, b) && Losses(acts, t) <= Completions(acts, b) - Completions(acts, t)
  {
    if NoRefail(acts, b) {
      var t := ManifestTurn(acts, a);
      ManifestStays(p, ws, acts, a);
      ReflectsSeen(p, ws, acts, t, b);
      WriterStaysSequential(p, ws, acts, t);
      WriterStaysSequential(p, ws, acts, b);
      ReflectedIsConsistent(p, ws[a].manifest, ws[b].rows, |ws[t].rows|, Losses(acts, t));
      assert ws[b].rows[..|ws[t].rows|] == ws[t].rows;
    } else {
      var i :| 0 <= i < b && acts[i].Refail?;
      RefailIsSeen(p, ws, acts, i, b);
    }
  }

  lemma {:induction false} LossesFrom(acts: seq<Write>, i: nat, k: nat)
    requires i < k <= |acts| && acts[i].Lose?
    ensures Losses(acts, k) > 0
  {
    if i < k - 1 {
      LossesFrom(acts, i, k - 1);
    }
  }

  lemma {:induction false} LossIsSomewhere(acts: seq<Write>, k: nat) returns (i: nat)
    requires k <= |acts| && Losses(acts, k) > 0
    ensures i < k && acts[i].Lose?
  {
    if acts[k - 1].Lose? {
      i := k - 1;
    } else {
      i := LossIsSomewhere(acts, k - 1);
    }
  }

  lemma {:induction false} CompletionsGrow(acts: seq<Write>, a: nat, b: nat)
    requires a <= b <= |acts|
    ensures Completions(acts, a) <= Completions(acts, b)
  {
    if a < b {
      CompletionsGrow(acts, a, b - 1);
    }
  }

  ghost predicate AlwaysAccepted(ws: seq<Writer>) {
    forall a, b :: 0 <= a <= b < |ws| ==> Consistent(ws[a].manifest, ws[b].rows)
  }

  predicate NoManifestAfterLoss(acts: seq<Write>) {
    forall i, j :: 0 <= i < j < |acts| && acts[i].Lose? ==> !ReplacesManifest(acts[j])
  }

  /** The manifest that follows a loss is refused at that moment. */
  lemma LossIsRefused(p: Plan, ws: seq<Writer>, acts: seq<Write>, i: nat, j: nat)
    requires Batch(p, ws, acts) && i < j < |acts| && acts[i].Lose? && ReplacesManifest(acts[j])
    ensures !Consistent(ws[j + 1].manifest, ws[j + 1].rows)
  {
    var t := j + 1;
    LossesFrom(acts, i, t);
    assert ManifestTurn(acts, t) == t;
    ReaderAcceptsExactly(p, ws, acts, t, t);
  }

  /** In any batch of two runs or more, losing the completed row of the first run makes the reader refuse a log that holds
      every run once. */
  lemma LostRowRefusesSequentialLog(p: Plan) returns (ws: seq<Writer>)
    requires p.runCount >= 2
    ensures Batch(p, ws, [Begin, Lose(Completed), Begin])
    ensures Sequential(p, ws[3].rows) && !Consistent(ws[3].manifest, ws[3].rows)
  {
    var acts := [Begin, Lose(Completed), Begin];
    var begun := DoWrite(p, Started(p), acts[0]);
    var lost := DoWrite(p, begun, acts[1]);
    ws := [Started(p), begun, lost, DoWrite(p, lost, acts[2])];
    LossIsRefused(p, ws, acts, 1, 2);
    WriterStaysSequential(p, ws, acts, 3);
  }

  lemma RefailedRun(p: Plan) returns (ws: seq<Writer>)
    requires p.runCount >= 1
    ensures Batch(p, ws, [Begin, Finish(Completed), Refail])
    ensures ws[3].rows == [RowFor(p, 0, Completed), RowFor(p, 0, Failed)]
  {
    var begun := DoWrite(p, Started(p), Begin);
    var finished := DoWrite(p, begun, Finish(Completed));
    ws := [Started(p), begun, finished, DoWrite(p, finished, Refail)];
  }

  /** In any batch a failed append after the first run's completed row makes the writer record that run again, and the
      reader refuses the log. */
  lemma RefailedRunIsRefused(p: Plan) returns (ws: seq<Writer>)
    requires p.runCount >= 1
    ensures Batch(p, ws, [Begin, Finish(Completed), Refail])
    ensures ws[3].rows == [RowFor(p, 0, Completed), RowFor(p, 0, Failed)]
    ensures Consistent(ws[2].manifest, ws[2].rows) && !Consistent(ws[3].manifest, ws[3].rows)
  {
    ws := RefailedRun(p);
    FinishedRunIsAccepted(p, ws);
    assert ws[3].rows[0].id == ws[3].rows[1].id;
  }

  lemma FinishedRunIsAccepted(p: Plan, ws: seq<Writer>)
    requires Batch(p, ws, [Begin, Finish(Completed), Refail])
    ensures Consistent(ws[2].manifest, ws[2].rows)
  {
    var acts := [Begin, Finish(Completed), Refail];
    assert ManifestTurn(acts, 1) == 1 && ManifestTurn(acts, 2) == 1 && Losses(acts, 1) == Losses(acts, 0) == 0;
    CompletionsGrow(acts, ManifestTurn(acts, 2), 2);
    ReaderAcceptsExactly(p, ws, acts, 2, 2);
  }

  lemma NothingLostBeforeManifest(p: Plan, ws: seq<Writer>, acts: seq<Write>, a: nat)
    requires Batch(p, ws, acts) && a < |ws| && NoManifestAfterLoss(acts)
    ensures Losses(acts, ManifestTurn(acts, a)) == 0
  {
    var t := ManifestTurn(acts, a);
    ManifestStays(p, ws, acts, a);
    if Losses(acts, t) > 0 {
      var i := LossIsSomewhere(acts, t);
      assert false;
    }
  }

  lemma CleanIsAccepted(p: Plan, ws: seq<Writer>, acts: seq<Write>, a: nat, b: nat)
    requires Batch(p, ws, acts) && a <= b < |ws| && NoRefail(acts, |acts|) && NoManifestAfterLoss(acts)
    ensures Consistent(ws[a].manifest, ws[b].rows)
  {
    NothingLostBeforeManifest(p, ws, acts, a);
    ReaderAcceptsExactly(p, ws, acts, a, b);
    CompletionsGrow(acts, ManifestTurn(acts, a), b);
  }

  /** The reader never refuses a batch, whenever it looks, exactly when no run was recorded twice and no manifest was
      written after a completed row was lost. */
  lemma ReaderNeverRefusesExactly(p: Plan, ws: seq<Writer>, acts: seq<Write>)
    requires Batch(p, ws, acts)
    ensures AlwaysAccepted(ws) <==> NoRefail(acts, |acts|) && NoManifestAfterLoss(acts)
  {
    if !NoRefail(acts, |acts|) {
      ReaderAcceptsExactly(p, ws, acts, |acts|, |acts|);
    } else if !NoManifestAfterLoss(acts) {
      var i, j :| 0 <= i < j < |acts| && acts[i].Lose? && ReplacesManifest(acts[j]);
      LossIsRefused(p, ws, acts, i, j);
    } else {
      forall a, b | 0 <= a <= b < |ws|
        ensures Consistent(ws[a].manifest, ws[b].rows)
      {
        CleanIsAccepted(p, ws, acts, a, b);
      }
    }
  }
}
