/**
 * The run driver: `import`, which prepares an Import record and then reads
 * the file row by row, calling importRow and logging each outcome, and
 * `importById`, the status guard in front of a resumed run.
 *
 * The user's rights, the attachment lookup, the Import lookup and the
 * exception a row may raise are parameters. The row loop is proved against
 * Run, a function over the rows of the file.
 */
module ImportRun {
  import opened Wrappers
  import opened PhpStrings
  import opened Csv
  import opened CsvLaws
  import opened ImportRows
  import opened ImportRowLaws
  import opened ImportLog

  datatype Status = Standby | Pending | InProcess | Failed | Complete

  // ---------------------------------------------------------------------------
  // Settings of the run
  // ---------------------------------------------------------------------------

  /** The separator: the parameter when it is not PHP-empty, else ","; the two characters `\t` stand for a tab. */
  function Delimiter(params: Params): string {
    var d := if params.delimiter.Some? && !PhpEmpty(params.delimiter.value) then params.delimiter.value else ",";
    ReplaceAll(d, "\\t", "\t")
  }

  /** The quote character: the parameter when it is not PHP-empty, else a double quote. */
  function Enclosure(params: Params): (q: string)
    ensures q != []
    ensures params.textQualifier.None? || PhpEmpty(params.textQualifier.value) ==> q == "\""
  {
    if params.textQualifier.Some? && !PhpEmpty(params.textQualifier.value) then params.textQualifier.value else "\""
  }

  /** A string without a backslash has no `\t` to replace. */
  lemma NoEscape(s: string)
    requires forall k :: 0 <= k < |s| ==> s[k] != '\\'
    ensures ReplaceAll(s, "\\t", "\t") == s
  {
    forall k | 0 <= k <= |s|
      ensures !OccursAt(s, "\\t", k)
    {
      if k + 2 <= |s| {
        assert s[k..k + 2][0] == s[k];
      }
    }
    ReplaceAbsent(s, "\\t", "\t");
  }

  /** The separator is "," by default, a tab for `\t`, and otherwise the parameter as given when it has no backslash. */
  lemma DelimiterChoice(params: Params)
    ensures params.delimiter.None? || PhpEmpty(params.delimiter.value) ==> Delimiter(params) == ","
    ensures params.delimiter == Some("\\t") ==> Delimiter(params) == "\t"
    ensures params.delimiter.Some? && !PhpEmpty(params.delimiter.value) &&
            (forall k :: 0 <= k < |params.delimiter.value| ==> params.delimiter.value[k] != '\\') ==>
            Delimiter(params) == params.delimiter.value
  {
    if params.delimiter.None? || PhpEmpty(params.delimiter.value) {
      NoEscape(",");
    } else if params.delimiter == Some("\\t") {
      var s := "\\t";
      assert s[..2] == "\\t" && s[2..] == "";
      assert Explode(s, "\\t") == ["", ""];
      assert params.delimiter.value[0] == '\\';
    } else if forall k :: 0 <= k < |params.delimiter.value| ==> params.delimiter.value[k] != '\\' {
      NoEscape(params.delimiter.value);
    }
  }

  /** The columns once a non-admin's forbidden attributes are `unset`: the other columns keep their indices. */
  function WithoutForbidden(cols: seq<Column>, forbidden: set<string>): (r: seq<Column>)
    ensures |r| == |cols|
    ensures forall i :: 0 <= i < |r| ==> r[i].Mapped? ==> r[i].name !in forbidden
    ensures forall i :: 0 <= i < |r| ==> !(cols[i].Mapped? && cols[i].name in forbidden) ==> r[i] == cols[i]
    ensures forall i :: 0 <= i < |r| ==> r[i] == cols[i] || r[i] == Removed
  {
    seq(|cols|, i requires 0 <= i < |cols| => if cols[i].Mapped? && cols[i].name in forbidden then Removed else cols[i])
  }

  /** The `foreach` with `unset`. */
  method RemoveForbidden(cols: seq<Column>, forbidden: set<string>) returns (r: seq<Column>)
    ensures r == WithoutForbidden(cols, forbidden)
  {
    r := cols;
    var i := 0;
    while i < |r|
      invariant 0 <= i <= |r| == |cols|
      invariant forall j :: 0 <= j < i ==> r[j] == WithoutForbidden(cols, forbidden)[j]
      invariant forall j :: i <= j < |r| ==> r[j] == cols[j]
    {
      if r[i].Mapped? && r[i].name in forbidden {
        r := r[i := Removed];
      }
      i := i + 1;
    }
  }

  /** The status a new Import gets: Standby in manual mode, else Pending in idle mode, else In Process. */
  function InitialStatus(params: Params): (s: Status)
    ensures s == Standby <==> params.manualMode
    ensures s == Pending <==> !params.manualMode && params.idleMode
  {
    if params.manualMode then Standby else if params.idleMode then Pending else InProcess
  }

  /** The parameters stored with a new Import: manual mode unsets idle mode. */
  function StoredParams(params: Params): (p: Params)
    ensures p.manualMode == params.manualMode
    ensures p.idleMode <==> params.idleMode && !params.manualMode
    ensures p.(idleMode := params.idleMode) == params
  {
    if params.manualMode then params.(idleMode := false) else params
  }

  /** `str_replace("\r\n", "\n", $contents)`. */
  function Normalised(contents: string): string {
    ReplaceAll(contents, "\r\n", "\n")
  }

  /** Text with no carriage return is read as it is. */
  lemma NormalisedUnixText(contents: string)
    requires forall k :: 0 <= k < |contents| ==> contents[k] != '\r'
    ensures Normalised(contents) == contents
  {
    forall k | 0 <= k <= |contents|
      ensures !OccursAt(contents, "\r\n", k)
    {
      if k + 2 <= |contents| {
        assert contents[k..k + 2][0] == contents[k];
      }
    }
    ReplaceAbsent(contents, "\r\n", "\n");
  }

  // ---------------------------------------------------------------------------
  // The row loop, as a function over the file
  // ---------------------------------------------------------------------------

  /**
   * What the row loop works with: the entity type, the Import id, the
   * columns, the parameters, the user's rights, the schema, the foreign
   * answers for row i, whether importing row i raises an exception, the
   * index to resume after, the separator, the quote character, and what
   * importRow returns for row i (see FromImportRow).
   */
  datatype RunContext = RunContext(scope: string, importId: string, cols: seq<Column>, params: Params, isAdmin: bool,
                                   schema: Schema, stores: int -> Store, throws: int -> bool, startFrom: Option<int>,
                                   sep: string, enc: string, rowResult: (int, map<nat, string>) -> RowResult)

  /** The row results are those of importRow, called with the run's columns, parameters and user. */
  ghost predicate FromImportRow(ctx: RunContext) {
    forall i, arr {:trigger ImportRowSpec(ctx.cols, arr, ctx.params, ctx.isAdmin, ctx.schema, ctx.stores(i))} ::
      ctx.rowResult(i, arr) == ImportRowSpec(ctx.cols, arr, ctx.params, ctx.isAdmin, ctx.schema, ctx.stores(i))
  }

  /** importRow called for row i of the run. */
  method RowResultFor(ctx: RunContext, i: int, arr: map<nat, string>) returns (rr: RowResult)
    requires FromImportRow(ctx)
    ensures rr == ctx.rowResult(i, arr)
  {
    rr := ImportRow(ctx.cols, arr, ctx.params, ctx.isAdmin, ctx.schema, ctx.stores(i));
  }

  /** A row result never reports a row as both imported and updated. */
  ghost predicate ConsistentRows(ctx: RunContext) {
    forall i, arr :: ctx.rowResult(i, arr).Done? ==> !(ctx.rowResult(i, arr).isImported && ctx.rowResult(i, arr).isUpdated)
  }

  lemma ImportRowIsConsistent(ctx: RunContext)
    requires FromImportRow(ctx)
    ensures ConsistentRows(ctx)
  {
    forall i, arr
      ensures ctx.rowResult(i, arr).Done? ==> !(ctx.rowResult(i, arr).isImported && ctx.rowResult(i, arr).isUpdated)
    {
      OutcomeFlags(ctx.cols, arr, ctx.params, ctx.isAdmin, ctx.schema, ctx.stores(i));
    }
  }

  /**
   * The loop's variables: the row index, the Import's lastIndex, the
   * lastIndex values saved so far, the ImportEntity rows created so far, the
   * three id lists, and whether an exception ended the loop.
   */
  datatype RunState = RunState(i: int, lastIndex: Option<int>, checkpoints: seq<int>, logged: seq<ImportEntityRow>,
                               importedIds: seq<Option<string>>, updatedIds: seq<Option<string>>,
                               duplicateIds: seq<Option<string>>, failed: bool)

  function Begin(lastIndex: Option<int>): RunState {
    RunState(-1, lastIndex, [], [], [], [], [], false)
  }

  /** Row i is imported: not the header row, not a lone PHP-empty cell among several columns, not before the resume point. */
  predicate Admitted(i: int, arr: map<nat, string>, ctx: RunContext) {
    !(i == 0 && ctx.params.headerRow) &&
    !(|arr| == 1 && (0 !in arr || PhpEmpty(arr[0])) && MappedCount(ctx.cols) > 1) &&
    !(ctx.startFrom.Some? && i <= ctx.startFrom.value)
  }

  /** A non-null row result: lastIndex is saved, then the ids are listed and the ImportEntity row is created. */
  function Tally(st: RunState, rr: RowResult, ctx: RunContext): RunState {
    match rr
    case Skipped => st
    case Done(id, imported, updated, duplicate) =>
      st.(lastIndex := Some(st.i), checkpoints := st.checkpoints + [st.i],
          importedIds := st.importedIds + (if imported then [id] else []),
          updatedIds := st.updatedIds + (if updated then [id] else []),
          duplicateIds := st.duplicateIds + (if duplicate then [id] else []),
          logged := st.logged + [ImportEntityRow(ctx.importId, Some(ctx.scope), id, imported, updated, duplicate)])
  }

  /** One non-empty row of the file. */
  function RowStep(st: RunState, arr: map<nat, string>, ctx: RunContext): RunState {
    var i := st.i + 1;
    if !Admitted(i, arr, ctx) then st.(i := i)
    else if ctx.throws(i) then st.(i := i, failed := true)
    else Tally(st.(i := i), ctx.rowResult(i, arr), ctx)
  }

  /** An empty buffer is read as an empty row. */
  lemma EmptyBufferNoRow(sep: string, enc: string, lb: string)
    ensures ReadRow([], sep, enc, lb).row == map[]
  {
    assert Pad(map[], 0) == map[];
  }

  /** The rows the loop reads from a buffer: up to the first empty one. */
  function RowsOf(contents: string, sep: string, enc: string): seq<map<nat, string>>
    decreases |contents|
  {
    var r := ReadRow(contents, sep, enc, "\n");
    if r.row == map[] then []
    else
      EmptyBufferNoRow(sep, enc, "\n");
      [r.row] + RowsOf(r.rest, sep, enc)
  }

  /** The loop over the rows read: it stops after the row that raised an exception. */
  function RunOver(rows: seq<map<nat, string>>, st: RunState, ctx: RunContext): RunState
    decreases |rows|
  {
    if rows == [] then st
    else
      var next := RowStep(st, rows[0], ctx);
      if next.failed then next else RunOver(rows[1..], next, ctx)
  }

  // ---------------------------------------------------------------------------
  // Properties of the row loop
  // ---------------------------------------------------------------------------

  /** `$i` goes up by one for each row read, and only a failure stops the loop before the rows run out. */
  lemma {:induction false} RunCountsRows(rows: seq<map<nat, string>>, st: RunState, ctx: RunContext)
    requires !st.failed
    ensures var e := RunOver(rows, st, ctx);
      st.i <= e.i <= st.i + |rows| && (!e.failed ==> e.i == st.i + |rows|)
    decreases |rows|
  {
    if rows != [] {
      var next := RowStep(st, rows[0], ctx);
      if !next.failed {
        RunCountsRows(rows[1..], next, ctx);
      }
    }
  }

  /** A blank line ends the loop: nothing after it is read. */
  lemma BlankLineEndsRun(rest: string, sep: string, enc: string)
    ensures RowsOf("\n" + rest, sep, enc) == []
  {
    BlankLine(rest, sep, enc, '\n');
  }

  /** A row the loop skips changes nothing but the row index. */
  lemma SkippedRowChangesNothing(st: RunState, arr: map<nat, string>, ctx: RunContext)
    requires !Admitted(st.i + 1, arr, ctx) || (!ctx.throws(st.i + 1) && ctx.rowResult(st.i + 1, arr).Skipped?)
    ensures RowStep(st, arr, ctx) == st.(i := st.i + 1)
  {
  }

  /** A saved lastIndex value is an index the loop imports: not the header row, and after the resume point. */
  predicate Importable(c: int, ctx: RunContext) {
    0 <= c && !(c == 0 && ctx.params.headerRow) && !(ctx.startFrom.Some? && c <= ctx.startFrom.value)
  }

  function CountImported(rows: seq<ImportEntityRow>): nat {
    if rows == [] then 0 else CountImported(rows[..|rows| - 1]) + (if rows[|rows| - 1].isImported then 1 else 0)
  }

  /**
   * What the loop keeps true: the saved lastIndex values strictly increase,
   * are importable and not past the current row, lastIndex is the last of
   * them, each has its ImportEntity row, every such row belongs to this
   * import and entity type and is never both imported and updated, and
   * countCreated counts the imported ones. The pairing of saved indices with
   * logged rows relies on a throw coming before any effect of its row.
   */
  predicate Inv(st: RunState, ctx: RunContext) {
    st.i >= -1 && |st.checkpoints| == |st.logged| && Saved(st, ctx) && Logged(st, ctx) &&
    |st.importedIds| == CountImported(st.logged)
  }

  /** The saved lastIndex values: increasing, importable, not past the row index, the last one current. */
  predicate Saved(st: RunState, ctx: RunContext) {
    (forall j, k :: 0 <= j < k < |st.checkpoints| ==> st.checkpoints[j] < st.checkpoints[k]) &&
    (forall k :: 0 <= k < |st.checkpoints| ==> Importable(st.checkpoints[k], ctx) && st.checkpoints[k] <= st.i) &&
    (st.checkpoints != [] ==> st.lastIndex == Some(st.checkpoints[|st.checkpoints| - 1]))
  }

  /** The ImportEntity rows: this import's, this entity type's, never both imported and updated. */
  predicate Logged(st: RunState, ctx: RunContext) {
    forall k :: 0 <= k < |st.logged| ==>
      st.logged[k].importId == ctx.importId && st.logged[k].entityType == Some(ctx.scope) &&
      !(st.logged[k].isImported && st.logged[k].isUpdated)
  }

  lemma BeginInv(lastIndex: Option<int>, ctx: RunContext)
    ensures Inv(Begin(lastIndex), ctx)
  {
  }

  /** Logging a row result at a fresh, importable index keeps the invariant. */
  lemma TallyInv(st: RunState, rr: RowResult, ctx: RunContext)
    requires Inv(st, ctx) && Importable(st.i, ctx)
    requires forall k :: 0 <= k < |st.checkpoints| ==> st.checkpoints[k] < st.i
    requires rr.Done? ==> !(rr.isImported && rr.isUpdated)
    ensures Inv(Tally(st, rr, ctx), ctx)
  {
    if rr.Done? {
      var e := Tally(st, rr, ctx);
      assert Saved(e, ctx) by {
        assert e.checkpoints == st.checkpoints + [st.i] && e.lastIndex == Some(st.i) && e.i == st.i;
      }
      assert Logged(e, ctx) by {
        assert e.logged == st.logged + [ImportEntityRow(ctx.importId, Some(ctx.scope), rr.id, rr.isImported, rr.isUpdated, rr.isDuplicate)];
      }
      assert e.logged[..|e.logged| - 1] == st.logged;
    }
  }

  /** A row the loop passes over keeps the invariant. */
  lemma PassedRowInv(st: RunState, arr: map<nat, string>, ctx: RunContext)
    requires Inv(st, ctx)
    requires !Admitted(st.i + 1, arr, ctx) || ctx.throws(st.i + 1)
    ensures Inv(RowStep(st, arr, ctx), ctx)
  {
    assert RowStep(st, arr, ctx) == st.(i := st.i + 1, failed := st.failed || Admitted(st.i + 1, arr, ctx));
  }

  /** Moving on to the next row keeps the invariant, and every saved index is now below the row index. */
  lemma NextRowInv(st: RunState, ctx: RunContext)
    requires Inv(st, ctx)
    ensures Inv(st.(i := st.i + 1), ctx)
    ensures forall k :: 0 <= k < |st.checkpoints| ==> st.checkpoints[k] < st.i + 1
  {
  }

  /** A row that reaches importRow keeps the invariant. */
  lemma ImportedRowInv(st: RunState, arr: map<nat, string>, ctx: RunContext)
    requires Inv(st, ctx) && ConsistentRows(ctx)
    requires Admitted(st.i + 1, arr, ctx) && !ctx.throws(st.i + 1)
    ensures Inv(RowStep(st, arr, ctx), ctx)
  {
    var rr := ctx.rowResult(st.i + 1, arr);
    assert rr.Done? ==> !(rr.isImported && rr.isUpdated);
    NextRowInv(st, ctx);
    assert Importable(st.i + 1, ctx);
    TallyInv(st.(i := st.i + 1), rr, ctx);
    assert RowStep(st, arr, ctx) == Tally(st.(i := st.i + 1), rr, ctx);
  }

  lemma RowStepInv(st: RunState, arr: map<nat, string>, ctx: RunContext)
    requires Inv(st, ctx) && ConsistentRows(ctx)
    ensures Inv(RowStep(st, arr, ctx), ctx)
  {
    if !Admitted(st.i + 1, arr, ctx) || ctx.throws(st.i + 1) {
      PassedRowInv(st, arr, ctx);
    } else {
      ImportedRowInv(st, arr, ctx);
    }
  }

  /** The invariant holds at the end of the loop, whatever the rows. */
  lemma {:induction false} RunInv(rows: seq<map<nat, string>>, st: RunState, ctx: RunContext)
    requires Inv(st, ctx) && ConsistentRows(ctx)
    ensures Inv(RunOver(rows, st, ctx), ctx)
    decreases |rows|
  {
    if rows != [] {
      RowStepInv(st, rows[0], ctx);
      var next := RowStep(st, rows[0], ctx);
      if !next.failed {
        RunInv(rows[1..], next, ctx);
      }
    }
  }

  /**
   * Whatever the rows, the run that calls importRow ends with the saved
   * lastIndex values strictly increasing, importable and paired with their
   * ImportEntity rows, and countCreated counting the imported ones.
   */
  lemma RunLog(rows: seq<map<nat, string>>, lastIndex: Option<int>, ctx: RunContext)
    requires FromImportRow(ctx)
    ensures Inv(RunOver(rows, Begin(lastIndex), ctx), ctx)
  {
    ImportRowIsConsistent(ctx);
    BeginInv(lastIndex, ctx);
    RunInv(rows, Begin(lastIndex), ctx);
  }

  // ---------------------------------------------------------------------------
  // The Import record and the methods
  // ---------------------------------------------------------------------------

  class ImportRecord {
    const id: string
    var entityType: string
    var fileId: string
    var status: Status
    var lastIndex: Option<int>
    var params: Params
    var attributeList: seq<Column>
    /** The lastIndex values saved by the row loops, in order. */
    ghost var checkpoints: seq<int>

    constructor (id: string, entityType: string, fileId: string, status: Status, params: Params, attributeList: seq<Column>)
      ensures this.id == id && this.entityType == entityType && this.fileId == fileId && this.status == status
      ensures this.params == params && this.attributeList == attributeList
      ensures lastIndex.None? && checkpoints == []
    {
      this.id := id;
      this.entityType := entityType;
      this.fileId := fileId;
      this.status := status;
      this.params := params;
      this.attributeList := attributeList;
      lastIndex := None;
      checkpoints := [];
    }

    /** The end of `import`: status Failed when an exception cut the loop short, then Complete in any case. */
    method Finish(failed: bool)
      modifies this
      ensures status == Complete
      ensures entityType == old(entityType) && fileId == old(fileId) && params == old(params) && attributeList == old(attributeList)
      ensures lastIndex == old(lastIndex) && checkpoints == old(checkpoints)
    {
      if failed {
        status := Failed;
      }
      status := Complete;
    }
  }

  /** A row changes only lastIndex and its history on the Import, and only the ImportEntity table. */
  twostate predicate Kept(imp: ImportRecord, db: Database)
    reads imp, db
  {
    imp.status == old(imp.status) && imp.params == old(imp.params) && imp.attributeList == old(imp.attributeList) &&
    imp.entityType == old(imp.entityType) && imp.fileId == old(imp.fileId) &&
    db.records == old(db.records) && db.imports == old(db.imports) && db.repositories == old(db.repositories)
  }

  /**
   * The checks of one row before anything is saved: the header row, a lone
   * PHP-empty cell among several columns and a row before the resume point
   * are passed over, and an exception from importRow marks the run failed.
   * `result` is importRow's result for a row that reaches it without an
   * exception, and null (Skipped) for any other row.
   */
  method AdmitRow(st: RunState, arr: map<nat, string>, ctx: RunContext) returns (next: RunState, result: RowResult)
    requires FromImportRow(ctx)
    ensures next == st.(i := st.i + 1, failed := next.failed)
    ensures RowStep(st, arr, ctx) == Tally(next, result, ctx)
  {
    var i := st.i + 1;
    next := st.(i := i);
    result := Skipped;
    if i == 0 && ctx.params.headerRow {
      return;
    }
    if |arr| == 1 && (0 !in arr || PhpEmpty(arr[0])) && MappedCount(ctx.cols) > 1 {
      return;
    }
    if ctx.startFrom.Some? && i <= ctx.startFrom.value {
      return;
    }
    if ctx.throws(i) {
      next := next.(failed := true);
      return;
    }
    result := RowResultFor(ctx, i, arr);
  }

  /** `if (!$result) continue;`, and otherwise the row result is logged. */
  method LogIfDone(imp: ImportRecord, db: Database, st: RunState, rowResult: RowResult, ctx: RunContext,
                   ghost savedBefore: seq<int>, ghost loggedBefore: seq<ImportEntityRow>)
    returns (next: RunState)
    requires imp.lastIndex == st.lastIndex && imp.checkpoints == savedBefore + st.checkpoints
    requires db.importEntities == loggedBefore + st.logged
    modifies imp, db
    ensures next == Tally(st, rowResult, ctx)
    ensures imp.lastIndex == next.lastIndex && imp.checkpoints == savedBefore + next.checkpoints
    ensures db.importEntities == loggedBefore + next.logged
    ensures Kept(imp, db)
  {
    next := st;
    if rowResult.Skipped? {
      return;
    }
    next := LogRowResult(imp, db, st, rowResult, ctx, savedBefore, loggedBefore);
  }

  /** A non-null row result: lastIndex is saved first, then the ids are listed and the ImportEntity row is created. */
  method LogRowResult(imp: ImportRecord, db: Database, st: RunState, rowResult: RowResult, ctx: RunContext,
                      ghost savedBefore: seq<int>, ghost loggedBefore: seq<ImportEntityRow>)
    returns (next: RunState)
    requires rowResult.Done?
    requires imp.lastIndex == st.lastIndex && imp.checkpoints == savedBefore + st.checkpoints
    requires db.importEntities == loggedBefore + st.logged
    modifies imp, db
    ensures next == Tally(st, rowResult, ctx)
    ensures imp.lastIndex == next.lastIndex && imp.checkpoints == savedBefore + next.checkpoints
    ensures db.importEntities == loggedBefore + next.logged
    ensures Kept(imp, db)
  {
    imp.lastIndex := Some(st.i);
    imp.checkpoints := imp.checkpoints + [st.i];
    next := st.(lastIndex := Some(st.i), checkpoints := st.checkpoints + [st.i]);
    if rowResult.isImported {
      next := next.(importedIds := next.importedIds + [rowResult.id]);
    }
    if rowResult.isUpdated {
      next := next.(updatedIds := next.updatedIds + [rowResult.id]);
    }
    if rowResult.isDuplicate {
      next := next.(duplicateIds := next.duplicateIds + [rowResult.id]);
    }
    var entry := ImportEntityRow(ctx.importId, Some(ctx.scope), rowResult.id,
                                 rowResult.isImported, rowResult.isUpdated, rowResult.isDuplicate);
    db.importEntities := db.importEntities + [entry];
    next := next.(logged := next.logged + [entry]);
  }

  /** The row loop of `import`: reads the buffer row by row until an empty row or an exception. */
  method RunRows(imp: ImportRecord, db: Database, contents0: string, ctx: RunContext) returns (st: RunState)
    requires FromImportRow(ctx)
    modifies imp, db
    ensures st == RunOver(RowsOf(contents0, ctx.sep, ctx.enc), Begin(old(imp.lastIndex)), ctx)
    ensures imp.lastIndex == st.lastIndex && imp.checkpoints == old(imp.checkpoints) + st.checkpoints
    ensures db.importEntities == old(db.importEntities) + st.logged
    ensures imp.status == old(imp.status) && imp.params == old(imp.params) && imp.attributeList == old(imp.attributeList)
    ensures imp.entityType == old(imp.entityType) && imp.fileId == old(imp.fileId)
    ensures db.records == old(db.records) && db.imports == old(db.imports) && db.repositories == old(db.repositories)
  {
    var contents := contents0;
    st := Begin(imp.lastIndex);
    while true
      invariant !st.failed
      invariant RunOver(RowsOf(contents0, ctx.sep, ctx.enc), Begin(old(imp.lastIndex)), ctx) ==
                RunOver(RowsOf(contents, ctx.sep, ctx.enc), st, ctx)
      invariant imp.lastIndex == st.lastIndex && imp.checkpoints == old(imp.checkpoints) + st.checkpoints
      invariant db.importEntities == old(db.importEntities) + st.logged
      invariant imp.status == old(imp.status) && imp.params == old(imp.params) && imp.attributeList == old(imp.attributeList)
      invariant imp.entityType == old(imp.entityType) && imp.fileId == old(imp.fileId)
      invariant db.records == old(db.records) && db.imports == old(db.imports) && db.repositories == old(db.repositories)
      decreases |contents|
    {
      var arr, rest := ReadCsvString(contents, ctx.sep, ctx.enc, "\n");
      if arr == map[] {
        break;
      }
      EmptyBufferNoRow(ctx.sep, ctx.enc, "\n");
      contents := rest;
      var next, result := AdmitRow(st, arr, ctx);
      st := LogIfDone(imp, db, next, result, ctx, old(imp.checkpoints), old(db.importEntities));
      if st.failed {
        break;
      }
    }
  }

  // ---------------------------------------------------------------------------
  // import and importById
  // ---------------------------------------------------------------------------

  datatype ImportError = CreateForbidden | NoAttachment | EmptyFile | ImportNotFound

  /** The returned object: the Import id, the two counts, and whether the import was left for manual running. */
  datatype Summary = Summary(id: string, countCreated: nat, countUpdated: nat, manualMode: bool)

  /** `if ($importId)`: an existing Import is resumed. */
  predicate Resumes(importId: Option<string>) {
    importId.Some? && !PhpEmpty(importId.value)
  }

  /** A new Import in manual mode is saved and left on Standby. */
  predicate LeftForManual(importId: Option<string>, params: Params) {
    !Resumes(importId) && params.manualMode
  }

  /** The run is handed to a job: idle mode, still set after the manual-mode `unset`. */
  predicate LeftForJob(importId: Option<string>, params: Params) {
    !LeftForManual(importId, params) && (if Resumes(importId) then params.idleMode else StoredParams(params).idleMode)
  }

  /** The columns the run uses. */
  function RunColumns(cols: seq<Column>, isAdmin: bool, forbidden: set<string>): seq<Column> {
    if isAdmin then cols else WithoutForbidden(cols, forbidden)
  }

  /** importRow as the row loop calls it. */
  function RowResults(cols: seq<Column>, params: Params, isAdmin: bool, schema: Schema, stores: int -> Store)
    : (int, map<nat, string>) -> RowResult
  {
    (i: int, arr: map<nat, string>) => ImportRowSpec(cols, arr, params, isAdmin, schema, stores(i))
  }

  function ContextFor(scope: string, importId: string, cols: seq<Column>, params: Params, isAdmin: bool,
                      schema: Schema, stores: int -> Store, throws: int -> bool, startFrom: Option<int>): (ctx: RunContext)
    ensures FromImportRow(ctx)
  {
    RunContext(scope, importId, cols, params, isAdmin, schema, stores, throws, startFrom,
               Delimiter(params), Enclosure(params), RowResults(cols, params, isAdmin, schema, stores))
  }

  /**
   * `import`: checks the user and the file, creates or resumes the Import,
   * returns early in manual and idle mode, and otherwise runs the row loop
   * and marks the Import Complete, even when an exception ended the loop.
   * `attachment` is the file's contents, None when there is no attachment;
   * `existing` is the Import found for importId.
   */
  method Import(db: Database, scope: string, cols0: seq<Column>, fileId: string, attachment: Option<string>,
                params: Params, importId: Option<string>, existing: ImportRecord?, newId: string,
                isAdmin: bool, forbidden: set<string>, canCreate: bool,
                schema: Schema, stores: int -> Store, throws: int -> bool)
    returns (r: Result<Summary, ImportError>, imp: ImportRecord?)
    modifies db, existing
    ensures !isAdmin && !canCreate ==> r == Err(CreateForbidden)
    ensures (isAdmin || canCreate) && attachment.None? ==> r == Err(NoAttachment)
    ensures (isAdmin || canCreate) && attachment.Some? && PhpEmpty(attachment.value) ==> r == Err(EmptyFile)
    ensures (isAdmin || canCreate) && attachment.Some? && !PhpEmpty(attachment.value) && Resumes(importId) && existing == null ==>
            r == Err(ImportNotFound)
    ensures r.Ok? <==> (isAdmin || canCreate) && attachment.Some? && !PhpEmpty(attachment.value) &&
                        (Resumes(importId) ==> existing != null)
    ensures r.Err? ==> db.importEntities == old(db.importEntities) && (existing != null ==> unchanged(existing))
    ensures r.Ok? ==> imp != null && r.value.id == imp.id
    ensures r.Ok? && Resumes(importId) ==> imp == existing && imp.params == old(imp.params) && imp.attributeList == old(imp.attributeList)
    ensures r.Ok? && !Resumes(importId) ==>
            fresh(imp) && imp.id == newId && imp.entityType == scope && imp.fileId == fileId &&
            imp.params == StoredParams(params) && imp.attributeList == RunColumns(cols0, isAdmin, forbidden)
    ensures r.Ok? && LeftForManual(importId, params) ==>
            r.value == Summary(imp.id, 0, 0, true) && imp.status == Standby && db.importEntities == old(db.importEntities)
    ensures r.Ok? && LeftForJob(importId, params) ==>
            r.value == Summary(imp.id, 0, 0, false) && db.importEntities == old(db.importEntities) &&
            imp.status == (if Resumes(importId) then InProcess else Pending)
    ensures r.Ok? && !LeftForManual(importId, params) && !LeftForJob(importId, params) ==>
            var resumed := Resumes(importId);
            var ctx := ContextFor(scope, imp.id, RunColumns(cols0, isAdmin, forbidden), params, isAdmin, schema, stores, throws,
                                  if resumed && params.startFromLastIndex then old(existing.lastIndex) else None);
            var st := RunOver(RowsOf(Normalised(attachment.value), ctx.sep, ctx.enc),
                              Begin(if resumed then old(existing.lastIndex) else None), ctx);
            r.value == Summary(imp.id, |st.importedIds|, |st.updatedIds|, false) && imp.status == Complete &&
            imp.lastIndex == st.lastIndex && db.importEntities == old(db.importEntities) + st.logged &&
            imp.checkpoints == (if resumed then old(existing.checkpoints) else []) + st.checkpoints
    ensures db.records == old(db.records) && db.imports == old(db.imports) && db.repositories == old(db.repositories)
  {
    imp := null;
    var setup, cols, startFrom, delimiter, enclosure :=
      OpenImport(scope, cols0, fileId, attachment, params, importId, existing, newId, isAdmin, forbidden, canCreate);
    if setup.Err? {
      return Err(setup.error), null;
    }
    imp := setup.value;
    var contents := attachment.value;
    var runParams := if Resumes(importId) then params else StoredParams(params);
    if LeftForManual(importId, params) {
      return Ok(Summary(imp.id, 0, 0, true)), imp;
    }
    if runParams.idleMode {
      return Ok(Summary(imp.id, 0, 0, false)), imp;
    }
    var ctx := ContextFor(scope, imp.id, cols, params, isAdmin, schema, stores, throws, startFrom);
    assert ctx.sep == delimiter && ctx.enc == enclosure;
    var summary, st := RunImport(imp, db, contents, ctx);
    r := Ok(summary);
  }

  /** The try block of `import` and what follows it: the row loop, then status Complete whether or not it failed. */
  method RunImport(imp: ImportRecord, db: Database, contents: string, ctx: RunContext) returns (summary: Summary, st: RunState)
    requires FromImportRow(ctx)
    modifies imp, db
    ensures st == RunOver(RowsOf(Normalised(contents), ctx.sep, ctx.enc), Begin(old(imp.lastIndex)), ctx)
    ensures summary == Summary(imp.id, |st.importedIds|, |st.updatedIds|, false)
    ensures imp.status == Complete
    ensures imp.lastIndex == st.lastIndex && db.importEntities == old(db.importEntities) + st.logged
    ensures imp.checkpoints == old(imp.checkpoints) + st.checkpoints
    ensures imp.params == old(imp.params) && imp.attributeList == old(imp.attributeList)
    ensures imp.entityType == old(imp.entityType) && imp.fileId == old(imp.fileId)
    ensures db.records == old(db.records) && db.imports == old(db.imports) && db.repositories == old(db.repositories)
  {
    var text := Normalised(contents);
    st := RunRows(imp, db, text, ctx);
    imp.Finish(st.failed);
    summary := Summary(imp.id, |st.importedIds|, |st.updatedIds|, false);
  }

  /** The separator and quote defaults, with a literal `\t` read as a tab. */
  method Separators(params: Params) returns (delimiter: string, enclosure: string)
    ensures delimiter == Delimiter(params) && enclosure == Enclosure(params)
  {
    delimiter := ",";
    if params.delimiter.Some? && !PhpEmpty(params.delimiter.value) {
      delimiter := params.delimiter.value;
    }
    enclosure := "\"";
    if params.textQualifier.Some? && !PhpEmpty(params.textQualifier.value) {
      enclosure := params.textQualifier.value;
    }
    delimiter := ReplaceAll(delimiter, "\\t", "\t");
  }

  /** A new Import record in its initial status; a manual import keeps its parameters without idleMode. */
  method NewImport(newId: string, scope: string, fileId: string, params: Params, cols: seq<Column>) returns (imp: ImportRecord)
    ensures fresh(imp) && imp.id == newId && imp.entityType == scope && imp.fileId == fileId &&
            imp.status == InitialStatus(params) && imp.params == StoredParams(params) &&
            imp.attributeList == cols && imp.lastIndex.None? && imp.checkpoints == []
  {
    imp := new ImportRecord(newId, scope, fileId, InProcess, params, cols);
    if params.manualMode {
      imp.params := StoredParams(params);
      imp.status := Standby;
    } else if params.idleMode {
      imp.status := Pending;
    }
  }

  /**
   * The first part of `import`: the separator and quote character, the
   * forbidden columns, the checks on the user and the file, and the Import
   * record, resumed (and set In Process) or new.
   */
  method OpenImport(scope: string, cols0: seq<Column>, fileId: string, attachment: Option<string>,
                    params: Params, importId: Option<string>, existing: ImportRecord?, newId: string,
                    isAdmin: bool, forbidden: set<string>, canCreate: bool)
    returns (r: Result<ImportRecord, ImportError>, cols: seq<Column>, startFrom: Option<int>, delimiter: string, enclosure: string)
    modifies existing
    ensures !isAdmin && !canCreate ==> r == Err(CreateForbidden)
    ensures (isAdmin || canCreate) && attachment.None? ==> r == Err(NoAttachment)
    ensures (isAdmin || canCreate) && attachment.Some? && PhpEmpty(attachment.value) ==> r == Err(EmptyFile)
    ensures (isAdmin || canCreate) && attachment.Some? && !PhpEmpty(attachment.value) && Resumes(importId) && existing == null ==>
            r == Err(ImportNotFound)
    ensures r.Ok? <==> (isAdmin || canCreate) && attachment.Some? && !PhpEmpty(attachment.value) &&
                        (Resumes(importId) ==> existing != null)
    ensures r.Err? ==> existing != null ==> unchanged(existing)
    ensures delimiter == Delimiter(params) && enclosure == Enclosure(params)
    ensures r.Ok? ==> cols == RunColumns(cols0, isAdmin, forbidden)
    ensures r.Ok? && Resumes(importId) ==>
            r.value == existing && existing.status == InProcess &&
            startFrom == (if params.startFromLastIndex then old(existing.lastIndex) else None) &&
            existing.lastIndex == old(existing.lastIndex) && existing.checkpoints == old(existing.checkpoints) &&
            existing.params == old(existing.params) && existing.attributeList == old(existing.attributeList) &&
            existing.entityType == old(existing.entityType) && existing.fileId == old(existing.fileId)
    ensures r.Ok? && !Resumes(importId) ==>
            fresh(r.value) && r.value.id == newId && r.value.entityType == scope && r.value.fileId == fileId &&
            r.value.status == InitialStatus(params) && r.value.params == StoredParams(params) &&
            r.value.attributeList == cols && r.value.lastIndex.None? && r.value.checkpoints == [] && startFrom.None?
  {
    delimiter, enclosure := Separators(params);
    startFrom := None;
    cols := cols0;
    if !isAdmin {
      cols := RemoveForbidden(cols, forbidden);
      if !canCreate {
        return Err(CreateForbidden), cols, startFrom, delimiter, enclosure;
      }
    }
    if attachment.None? {
      return Err(NoAttachment), cols, startFrom, delimiter, enclosure;
    }
    if PhpEmpty(attachment.value) {
      return Err(EmptyFile), cols, startFrom, delimiter, enclosure;
    }
    if Resumes(importId) {
      if existing == null {
        return Err(ImportNotFound), cols, startFrom, delimiter, enclosure;
      }
      if params.startFromLastIndex {
        startFrom := existing.lastIndex;
      }
      existing.status := InProcess;
      r := Ok(existing);
    } else {
      var imp := NewImport(newId, scope, fileId, params, cols);
      r := Ok(imp);
    }
  }

  /** The status check of `importById`: Standby always runs, In Process and Failed only when forced. */
  function RunAllowed(status: Status, forceResume: bool): (ok: bool)
    ensures status == Standby ==> ok
    ensures status == Pending || status == Complete ==> !ok
    ensures status == InProcess || status == Failed ==> (ok <==> forceResume)
  {
    if status != Standby then (status == InProcess || status == Failed) && forceResume else true
  }

  datatype ByIdError = ByIdNotFound | StatusForbids(status: Status) | RunFailed(ImportError)

  /**
   * `importById`: runs the Import found for id (`found`, null when there is
   * none) with its own columns, file and parameters, after the status check.
   */
  method ImportById(db: Database, id: string, found: ImportRecord?, startFromLastIndex: bool, forceResume: bool,
                    attachment: Option<string>, newId: string, isAdmin: bool, forbidden: set<string>, canCreate: bool,
                    schema: Schema, stores: int -> Store, throws: int -> bool)
    returns (r: Result<Summary, ByIdError>)
    modifies db, found
    ensures found == null ==> r == Err(ByIdNotFound) && db.importEntities == old(db.importEntities)
    ensures found != null && !RunAllowed(old(found.status), forceResume) ==>
            r == Err(StatusForbids(old(found.status))) && unchanged(found) && db.importEntities == old(db.importEntities)
    ensures found != null && RunAllowed(old(found.status), forceResume) && Resumes(Some(id)) && r.Ok? ==>
            r.value.id == found.id && found.params == old(found.params) &&
            (found.status == Complete || found.status == InProcess)
    ensures db.records == old(db.records) && db.imports == old(db.imports) && db.repositories == old(db.repositories)
  {
    if found == null {
      return Err(ByIdNotFound);
    }
    var status := found.status;
    if status != Standby {
      if status == InProcess || status == Failed {
        if !forceResume {
          return Err(StatusForbids(status));
        }
      } else {
        return Err(StatusForbids(status));
      }
    }
    var params := found.params.(startFromLastIndex := startFromLastIndex);
    var result, imp := Import(db, found.entityType, found.attributeList, found.fileId, attachment, params, Some(id), found,
                              newId, isAdmin, forbidden, canCreate, schema, stores, throws);
    match result
    case Err(e) => r := Err(RunFailed(e));
    case Ok(summary) => r := Ok(summary);
  }
}
