/** The convergence engine proper (setup.js:94-162, 200-256, 267-286,
    295-329, 338-428): for each declared table in order, create it or alter
    it against its stored snapshot, then record the new snapshot. Each method
    is proved against a specification function of the same name family
    (`...Statements`, `TableStep`, `RunTables`, `SetupRun`) that says what the
    engine issues and stores. */
module Migrator {
  import opened Seqs
  import opened Schema
  import opened Ddl
  import opened Diff
  import opened History

  function ColumnName(c: Column): Option<string>
  {
    c.name
  }

  function ConstraintName(k: Constraint): Option<string>
  {
    k.name
  }

  /** The column partitions of handleColumnChanges (setup.js:340-347). */
  function ColumnChanges(stored: seq<Column>, declared: seq<Column>): ChangeSet<Column>
  {
    Changes(ColumnName, declared, stored)
  }

  /** The constraint partitions of handleConstraintChanges (setup.js:297-304);
      the engine computes them and issues nothing for them. */
  function ConstraintChanges(stored: seq<Constraint>, declared: seq<Constraint>): ChangeSet<Constraint>
  {
    Changes(ConstraintName, declared, stored)
  }

  datatype AlterKind = AddColumn | DropColumn | ModifyColumn

  function AlterStatement(kind: AlterKind, table: string, c: Column): string
  {
    match kind
    case AddColumn => AddColumnStatement(table, c)
    case DropColumn => DropColumnStatement(table, c)
    case ModifyColumn => ModifyColumnStatement(table, c)
  }

  /** One statement of the given kind per column, in list order. */
  function AlterStatements(kind: AlterKind, table: string, cols: seq<Column>): (r: seq<string>)
    ensures |r| == |cols|
    ensures forall i :: 0 <= i < |cols| ==> r[i] == AlterStatement(kind, table, cols[i])
  {
    if cols == [] then [] else [AlterStatement(kind, table, cols[0])] + AlterStatements(kind, table, cols[1..])
  }

  lemma {:induction false} AlterStatementsSnoc(kind: AlterKind, table: string, cols: seq<Column>, c: Column)
    ensures AlterStatements(kind, table, cols + [c]) == AlterStatements(kind, table, cols) + [AlterStatement(kind, table, c)]
  {
    if cols != [] {
      assert (cols + [c])[1..] == cols[1..] + [c];
      AlterStatementsSnoc(kind, table, cols[1..], c);
    }
  }

  /** Everything handleColumnChanges sends: all ADDs, then all DROPs, then
      all MODIFYs, each group in list order. */
  function ColumnStatements(table: string, stored: seq<Column>, declared: seq<Column>): seq<string>
  {
    var ch := ColumnChanges(stored, declared);
    AlterStatements(AddColumn, table, ch.toAdd)
    + AlterStatements(DropColumn, table, ch.toRemove)
    + AlterStatements(ModifyColumn, table, ch.toModify)
  }

  /** The query text one iteration of a `for` loop in handleColumnChanges
      builds. */
  method BuildAlter(kind: AlterKind, table: string, column: Column) returns (query: string)
    ensures query == AlterStatement(kind, table, column)
  {
    match kind {
      case AddColumn =>
        query := AppendColumnClause("ALTER TABLE " + table + " ADD COLUMN ", column);
      case DropColumn =>
        query := "ALTER TABLE " + table + " DROP COLUMN " + Interp(column.name);
      case ModifyColumn =>
        query := AppendColumnClause("ALTER TABLE " + table + " MODIFY COLUMN ", column);
    }
  }

  /** Extending the column list by one extends the outcomes by one. */
  lemma IssuedSnoc(db: Database, kind: AlterKind, table: string, cols: seq<Column>, i: nat)
    requires i < |cols|
    ensures db.Outcomes(AlterStatements(kind, table, cols[..i + 1]))
         == db.Outcomes(AlterStatements(kind, table, cols[..i])) + db.Outcomes([AlterStatement(kind, table, cols[i])])
  {
    assert cols[..i + 1] == cols[..i] + [cols[i]];
    AlterStatementsSnoc(kind, table, cols[..i], cols[i]);
    db.OutcomesAppend(AlterStatements(kind, table, cols[..i]), [AlterStatement(kind, table, cols[i])]);
  }

  /** One of the three `for` loops of handleColumnChanges: each statement is
      sent, and a failure is only logged before the next one. */
  method IssueAll(db: Database, kind: AlterKind, table: string, cols: seq<Column>)
    modifies db`log
    ensures db.log == old(db.log) + db.Outcomes(AlterStatements(kind, table, cols))
  {
    var i := 0;
    while i < |cols|
      invariant 0 <= i <= |cols|
      invariant db.log == old(db.log) + db.Outcomes(AlterStatements(kind, table, cols[..i]))
    {
      var query := BuildAlter(kind, table, cols[i]);
      var _ := db.Execute(query);
      IssuedSnoc(db, kind, table, cols, i);
      AppendAssociates(old(db.log), db.Outcomes(AlterStatements(kind, table, cols[..i])), db.Outcomes([query]));
      i := i + 1;
    }
    assert cols[..i] == cols;
  }

  /** Outcomes of three statement groups sent one after the other. */
  lemma OutcomesOfThree(db: Database, a: seq<string>, b: seq<string>, c: seq<string>)
    ensures db.Outcomes(a + b + c) == db.Outcomes(a) + db.Outcomes(b) + db.Outcomes(c)
  {
    db.OutcomesAppend(a, b);
    db.OutcomesAppend(a + b, c);
  }

  /** handleColumnChanges (setup.js:338-428). */
  method HandleColumnChanges(db: Database, table: string, stored: seq<Column>, declared: seq<Column>)
    modifies db`log
    ensures db.log == old(db.log) + db.Outcomes(ColumnStatements(table, stored, declared))
  {
    var ch := ColumnChanges(stored, declared);
    ghost var adds := AlterStatements(AddColumn, table, ch.toAdd);
    ghost var drops := AlterStatements(DropColumn, table, ch.toRemove);
    ghost var mods := AlterStatements(ModifyColumn, table, ch.toModify);
    IssueAll(db, AddColumn, table, ch.toAdd);
    IssueAll(db, DropColumn, table, ch.toRemove);
    AppendAssociates(old(db.log), db.Outcomes(adds), db.Outcomes(drops));
    IssueAll(db, ModifyColumn, table, ch.toModify);
    AppendAssociates(old(db.log), db.Outcomes(adds) + db.Outcomes(drops), db.Outcomes(mods));
    OutcomesOfThree(db, adds, drops, mods);
  }

  /** Whether the stored snapshot differs from the declaration (the two
      `JSON.stringify` comparisons at setup.js:272 and 277). */
  predicate NeedsUpdate(cols: seq<Column>, cons: seq<Constraint>, row: HistoryRow)
  {
    row.columnData != cols || row.constraintData != cons
  }

  /** What handleExistedTable sends: column ALTERs when the column lists
      differ, and nothing for constraints. */
  function ExistedTableStatements(table: string, cols: seq<Column>, row: HistoryRow): seq<string>
  {
    if row.columnData != cols then ColumnStatements(table, row.columnData, cols) else []
  }

  /** handleExistedTable (setup.js:267-286) with handleConstraintChanges
      (295-329) folded in: the constraint partitions are computed and dropped. */
  method HandleExistedTable(db: Database, table: string, cols: seq<Column>, cons: seq<Constraint>, row: HistoryRow)
    returns (tableNeedUpdate: bool)
    modifies db`log
    ensures tableNeedUpdate == NeedsUpdate(cols, cons, row)
    ensures db.log == old(db.log) + db.Outcomes(ExistedTableStatements(table, cols, row))
  {
    tableNeedUpdate := false;
    if row.columnData != cols {
      HandleColumnChanges(db, table, row.columnData, cols);
      tableNeedUpdate := true;
    }
    if row.constraintData != cons {
      var pending := ConstraintChanges(row.constraintData, cons);
      tableNeedUpdate := true;
    }
  }

  /** handleCreateTable (setup.js:200-256): the statement is sent and a
      failure is only logged. */
  method HandleCreateTable(db: Database, table: string, cols: seq<Column>, cons: seq<Constraint>)
    modifies db`log
    ensures db.log == old(db.log) + db.Outcomes([CreateStatement(table, cols, cons)])
  {
    var query := "CREATE TABLE " + table + " (";
    var columnDefinitions := ColumnDefinitions(cols);
    var primaryKeyColumns := CollectPrimaryKeyColumns(cons);
    ghost var head := query + columnDefinitions;
    if |primaryKeyColumns| > 0 {
      query := query + columnDefinitions + ", PRIMARY KEY (" + Join(primaryKeyColumns, ", ") + ")";
      assert query == head + PrimaryKeyClause(cons);
    } else {
      query := query + columnDefinitions;
      assert query == head + PrimaryKeyClause(cons);
    }
    query := query + ");";
    assert query == CreateStatement(table, cols, cons);
    var _ := db.Execute(query);
  }

  /** What one table's cycle sends, what the bookkeeping rows become, and
      whether an exception ended the run. */
  datatype RunOutcome = RunOutcome(ddl: seq<string>, rows: seq<HistoryRow>, aborted: bool)

  /** One iteration of the loop at setup.js:101-161. */
  function TableStep(faults: StoreFaults, rows: seq<HistoryRow>, loaded: map<string, HistoryRow>, t: TableElem): (r: RunOutcome)
    ensures r.aborted ==> r.rows == rows
    ensures !r.aborted ==> ParseTable(t).Some?
    ensures |rows| <= |r.rows| <= |rows| + 1
  {
    match ParseTable(t)
    case None => RunOutcome([], rows, true)
    case Some(d) =>
      if d.name in loaded then
        var row := loaded[d.name];
        var ddl := ExistedTableStatements(d.name, d.columns, row);
        if !NeedsUpdate(d.columns, d.constraints, row) then RunOutcome(ddl, rows, false)
        else if d.name in faults.writeRejects then RunOutcome(ddl, rows, true)
        else RunOutcome(ddl, UpdateRows(rows, d.name, d.columns, d.constraints), false)
      else
        var ddl := [CreateStatement(d.name, d.columns, d.constraints)];
        if d.name in faults.writeRejects then RunOutcome(ddl, rows, true)
        else RunOutcome(ddl, rows + [HistoryRow(d.name, d.columns, d.constraints)], false)
  }

  /** The tables processed in order from `rows`, stopping at the first
      exception. */
  function RunTables(faults: StoreFaults, rows: seq<HistoryRow>, loaded: map<string, HistoryRow>, ts: seq<TableElem>): (r: RunOutcome)
    ensures !r.aborted ==> forall i :: 0 <= i < |ts| ==> ParseTable(ts[i]).Some?
    ensures |rows| <= |r.rows| <= |rows| + |ts|
  {
    if ts == [] then RunOutcome([], rows, false)
    else
      var prev := RunTables(faults, rows, loaded, ts[..|ts| - 1]);
      if prev.aborted then prev
      else
        var step := TableStep(faults, prev.rows, loaded, ts[|ts| - 1]);
        assert !step.aborted ==> forall i :: 0 <= i < |ts| ==> ParseTable(ts[i]).Some? by {
          if !step.aborted {
            forall i | 0 <= i < |ts| ensures ParseTable(ts[i]).Some? {
              if i < |ts| - 1 {
                assert ts[i] == ts[..|ts| - 1][i];
              }
            }
          }
        }
        RunOutcome(prev.ddl + step.ddl, step.rows, step.aborted)
  }

  /** handleSetupDB as a whole: nothing at all when no table is declared,
      otherwise one load of the history and the tables in order. */
  function SetupRun(faults: StoreFaults, rows: seq<HistoryRow>, tables: Option<seq<TableElem>>): (r: RunOutcome)
    ensures tables.None? ==> r.ddl == [] && r.rows == rows && !r.aborted
    ensures tables.Some? && !r.aborted ==> forall i :: 0 <= i < |tables.value| ==> ParseTable(tables.value[i]).Some?
    ensures |rows| <= |r.rows|
  {
    if tables.None? then RunOutcome([], rows, false)
    else RunTables(faults, rows, Loaded(faults, rows), tables.value)
  }

  /** Once the run has stopped, later tables add nothing. */
  lemma {:induction false} AbortedRunStops(faults: StoreFaults, rows: seq<HistoryRow>, loaded: map<string, HistoryRow>,
                                           ts: seq<TableElem>, k: nat)
    requires k <= |ts|
    requires RunTables(faults, rows, loaded, ts[..k]).aborted
    ensures RunTables(faults, rows, loaded, ts) == RunTables(faults, rows, loaded, ts[..k])
  {
    if k < |ts| {
      assert ts[..|ts| - 1][..k] == ts[..k];
      AbortedRunStops(faults, rows, loaded, ts[..|ts| - 1], k);
    } else {
      assert ts[..k] == ts;
    }
  }

  /** One more table on a run that has not stopped. */
  lemma RunTablesSnoc(faults: StoreFaults, rows: seq<HistoryRow>, loaded: map<string, HistoryRow>,
                      ts: seq<TableElem>, i: nat)
    requires i < |ts|
    requires !RunTables(faults, rows, loaded, ts[..i]).aborted
    ensures var prev := RunTables(faults, rows, loaded, ts[..i]);
            var step := TableStep(faults, prev.rows, loaded, ts[i]);
            RunTables(faults, rows, loaded, ts[..i + 1]) == RunOutcome(prev.ddl + step.ddl, step.rows, step.aborted)
  {
    assert ts[..i + 1][..i] == ts[..i];
  }

  /** The body of the loop at setup.js:101-161 for one table. */
  method HandleTable(db: Database, loaded: map<string, HistoryRow>, t: TableElem) returns (aborted: bool)
    modifies db`log, db`rows
    ensures var step := TableStep(db.faults, old(db.rows), loaded, t);
            db.rows == step.rows && db.log == old(db.log) + db.Outcomes(step.ddl) && aborted == step.aborted
  {
    if !HasAttrs(t.attrs) {
      return true;
    }
    var tableName := Interp(Attr(t.attrs, "name"));
    if t.columns.None? {
      return true;
    }
    var listColumnData := CollectColumns(t.columns.value);
    if t.constraints.None? {
      return true;
    }
    var listConstraintData := CollectConstraints(t.constraints.value);
    assert ParseTable(t) == Some(DeclaredTable(tableName, listColumnData, listConstraintData));
    if tableName in loaded {
      var tableNeedUpdate := HandleExistedTable(db, tableName, listColumnData, listConstraintData, loaded[tableName]);
      if tableNeedUpdate {
        var ok := db.Store(tableName, listColumnData, listConstraintData, true);
        if !ok {
          return true;
        }
      }
    } else {
      HandleCreateTable(db, tableName, listColumnData, listConstraintData);
      var ok := db.Store(tableName, listColumnData, listConstraintData, false);
      if !ok {
        return true;
      }
    }
    return false;
  }

  /** The `for` loop of handleSetupDB (setup.js:101-161) over the declared
      tables, against the history loaded once before it. */
  method HandleTables(db: Database, loaded: map<string, HistoryRow>, listTable: seq<TableElem>) returns (aborted: bool)
    modifies db`log, db`rows
    ensures var run := RunTables(db.faults, old(db.rows), loaded, listTable);
            db.rows == run.rows && db.log == old(db.log) + db.Outcomes(run.ddl) && aborted == run.aborted
  {
    ghost var ddl: seq<string> := [];
    aborted := false;
    var i := 0;
    while i < |listTable| && !aborted
      invariant 0 <= i <= |listTable|
      invariant RunTables(db.faults, old(db.rows), loaded, listTable[..i]) == RunOutcome(ddl, db.rows, aborted)
      invariant db.log == old(db.log) + db.Outcomes(ddl)
    {
      ghost var stepDdl := TableStep(db.faults, db.rows, loaded, listTable[i]).ddl;
      RunTablesSnoc(db.faults, old(db.rows), loaded, listTable, i);
      aborted := HandleTable(db, loaded, listTable[i]);
      db.OutcomesAppend(ddl, stepDdl);
      AppendAssociates(old(db.log), db.Outcomes(ddl), db.Outcomes(stepDdl));
      ddl := ddl + stepDdl;
      i := i + 1;
    }
    if aborted {
      AbortedRunStops(db.faults, old(db.rows), loaded, listTable, i);
    } else {
      assert listTable[..i] == listTable;
    }
  }

  /** handleSetupDB (setup.js:94-162). `aborted` reports an exception that
      left the loop; the caller at setup.js:82 logs it and carries on. */
  method HandleSetupDB(db: Database, tables: Option<seq<TableElem>>) returns (aborted: bool)
    modifies db`log, db`rows
    ensures var run := SetupRun(db.faults, old(db.rows), tables);
            db.rows == run.rows && db.log == old(db.log) + db.Outcomes(run.ddl) && aborted == run.aborted
  {
    if tables.None? {
      return false;
    }
    var dbHistory := db.LoadAll();
    aborted := HandleTables(db, dbHistory, tables.value);
  }
}
