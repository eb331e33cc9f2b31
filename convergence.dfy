/** What the engine achieves across whole runs: after a run that did not
    stop, every declared table's snapshot is the declared one and undeclared
    tables are untouched; a second run over the same declaration then sends
    nothing and writes nothing. Also the statements one table's change
    produces. */
module Convergence {
  import opened Seqs
  import opened Schema
  import opened Ddl
  import opened Diff
  import opened History
  import opened Migrator

  /** No two declared tables share a name. */
  ghost predicate DistinctNames(ts: seq<TableElem>)
  {
    forall i, j :: 0 <= i < j < |ts| ==> DeclaredName(ts[i]) != DeclaredName(ts[j])
  }

  ghost predicate NotDeclared(ts: seq<TableElem>, n: string)
  {
    forall i :: 0 <= i < |ts| ==> DeclaredName(ts[i]) != n
  }

  /** The two indexes say the same about table `n`. */
  ghost predicate SameAt(m1: map<string, HistoryRow>, m2: map<string, HistoryRow>, n: string)
  {
    (n in m1 <==> n in m2) && (n in m2 ==> m1[n] == m2[n])
  }

  /** The bookkeeping rows hold exactly the declared snapshot of table `t`. */
  ghost predicate Recorded(rows: seq<HistoryRow>, t: TableElem)
  {
    match ParseTable(t)
    case None => false
    case Some(d) => d.name in Index(rows) && Index(rows)[d.name] == HistoryRow(d.name, d.columns, d.constraints)
  }

  /** Every loaded entry is what the rows index says. */
  ghost predicate AgreesWith(loaded: map<string, HistoryRow>, rows: seq<HistoryRow>)
  {
    forall n :: n in loaded ==> n in Index(rows) && Index(rows)[n] == loaded[n]
  }

  /** A cycle leaves the rows as they are, rewrites the rows of a loaded
      table, or appends one row for a new table. */
  lemma StepRowsShape(faults: StoreFaults, rows: seq<HistoryRow>, loaded: map<string, HistoryRow>, t: TableElem)
    ensures var s := TableStep(faults, rows, loaded, t);
            s.rows == rows
            || (ParseTable(t).Some? && ParseTable(t).value.name in loaded
                && s.rows == UpdateRows(rows, ParseTable(t).value.name, ParseTable(t).value.columns, ParseTable(t).value.constraints))
            || (ParseTable(t).Some? && ParseTable(t).value.name !in loaded && !s.aborted
                && s.rows == rows + [HistoryRow(ParseTable(t).value.name, ParseTable(t).value.columns, ParseTable(t).value.constraints)])
  {
  }

  /** One table's cycle touches the history of that table only. */
  lemma StepTouchesOwnTable(faults: StoreFaults, rows: seq<HistoryRow>, loaded: map<string, HistoryRow>,
                            t: TableElem, n: string)
    requires n != DeclaredName(t)
    ensures SameAt(Index(TableStep(faults, rows, loaded, t).rows), Index(rows), n)
  {
    var s := TableStep(faults, rows, loaded, t);
    StepRowsShape(faults, rows, loaded, t);
    if s.rows != rows {
      var d := ParseTable(t).value;
      if d.name in loaded {
        IndexAfterUpdate(rows, d.name, d.columns, d.constraints);
      } else {
        IndexAfterInsert(rows, HistoryRow(d.name, d.columns, d.constraints));
      }
    }
  }

  /** Rewriting the rows of a table the index holds records its snapshot. */
  lemma UpdateRecords(rows: seq<HistoryRow>, d: DeclaredTable)
    requires d.name in Index(rows)
    ensures d.name in Index(UpdateRows(rows, d.name, d.columns, d.constraints))
    ensures Index(UpdateRows(rows, d.name, d.columns, d.constraints))[d.name] == HistoryRow(d.name, d.columns, d.constraints)
  {
    IndexAfterUpdate(rows, d.name, d.columns, d.constraints);
  }

  /** An unchanged loaded table keeps the snapshot it already had. */
  lemma KeptRecords(rows: seq<HistoryRow>, loaded: map<string, HistoryRow>, d: DeclaredTable)
    requires d.name in loaded && d.name in Index(rows) && Index(rows)[d.name] == loaded[d.name]
    requires !NeedsUpdate(d.columns, d.constraints, loaded[d.name])
    ensures Index(rows)[d.name] == HistoryRow(d.name, d.columns, d.constraints)
  {
    IndexDomain(rows, d.name);
  }

  /** A table's cycle that did not stop leaves its declared snapshot stored,
      provided the loaded history is current for that table. */
  lemma StepRecords(faults: StoreFaults, rows: seq<HistoryRow>, loaded: map<string, HistoryRow>, t: TableElem)
    requires DeclaredName(t) in loaded ==> DeclaredName(t) in Index(rows) && Index(rows)[DeclaredName(t)] == loaded[DeclaredName(t)]
    ensures !TableStep(faults, rows, loaded, t).aborted ==> Recorded(TableStep(faults, rows, loaded, t).rows, t)
  {
    var s := TableStep(faults, rows, loaded, t);
    if !s.aborted {
      var d := ParseTable(t).value;
      if d.name in loaded {
        if NeedsUpdate(d.columns, d.constraints, loaded[d.name]) {
          UpdateRecords(rows, d);
        } else {
          KeptRecords(rows, loaded, d);
        }
      } else {
        IndexAfterInsert(rows, HistoryRow(d.name, d.columns, d.constraints));
      }
    }
  }

  /** Extending the processed tables by one keeps undeclared tables'
      history. */
  lemma StepKeeps(faults: StoreFaults, rows0: seq<HistoryRow>, loaded: map<string, HistoryRow>,
                  p: seq<TableElem>, t: TableElem, prevRows: seq<HistoryRow>)
    requires forall n :: NotDeclared(p, n) ==> SameAt(Index(prevRows), Index(rows0), n)
    ensures forall n :: NotDeclared(p + [t], n) ==> SameAt(Index(TableStep(faults, prevRows, loaded, t).rows), Index(rows0), n)
  {
    forall n | NotDeclared(p + [t], n)
      ensures SameAt(Index(TableStep(faults, prevRows, loaded, t).rows), Index(rows0), n)
    {
      assert forall i :: 0 <= i < |p| ==> p[i] == (p + [t])[i];
      assert NotDeclared(p, n);
      assert DeclaredName((p + [t])[|p|]) != n;
      StepTouchesOwnTable(faults, prevRows, loaded, t, n);
    }
  }

  /** Extending the processed tables by one, without stopping, records the
      new table and keeps the earlier ones recorded. */
  lemma StepRecordsAll(faults: StoreFaults, rows0: seq<HistoryRow>, loaded: map<string, HistoryRow>,
                       p: seq<TableElem>, t: TableElem, prevRows: seq<HistoryRow>)
    requires AgreesWith(loaded, rows0)
    requires DistinctNames(p + [t])
    requires forall n :: NotDeclared(p, n) ==> SameAt(Index(prevRows), Index(rows0), n)
    requires forall i :: 0 <= i < |p| ==> Recorded(prevRows, p[i])
    requires !TableStep(faults, prevRows, loaded, t).aborted
    ensures forall i :: 0 <= i < |p| + 1 ==> Recorded(TableStep(faults, prevRows, loaded, t).rows, (p + [t])[i])
  {
    var ts := p + [t];
    var rows := TableStep(faults, prevRows, loaded, t).rows;
    assert forall i :: 0 <= i < |p| ==> ts[i] == p[i];
    assert NotDeclared(p, DeclaredName(t)) by {
      forall i | 0 <= i < |p| ensures DeclaredName(p[i]) != DeclaredName(t) {
        assert DeclaredName(ts[i]) != DeclaredName(ts[|p|]);
      }
    }
    StepRecords(faults, prevRows, loaded, t);
    forall i | 0 <= i < |ts| ensures Recorded(rows, ts[i]) {
      if i < |p| {
        assert DeclaredName(ts[i]) != DeclaredName(ts[|p|]);
        StepTouchesOwnTable(faults, prevRows, loaded, t, DeclaredName(ts[i]));
      }
    }
  }

  /** The loop's two facts together: tables outside the declaration keep
      their history, and a run that did not stop records every table. */
  lemma {:induction false} RunKeepsAndRecords(faults: StoreFaults, rows0: seq<HistoryRow>,
                                              loaded: map<string, HistoryRow>, ts: seq<TableElem>)
    requires AgreesWith(loaded, rows0)
    requires DistinctNames(ts)
    ensures forall n :: NotDeclared(ts, n) ==> SameAt(Index(RunTables(faults, rows0, loaded, ts).rows), Index(rows0), n)
    ensures !RunTables(faults, rows0, loaded, ts).aborted ==>
              forall i :: 0 <= i < |ts| ==> Recorded(RunTables(faults, rows0, loaded, ts).rows, ts[i])
  {
    if ts != [] {
      var p := ts[..|ts| - 1];
      var t := ts[|ts| - 1];
      assert ts == p + [t];
      assert DistinctNames(p) by {
        assert forall i :: 0 <= i < |p| ==> p[i] == ts[i];
      }
      RunKeepsAndRecords(faults, rows0, loaded, p);
      var prev := RunTables(faults, rows0, loaded, p);
      if !prev.aborted {
        StepKeeps(faults, rows0, loaded, p, t, prev.rows);
        if !TableStep(faults, prev.rows, loaded, t).aborted {
          StepRecordsAll(faults, rows0, loaded, p, t, prev.rows);
        }
      } else {
        forall n | NotDeclared(ts, n) ensures SameAt(Index(prev.rows), Index(rows0), n) {
          assert forall i :: 0 <= i < |p| ==> p[i] == ts[i];
          assert NotDeclared(p, n);
        }
      }
    }
  }

  /** Snapshot completeness: after a run that did not stop, every declared
      table's stored snapshot is exactly its declaration, and every table the
      declaration does not name keeps its history. */
  lemma SnapshotComplete(faults: StoreFaults, rows0: seq<HistoryRow>, ts: seq<TableElem>)
    requires DistinctNames(ts)
    requires !SetupRun(faults, rows0, Some(ts)).aborted
    ensures forall i :: 0 <= i < |ts| ==> Recorded(SetupRun(faults, rows0, Some(ts)).rows, ts[i])
    ensures forall n :: NotDeclared(ts, n) ==> SameAt(Index(SetupRun(faults, rows0, Some(ts)).rows), Index(rows0), n)
  {
    RunKeepsAndRecords(faults, rows0, Loaded(faults, rows0), ts);
  }

  /** A table whose snapshot matches its declaration costs nothing. */
  lemma QuietStep(faults: StoreFaults, rows: seq<HistoryRow>, t: TableElem)
    requires Recorded(rows, t)
    ensures TableStep(faults, rows, Index(rows), t) == RunOutcome([], rows, false)
  {
  }

  lemma {:induction false} QuietRun(faults: StoreFaults, rows: seq<HistoryRow>, ts: seq<TableElem>)
    requires forall i :: 0 <= i < |ts| ==> Recorded(rows, ts[i])
    ensures RunTables(faults, rows, Index(rows), ts) == RunOutcome([], rows, false)
  {
    if ts != [] {
      var p := ts[..|ts| - 1];
      assert forall i :: 0 <= i < |p| ==> p[i] == ts[i];
      QuietRun(faults, rows, p);
      QuietStep(faults, rows, ts[|ts| - 1]);
    }
  }

  /** Idempotence: re-running over the same declaration after a run that
      did not stop sends no DDL and leaves the bookkeeping rows as they are. */
  lemma Idempotent(faults: StoreFaults, rows0: seq<HistoryRow>, ts: seq<TableElem>)
    requires !faults.readFails
    requires DistinctNames(ts)
    requires !SetupRun(faults, rows0, Some(ts)).aborted
    ensures var rows1 := SetupRun(faults, rows0, Some(ts)).rows;
            SetupRun(faults, rows1, Some(ts)) == RunOutcome([], rows1, false)
  {
    SnapshotComplete(faults, rows0, ts);
    QuietRun(faults, SetupRun(faults, rows0, Some(ts)).rows, ts);
  }

  /** Reordering stored columns sends no ALTER statement. */
  lemma ReorderedColumns(table: string, cols: seq<Column>, row: HistoryRow)
    requires multiset(cols) == multiset(row.columnData)
    requires UniqueKeys(ColumnName, row.columnData)
    ensures ExistedTableStatements(table, cols, row) == []
  {
    ReorderedNoChanges(ColumnName, cols, row.columnData);
  }

  /** A table whose stored columns are only reordered sends nothing, yet its
      cycle rewrites the snapshot with the declared lists. */
  lemma ReorderedTable(faults: StoreFaults, rows: seq<HistoryRow>, loaded: map<string, HistoryRow>,
                       t: TableElem, d: DeclaredTable)
    requires ParseTable(t) == Some(d)
    requires d.name in loaded
    requires multiset(d.columns) == multiset(loaded[d.name].columnData)
    requires UniqueKeys(ColumnName, loaded[d.name].columnData)
    requires d.columns != loaded[d.name].columnData
    requires d.name !in faults.writeRejects
    ensures TableStep(faults, rows, loaded, t) == RunOutcome([], UpdateRows(rows, d.name, d.columns, d.constraints), false)
  {
    ReorderedNoChanges(ColumnName, d.columns, loaded[d.name].columnData);
  }

  /** A constraint-only change sends nothing and still rewrites the snapshot. */
  lemma ConstraintOnlyChange(faults: StoreFaults, rows: seq<HistoryRow>, loaded: map<string, HistoryRow>,
                             t: TableElem, d: DeclaredTable)
    requires ParseTable(t) == Some(d)
    requires d.name in loaded && loaded[d.name].columnData == d.columns
    requires loaded[d.name].constraintData != d.constraints
    requires d.name !in faults.writeRejects
    ensures TableStep(faults, rows, loaded, t) == RunOutcome([], UpdateRows(rows, d.name, d.columns, d.constraints), false)
  {
  }

  /** A column declared under a new name, at any position, is sent as ADD
      and then MODIFY. */
  lemma AddedColumn(table: string, a: seq<Column>, c: Column, b: seq<Column>)
    requires UniqueKeys(ColumnName, a + b)
    requires c.name !in Keys(ColumnName, a + b)
    ensures ColumnStatements(table, a + b, a + [c] + b) == [AddColumnStatement(table, c), ModifyColumnStatement(table, c)]
  {
    InsertedRecord(ColumnName, a, c, b);
  }

  /** A column removed from the declaration is sent as one DROP. */
  lemma DroppedColumn(table: string, a: seq<Column>, c: Column, b: seq<Column>)
    requires UniqueKeys(ColumnName, a + [c] + b)
    ensures ColumnStatements(table, a + [c] + b, a + b) == [DropColumnStatement(table, c)]
  {
    DroppedRecord(ColumnName, a, c, b);
  }

  /** A column redeclared under the same name is sent as one MODIFY. */
  lemma ChangedColumn(table: string, a: seq<Column>, c: Column, c': Column, b: seq<Column>)
    requires UniqueKeys(ColumnName, a + [c] + b)
    requires c'.name == c.name && c' != c
    ensures ColumnStatements(table, a + [c] + b, a + [c'] + b) == [ModifyColumnStatement(table, c')]
  {
    ReplacedRecord(ColumnName, a, c, c', b);
  }

  /** A new table is recorded whether or not its CREATE was accepted: the
      step does not depend on the DDL outcome. */
  lemma NewTableRecorded(faults: StoreFaults, rows: seq<HistoryRow>, loaded: map<string, HistoryRow>,
                         t: TableElem, d: DeclaredTable)
    requires ParseTable(t) == Some(d)
    requires d.name !in loaded
    requires d.name !in faults.writeRejects
    ensures TableStep(faults, rows, loaded, t)
         == RunOutcome([CreateStatement(d.name, d.columns, d.constraints)], rows + [HistoryRow(d.name, d.columns, d.constraints)], false)
  {
  }
}
