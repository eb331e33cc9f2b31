/** The bookkeeping table `database_history` and the statement executor the
    engine talks to (setup.js:164-191 and 431-447), with the load index built
    once per run. */
module History {
  import opened Seqs
  import opened Schema

  /** One row of `database_history`: the snapshot recorded for a table. The
      column and constraint lists are kept as records; their JSON text form is
      not modelled. */
  datatype HistoryRow = HistoryRow(tableName: string, columnData: seq<Column>, constraintData: seq<Constraint>)

  /** A DDL statement sent to the database and whether the database accepted it. */
  datatype Issued = Issued(sql: string, ok: bool)

  /** How the bookkeeping table misbehaves: whether `SELECT * FROM
      database_history` fails, and the tables whose snapshot write fails. */
  datatype StoreFaults = StoreFaults(readFails: bool, writeRejects: set<string>)

  /** The `reduce` at setup.js:182-185: rows in order, a later row with the
      same `table_name` replacing an earlier one. */
  function Index(rows: seq<HistoryRow>): (m: map<string, HistoryRow>)
    ensures forall n :: n in m ==> m[n].tableName == n
  {
    if rows == [] then map[]
    else
      var last := rows[|rows| - 1];
      Index(rows[..|rows| - 1])[last.tableName := last]
  }

  /** A name is indexed exactly when some row carries it, and it maps to one
      of the stored rows. */
  lemma {:induction false} IndexDomain(rows: seq<HistoryRow>, n: string)
    ensures n in Index(rows) <==> exists i :: 0 <= i < |rows| && rows[i].tableName == n
    ensures n in Index(rows) ==> Index(rows)[n] in rows
  {
    if rows != [] {
      var init := rows[..|rows| - 1];
      IndexDomain(init, n);
      if n in Index(init) && n != rows[|rows| - 1].tableName {
        var i :| 0 <= i < |init| && init[i] == Index(init)[n];
        assert rows[i] == init[i];
      }
      if n != rows[|rows| - 1].tableName && exists i :: 0 <= i < |rows| && rows[i].tableName == n {
        var i :| 0 <= i < |rows| && rows[i].tableName == n;
        assert init[i] == rows[i];
      }
    }
  }

  /** The index holds, for each name, the LAST row with that name. */
  lemma {:induction false} IndexLastWins(rows: seq<HistoryRow>, i: nat)
    requires i < |rows|
    requires forall j :: i < j < |rows| ==> rows[j].tableName != rows[i].tableName
    ensures rows[i].tableName in Index(rows) && Index(rows)[rows[i].tableName] == rows[i]
  {
    if i < |rows| - 1 {
      var init := rows[..|rows| - 1];
      assert init[i] == rows[i];
      IndexLastWins(init, i);
    }
  }

  /** `UPDATE database_history SET ... WHERE table_name = name`. */
  function UpdateRows(rows: seq<HistoryRow>, name: string, cols: seq<Column>, cons: seq<Constraint>): seq<HistoryRow>
  {
    seq(|rows|, i requires 0 <= i < |rows| =>
      if rows[i].tableName == name then HistoryRow(name, cols, cons) else rows[i])
  }

  /** Updating a stored table and reloading gives the old index with that
      table's snapshot replaced; a table with no row is left as it was. */
  lemma {:induction false} IndexAfterUpdate(rows: seq<HistoryRow>, name: string, cols: seq<Column>, cons: seq<Constraint>)
    ensures Index(UpdateRows(rows, name, cols, cons)) ==
            if name in Index(rows) then Index(rows)[name := HistoryRow(name, cols, cons)] else Index(rows)
  {
    if rows != [] {
      var init := rows[..|rows| - 1];
      var updated := UpdateRows(rows, name, cols, cons);
      assert updated[..|rows| - 1] == UpdateRows(init, name, cols, cons);
      IndexAfterUpdate(init, name, cols, cons);
      var last := rows[|rows| - 1];
      var row := HistoryRow(name, cols, cons);
      var m0 := Index(init);
      var m1 := Index(UpdateRows(init, name, cols, cons));
      if last.tableName == name {
        assert updated[|rows| - 1] == row;
        assert m1[name := row] == m0[name := row];
      } else {
        assert updated[|rows| - 1] == last;
        if name in m0 {
          assert m0[name := row][last.tableName := last] == m0[last.tableName := last][name := row];
        }
      }
    }
  }

  /** Inserting a row and reloading gives the old index with that row added. */
  lemma IndexAfterInsert(rows: seq<HistoryRow>, row: HistoryRow)
    ensures Index(rows + [row]) == Index(rows)[row.tableName := row]
  {
    assert (rows + [row])[..|rows|] == rows;
  }

  /** What the engine works from for the whole run: the index of the rows, or
      an empty index when the SELECT fails (setup.js:187-190). */
  function Loaded(faults: StoreFaults, rows: seq<HistoryRow>): map<string, HistoryRow>
  {
    if faults.readFails then map[] else Index(rows)
  }

  /** The database as this engine sees it: the bookkeeping rows, the DDL
      statements sent so far, and the outcome oracle (which DDL texts the
      server rejects, and how the bookkeeping table fails). */
  class Database {
    var rows: seq<HistoryRow>
    var log: seq<Issued>
    const ddlRejects: set<string>
    const faults: StoreFaults

    constructor (rows0: seq<HistoryRow>, ddlRejects: set<string>, faults: StoreFaults)
      ensures rows == rows0 && log == []
      ensures this.ddlRejects == ddlRejects && this.faults == faults
    {
      rows := rows0;
      log := [];
      this.ddlRejects := ddlRejects;
      this.faults := faults;
    }

    /** The log entries a list of DDL statements produces, each with the
        server's verdict on it. */
    function Outcomes(ddl: seq<string>): (r: seq<Issued>)
      ensures |r| == |ddl|
      ensures forall i :: 0 <= i < |ddl| ==> r[i].sql == ddl[i] && (r[i].ok <==> ddl[i] !in ddlRejects)
    {
      if ddl == [] then [] else [Issued(ddl[0], ddl[0] !in ddlRejects)] + Outcomes(ddl[1..])
    }

    lemma {:induction false} OutcomesAppend(a: seq<string>, b: seq<string>)
      ensures Outcomes(a + b) == Outcomes(a) + Outcomes(b)
    {
      if a == [] {
        assert a + b == b;
      } else {
        assert (a + b)[1..] == a[1..] + b;
        OutcomesAppend(a[1..], b);
      }
    }

    /** `db.query(sql)` for a DDL statement: sent, and accepted or rejected. */
    method Execute(sql: string) returns (ok: bool)
      modifies this`log
      ensures ok <==> sql !in ddlRejects
      ensures log == old(log) + Outcomes([sql])
    {
      ok := sql !in ddlRejects;
      log := log + [Issued(sql, ok)];
    }

    /** getAllDataOfTableDatabaseHistory (setup.js:172-191). */
    method LoadAll() returns (index: map<string, HistoryRow>)
      ensures index == Loaded(faults, rows)
    {
      if faults.readFails {
        return map[];
      }
      index := map[];
      var i := 0;
      while i < |rows|
        invariant 0 <= i <= |rows|
        invariant index == Index(rows[..i])
      {
        assert rows[..i + 1][..i] == rows[..i];
        index := index[rows[i].tableName := rows[i]];
        i := i + 1;
      }
      assert rows[..i] == rows;
    }

    /** handleStoreDataToDatabaseHistory (setup.js:438-447): an INSERT of a new
        row, or with `updateAction` an UPDATE of the rows of that table. */
    method Store(name: string, cols: seq<Column>, cons: seq<Constraint>, updateAction: bool) returns (ok: bool)
      modifies this`rows
      ensures ok <==> name !in faults.writeRejects
      ensures rows == if !ok then old(rows)
                      else if updateAction then UpdateRows(old(rows), name, cols, cons)
                      else old(rows) + [HistoryRow(name, cols, cons)]
    {
      ok := name !in faults.writeRejects;
      if !ok {
        return;
      }
      if updateAction {
        rows := UpdateRows(rows, name, cols, cons);
        return;
      }
      rows := rows + [HistoryRow(name, cols, cons)];
    }
  }
}
