# Schema convergence for the back-end's MySQL database

The back-end's setup script (`back-end/scripts/setup.js`) keeps a live MySQL
schema in line with a declarative XML schema. Each declared table has a
snapshot in the bookkeeping table `database_history`. For each table the
script does one of two things:

- If the table has no snapshot, it sends `CREATE TABLE` and inserts one.
- If it has a snapshot, it compares the declared column and constraint lists
  with it. For each column difference it sends `ALTER TABLE … ADD`, `DROP` or
  `MODIFY COLUMN`, then it overwrites the snapshot with the full declared
  lists.

This project models that engine in Dafny and proves what it does.

- `seqs.dfy` (`Seqs`) has the list helpers the engine relies on:
  JavaScript's `map`, `filter` and `join`.
- `schema.dfy` (`Schema`) has the parsed XML elements, with xml2js's `$`
  attribute bag. It also has the column and constraint records built at the
  start of each table's cycle. This is the loop's `forEach` pushes, including
  the callbacks that throw and so skip their element.
- `ddl.dfy` (`Ddl`) renders the text of the DDL statements. There is one
  column clause, shared by CREATE, ADD COLUMN and MODIFY COLUMN, and the
  composite `PRIMARY KEY` clause. `AppendColumnClause` is the `+=` chain of
  the two ALTER loops, proved equal to the shared clause.
- `diff.dfy` (`Diff`) has the add/remove/modify partitions, generic in the
  record type, so one definition serves columns and constraints.
- `history.dfy` (`History`) has the bookkeeping table and the connection.
  - `Database` is a class. It holds the bookkeeping rows and a log of the DDL
    statements sent, each with the server's verdict.
  - The server's verdicts and the bookkeeping failures are fixed when the
    connection is made: `ddlRejects` and `faults`.
  - `LoadAll` is the `reduce` that indexes the rows by table name.
  - `Store` is the INSERT/UPDATE of a snapshot.
- `migrator.dfy` (`Migrator`) has the handlers and the run loop.
  - The handlers are `handleColumnChanges`, `handleExistedTable`,
    `handleConstraintChanges` (folded into the existed-table handler) and
    `handleCreateTable`. The run loop is `handleSetupDB`.
  - Each is proved against a specification function. `ColumnStatements`,
    `ExistedTableStatements`, `TableStep`, `RunTables` and `SetupRun` say
    which statements are sent, what the bookkeeping rows become, and whether
    an exception ended the run.
- `convergence.dfy` (`Convergence`) has the properties of whole runs:
  - snapshot completeness,
  - tables outside the declaration are left alone,
  - idempotence of a second run,
  - the statements one table's change produces.

Modelling decisions that follow the JavaScript:

- Every record field is `Option<string>`. `None` is an absent attribute.
  - A field tests true when it is present and non-empty (JavaScript
    truthiness).
  - A flag counts only when it equals `"true"` exactly (`=== 'true'`).
  - An absent value interpolated into a template prints `undefined`.
  - An absent entry in a joined list prints as the empty string.
- A column or constraint whose `forEach` callback throws is skipped. The
  callbacks (setup.js:107, 131) are `async`, so the throw only rejects that
  callback's promise, and the loop goes on. This happens when an element has
  no attributes, when a constraint has no `<column>` child, or when such a
  child has no attributes. What Node does with that rejection afterwards is
  listed under "Left out".
- A table with no attributes, no `<column>` list or no `<constraint>` list
  makes the loop body throw (setup.js:102, 107, 131). A table element with no
  `<constraint>` child therefore ends the run. So does a rejected bookkeeping
  write. Any of these ends the whole run, and the caller only logs it
  (setup.js:82).
- A rejected DDL statement is logged, the remaining statements of the cycle
  are still sent, and the snapshot is still written (setup.js:253-255,
  378-380).
- The snapshot is written whether or not the DDL was accepted. A new table
  is recorded even when its CREATE failed.
- Snapshot equality is `JSON.stringify` equality. The model uses equality of
  the record lists, which is just as sensitive to order.
- A declared column that is new lands in both the add list and the modify
  list. This is because `find` yields `undefined`, and `undefined` differs
  from the record.
- The composite key takes only the first column of each `primary`
  constraint (setup.js:238), however many columns the constraint lists.
- Constraint partitions are computed and no statement is sent for them.

## Model

| member | source | states |
|---|---|---|
| Seqs.MapSeq | back-end/scripts/setup.js:340-341 | `map` keeps the length and applies the function at every position, as the name lists and the column definitions at 203 are built |
| Seqs.Filter | back-end/scripts/setup.js:342-344 | `filter` keeps exactly the elements satisfying the test, and never grows the list |
| Seqs.FilterAppend | back-end/scripts/setup.js:342-344 | filtering distributes over concatenation, so partitions are computed element by element in list order |
| Seqs.JoinSnoc | back-end/scripts/setup.js:230 | `join(', ')` of one more part appends the separator and that part |
| Schema.ParseTable | back-end/scripts/setup.js:102-131 | a table yields records iff it has attributes, a `<column>` list and a `<constraint>` list (otherwise the loop body throws); its name is the `name` attribute, and no more records come out than elements went in |
| Schema.ColumnRecordDeterminedByAttributes | back-end/scripts/setup.js:108-129 | a column record is exactly the ten copied attributes (`identity` feeding auto-increment): two elements give the same record iff they agree on those ten, whatever else they carry |
| Schema.CollectColumns | back-end/scripts/setup.js:107-130 | the pushed list is the record of every column element with attributes, in element order; elements without `$` are skipped and nothing else is |
| Schema.CollectReferences | back-end/scripts/setup.js:139-141 | the constraint's column-name list is built iff every `<column>` child has attributes, and then holds each child's name in order |
| Schema.CollectConstraints | back-end/scripts/setup.js:131-150 | the pushed list is the record of every constraint whose callback completes, in element order; one whose callback throws is skipped |
| Ddl.ModifierFlags | back-end/scripts/setup.js:208-219 | NOT NULL, PRIMARY KEY, AUTO_INCREMENT and UNIQUE are rendered iff their attribute is exactly `"true"` |
| Ddl.ModifierValues | back-end/scripts/setup.js:205-228 | `(length)`, ` DEFAULT v`, ` CHECK (e)` and ` ON UPDATE u` are rendered iff the attribute is present and non-empty, carrying its text |
| Ddl.ModifierOrder | back-end/scripts/setup.js:204-228 | the clauses come in the fixed order length, NOT NULL, PRIMARY KEY, AUTO_INCREMENT, UNIQUE, DEFAULT, CHECK, ON UPDATE, each at most once |
| Ddl.ColumnClause | back-end/scripts/setup.js:204-228 | the clause starts with `name type`, and is exactly that when the column has no modifier |
| Ddl.RenderAllAppend | back-end/scripts/setup.js:204-228 | rendering a list of clauses is the concatenation of rendering its parts |
| Ddl.AppendColumnClause | back-end/scripts/setup.js:350-374 | the `+=` chain of the ADD loop (and the identical one at 396-420) appends exactly the column clause CREATE uses at 204-228 |
| Ddl.AppendPiece | back-end/scripts/setup.js:351-353 | one guarded `query += …` of the chain advances the query by exactly that clause position's text |
| Ddl.ColumnDefinitionsSnoc | back-end/scripts/setup.js:203-230 | each further declared column adds `, ` and its clause at the end: definitions follow declared order |
| Ddl.PrimaryKeyColumns | back-end/scripts/setup.js:233-240 | the composite key list is empty iff no constraint has type exactly `"primary"` |
| Ddl.PrimaryKeyColumnsSnoc | back-end/scripts/setup.js:236-240 | the composite key list grows by the first column of each primary constraint, in constraint order, and by nothing for any other |
| Ddl.CollectPrimaryKeyColumns | back-end/scripts/setup.js:233-240 | the `forEach` pushing into `primaryKeyColumns` yields exactly the composite key list |
| Ddl.PrimaryKeyClause | back-end/scripts/setup.js:243-247 | the `, PRIMARY KEY (…)` clause is omitted iff no constraint is primary |
| Ddl.CreateStatement | back-end/scripts/setup.js:201-248 | the statement starts with `CREATE TABLE t (` and the column definitions, and ends with `);` |
| Ddl.CreateWithoutKey | back-end/scripts/setup.js:243-248 | the statement is exactly `CREATE TABLE t (<definitions>);` iff no constraint is primary |
| Diff.Find | back-end/scripts/setup.js:345 | `find` by name yields nothing iff the name is not among the stored names, and otherwise the first stored record of that name |
| Diff.Changes | back-end/scripts/setup.js:340-347 | a declared record is to be added iff its name is not stored, a stored record is to be removed iff its name is not declared, a declared record is to be modified iff `find` by its name does not yield it; no partition outgrows its source list (the same partitions at 297-304) |
| Diff.FindOwnKey | back-end/scripts/setup.js:345 | with unique stored names, `find` by a stored record's name yields that record |
| Diff.AddedAreModified | back-end/scripts/setup.js:342-347 | every column to add is also a column to modify |
| Diff.ModifiedMeansNotStored | back-end/scripts/setup.js:344-347 | with unique stored names, a declared record is to be modified iff it is not literally among the stored records |
| Diff.ReorderedNoChanges | back-end/scripts/setup.js:340-347 | the same records in another order put nothing in any partition |
| Diff.InsertedRecord | back-end/scripts/setup.js:340-347 | a record with a new name declared at any position is added and modified, nothing is removed |
| Diff.DroppedRecord | back-end/scripts/setup.js:340-347 | a record removed from the declaration is removed, nothing else changes |
| Diff.ReplacedRecord | back-end/scripts/setup.js:340-347 | a record redeclared under its name with different attributes is only modified |
| History.Index | back-end/scripts/setup.js:182-185 | every indexed name maps to a row carrying that name |
| History.IndexDomain | back-end/scripts/setup.js:182-185 | the loaded index has a table iff some bookkeeping row carries its name, and maps it to one of the stored rows |
| History.IndexLastWins | back-end/scripts/setup.js:182-185 | a later row with the same `table_name` replaces an earlier one |
| History.IndexAfterUpdate | back-end/scripts/setup.js:441-444 | after the UPDATE, reloading gives the old index with that table's entry replaced by the full declared lists, or the old index if the table had no row |
| History.IndexAfterInsert | back-end/scripts/setup.js:446 | after the INSERT, reloading gives the old index with that table's entry set to the new row |
| History.Database.Outcomes | back-end/scripts/setup.js:249-255 | every statement sent is logged in order with its verdict, accepted iff the server does not reject its text |
| History.Database.OutcomesAppend | back-end/scripts/setup.js:349-427 | logging statements one after another logs their concatenation |
| History.Database.Execute | back-end/scripts/setup.js:375-380 | a DDL statement is sent, its verdict logged, and a rejection reported without an exception |
| History.Database.LoadAll | back-end/scripts/setup.js:172-191 | the loaded index is the last-row-wins index of the bookkeeping rows, or empty when the SELECT fails |
| History.Database.Store | back-end/scripts/setup.js:438-447 | an INSERT appends the full snapshot, an UPDATE rewrites every row of that name; a rejected write changes nothing and is reported |
| Migrator.AlterStatements | back-end/scripts/setup.js:349-427 | one statement per column, in list order |
| Migrator.BuildAlter | back-end/scripts/setup.js:350-374 | the text one iteration of an ALTER loop builds is the ADD, DROP or MODIFY statement for that column |
| Migrator.IssueAll | back-end/scripts/setup.js:349-381 | one ALTER loop sends every statement of its group in order, logging a failure and going on |
| Migrator.HandleColumnChanges | back-end/scripts/setup.js:338-428 | the log grows by all ADDs, then all DROPs, then all MODIFYs of the column partitions, each in list order |
| Migrator.HandleExistedTable | back-end/scripts/setup.js:267-286 | the result is true iff the column list or the constraint list differs from the snapshot; column ALTERs are sent only when the column lists differ, nothing for constraints |
| Migrator.HandleCreateTable | back-end/scripts/setup.js:200-256 | exactly one CREATE TABLE is sent with the declared column definitions and the composite key clause; a failure is only logged |
| Migrator.TableStep | back-end/scripts/setup.js:101-161 | one cycle that throws leaves the rows unchanged, one that completes had a well-formed table, and a cycle writes at most one new row |
| Migrator.RunTables | back-end/scripts/setup.js:101-161 | a run that completes had only well-formed tables, and adds at most one row per table |
| Migrator.SetupRun | back-end/scripts/setup.js:94-161 | without a table list nothing is sent or written; a run that completes had only well-formed tables; rows are never removed |
| Migrator.AbortedRunStops | back-end/scripts/setup.js:82 | once an exception has ended the run, later tables send nothing and write nothing |
| Migrator.RunTablesSnoc | back-end/scripts/setup.js:101-161 | a run that has not stopped goes on with the next table's cycle from the rows left by the previous ones |
| Migrator.HandleTable | back-end/scripts/setup.js:102-160 | one table's cycle sends and writes what `TableStep` says: abort on a malformed table or a rejected write, otherwise CREATE+INSERT for a new table or ALTERs+UPDATE for a changed one |
| Migrator.HandleTables | back-end/scripts/setup.js:101-161 | the loop processes the tables in order against the history loaded once, stopping at the first exception |
| Migrator.HandleSetupDB | back-end/scripts/setup.js:94-162 | nothing happens without a table list; otherwise the run sends and records what `SetupRun` says, whatever the server's DDL verdicts |
| Convergence.StepRowsShape | back-end/scripts/setup.js:152-160 | a cycle leaves the rows alone, rewrites the rows of a loaded table with its declared lists, or appends one row for a new table |
| Convergence.StepTouchesOwnTable | back-end/scripts/setup.js:152-160 | one table's cycle changes the bookkeeping of that table only |
| Convergence.StepRecords | back-end/scripts/setup.js:152-160 | a cycle that does not stop leaves the table's declared snapshot stored |
| Convergence.RunKeepsAndRecords | back-end/scripts/setup.js:101-161 | over a run, undeclared tables keep their history and, if the run did not stop, every declared table is recorded |
| Convergence.SnapshotComplete | back-end/scripts/setup.js:152-160 | after a run that did not stop, each declared table's snapshot is its full declared column and constraint lists, and undeclared tables are untouched |
| Convergence.QuietRun | back-end/scripts/setup.js:152-156 | tables whose snapshots match the declaration send nothing and write nothing |
| Convergence.Idempotent | back-end/scripts/setup.js:94-162 | a second run over the same declaration sends no DDL and leaves the bookkeeping rows as they are |
| Convergence.ReorderedColumns | back-end/scripts/setup.js:272-276 | stored columns that are only reordered produce no ALTER statement |
| Convergence.ReorderedTable | back-end/scripts/setup.js:152-156 | a table whose stored columns are only reordered sends nothing, yet its cycle rewrites the snapshot with the declared lists and goes on |
| Convergence.AddedColumn | back-end/scripts/setup.js:342-427 | a column declared under a new name, at any position, is sent as ADD COLUMN followed by MODIFY COLUMN |
| Convergence.DroppedColumn | back-end/scripts/setup.js:343-392 | a column removed from the declaration is sent as exactly one DROP COLUMN |
| Convergence.ChangedColumn | back-end/scripts/setup.js:344-427 | a column redeclared with different attributes is sent as exactly one MODIFY COLUMN |
| Convergence.ConstraintOnlyChange | back-end/scripts/setup.js:277-281 | a constraint-only change sends no statement and still rewrites the full snapshot |
| Convergence.NewTableRecorded | back-end/scripts/setup.js:157-160 | a new table sends one CREATE and is recorded whatever the server's verdict on it |

## Left out

- `checkDatabase` (setup.js:39-55) is left out. It runs a shell command.
- Reading and parsing `db.xml` (setup.js:62-85) are left out. They are file
  I/O and a foreign XML parser. The parsed table list is an input, and `None`
  stands for `result.schema.table` being undefined.
- JSON serialization of snapshots is not modelled. The rows hold the record
  lists directly. For records built by this script, `JSON.stringify`
  equality is list equality, because keys come in a fixed order and an
  absent field is dropped on both sides.
- Corrupt JSON in a stored row is not modelled. It would make `JSON.parse`
  throw at setup.js:268-269.
- The MySQL connection pool and its promise wrapper are not part of this
  model. Nor are the Sequelize models, the controllers, the routers and the
  Express bootstrap.
  - Statement execution is a fixed verdict per statement text
    (`ddlRejects`).
  - Bookkeeping failures are a read failure and a set of table names whose
    writes fail (`faults`). A real server may fail the same statement on one
    attempt and not another. The model does not capture that.
- Console logging is left out. The only output the model keeps is the
  statement log with verdicts.
- The async mechanics are not modelled. Each step is awaited before the
  next, so the sequential model has the same order of effects.
- `Schema.CollectColumns`, `Schema.CollectConstraints`: skipping an element
  whose `forEach` callback throws is right only where unhandled promise
  rejections are not fatal. The callbacks at setup.js:107 and 131 are
  `async`, so the throw rejects a promise nobody handles. Neither setup.js
  nor index.js installs an `unhandledRejection` handler. Under the default
  of Node 15 and later, the process then exits at the next wait on I/O: the
  first later `db.query` (setup.js:251, 376, 387, 422, 443 or 446), or, if
  none follows, just after the run ends. Nothing further is written, and the
  server (started at setup.js:13-18) never starts. The model lets the run go on without the element.
- `History.Index` does not model a table name that is an `Object.prototype`
  property (such as `constructor`). `dbHistory[tableName]` would find the
  inherited member even when no row exists.
- Table names are plain strings. When the table's `name` attribute is
  missing, the text `undefined` is used for the statements. The bookkeeping
  write would bind an undefined parameter, which the model does not
  distinguish.
- `Migrator.HandleExistedTable`: the constraint partitions
  (`ConstraintChanges`) are computed and then discarded. The source's
  `handleConstraintChanges` sends nothing, so no contract states more about
  them than the generic `Diff` lemmas do.
