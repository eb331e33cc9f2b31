/** Rendering of the data-definition statements: the column clause shared by
    CREATE TABLE, ADD COLUMN and MODIFY COLUMN (setup.js:204-228, 350-374,
    396-420), the composite primary-key clause (232-247) and the statement
    texts themselves. */
module Ddl {
  import opened Seqs
  import opened Schema

  /** One optional piece of a column clause, in the order the source appends them. */
  datatype Modifier =
    | Length(size: string)
    | NotNull
    | PrimaryKey
    | AutoIncrement
    | Unique
    | Default(value: string)
    | Check(expr: string)
    | OnUpdate(clause: string)

  /** Position of a modifier in the fixed clause order. */
  function Rank(m: Modifier): nat
  {
    match m
    case Length(_) => 0
    case NotNull => 1
    case PrimaryKey => 2
    case AutoIncrement => 3
    case Unique => 4
    case Default(_) => 5
    case Check(_) => 6
    case OnUpdate(_) => 7
  }

  function Render(m: Modifier): string
  {
    match m
    case Length(n) => "(" + n + ")"
    case NotNull => " NOT NULL"
    case PrimaryKey => " PRIMARY KEY"
    case AutoIncrement => " AUTO_INCREMENT"
    case Unique => " UNIQUE"
    case Default(v) => " DEFAULT " + v
    case Check(e) => " CHECK (" + e + ")"
    case OnUpdate(u) => " ON UPDATE " + u
  }

  function RenderAll(ms: seq<Modifier>): string
  {
    if ms == [] then "" else Render(ms[0]) + RenderAll(ms[1..])
  }

  lemma {:induction false} RenderAllAppend(a: seq<Modifier>, b: seq<Modifier>)
    ensures RenderAll(a + b) == RenderAll(a) + RenderAll(b)
  {
    if a == [] {
      assert a + b == b;
    } else {
      assert (a + b)[1..] == a[1..] + b;
      RenderAllAppend(a[1..], b);
    }
  }

  function When(c: bool, m: Modifier): seq<Modifier>
  {
    if c then [m] else []
  }

  /** Whether the column's clause has a modifier at position `r`: the eight
      guards of setup.js:205-227, in order. */
  predicate SlotOn(c: Column, r: nat)
  {
    if r == 0 then Truthy(c.length)
    else if r == 1 then IsTrue(c.notNull)
    else if r == 2 then IsTrue(c.primaryKey)
    else if r == 3 then IsTrue(c.autoIncrement)
    else if r == 4 then IsTrue(c.unique)
    else if r == 5 then Truthy(c.defaultValue)
    else if r == 6 then Truthy(c.check)
    else if r == 7 then Truthy(c.onUpdate)
    else false
  }

  /** The modifier position `r` would hold (positions from 7 on share the
      last one; `SlotOn` is false beyond it). */
  function SlotModifier(c: Column, r: nat): Modifier
  {
    if r == 0 then Length(Interp(c.length))
    else if r == 1 then NotNull
    else if r == 2 then PrimaryKey
    else if r == 3 then AutoIncrement
    else if r == 4 then Unique
    else if r == 5 then Default(Interp(c.defaultValue))
    else if r == 6 then Check(Interp(c.check))
    else OnUpdate(Interp(c.onUpdate))
  }

  /** The modifier a column contributes at clause position `r`, if any. */
  function Slot(c: Column, r: nat): seq<Modifier>
  {
    When(SlotOn(c, r), SlotModifier(c, r))
  }

  /** The modifiers at positions `r` and later. */
  function ModifiersFrom(c: Column, r: nat): seq<Modifier>
    decreases 8 - r
  {
    if r >= 8 then [] else Slot(c, r) + ModifiersFrom(c, r + 1)
  }

  /** The modifiers a column's clause carries, in clause order. */
  function Modifiers(c: Column): seq<Modifier>
  {
    ModifiersFrom(c, 0)
  }

  lemma SlotRank(c: Column, r: nat, m: Modifier)
    ensures m in Slot(c, r) ==> Rank(m) == r
  {
  }

  /** A modifier appears from position `r` on exactly when its own slot holds it. */
  lemma {:induction false} ModifiersFromMembership(c: Column, r: nat, m: Modifier)
    ensures m in ModifiersFrom(c, r) <==> r <= Rank(m) && m in Slot(c, Rank(m))
    decreases 8 - r
  {
    if r < 8 {
      SlotRank(c, r, m);
      ModifiersFromMembership(c, r + 1, m);
    }
  }

  /** From position `r` on, every modifier has rank at least `r`. */
  lemma ModifiersFromAbove(c: Column, r: nat, m: Modifier)
    requires m in ModifiersFrom(c, r)
    ensures r <= Rank(m)
  {
    ModifiersFromMembership(c, r, m);
  }

  /** Ranks strictly increase along the list. */
  ghost predicate Ascending(ms: seq<Modifier>)
  {
    forall i, j :: 0 <= i < j < |ms| ==> Rank(ms[i]) < Rank(ms[j])
  }

  /** Putting a modifier of lower rank than all others in front keeps the
      ranks strictly increasing. */
  lemma ConsAscending(m: Modifier, rest: seq<Modifier>)
    requires Ascending(rest)
    requires forall j :: 0 <= j < |rest| ==> Rank(m) < Rank(rest[j])
    ensures Ascending([m] + rest)
  {
    var ms := [m] + rest;
    forall i, j | 0 <= i < j < |ms| ensures Rank(ms[i]) < Rank(ms[j]) {
      assert ms[j] == rest[j - 1];
      if i > 0 {
        assert ms[i] == rest[i - 1];
      }
    }
  }

  /** Every modifier after position `r` ranks above `r`. */
  lemma RestAbove(c: Column, r: nat, rest: seq<Modifier>)
    requires rest == ModifiersFrom(c, r + 1)
    ensures forall j :: 0 <= j < |rest| ==> r < Rank(rest[j])
  {
    forall j | 0 <= j < |rest| ensures r < Rank(rest[j]) {
      ModifiersFromAbove(c, r + 1, rest[j]);
    }
  }

  /** One position in front of an ascending tail keeps the list ascending. */
  lemma OrderedStep(c: Column, r: nat)
    requires r < 8
    requires Ascending(ModifiersFrom(c, r + 1))
    ensures Ascending(ModifiersFrom(c, r))
  {
    var rest := ModifiersFrom(c, r + 1);
    if SlotOn(c, r) {
      var m := SlotModifier(c, r);
      assert ModifiersFrom(c, r) == [m] + rest;
      SlotRank(c, r, m);
      RestAbove(c, r, rest);
      ConsAscending(m, rest);
    } else {
      assert ModifiersFrom(c, r) == rest;
    }
  }

  /** From position `r` on, ranks strictly increase. */
  lemma {:induction false} ModifiersFromOrdered(c: Column, r: nat)
    ensures Ascending(ModifiersFrom(c, r))
    decreases 8 - r
  {
    if r < 8 {
      ModifiersFromOrdered(c, r + 1);
      OrderedStep(c, r);
    }
  }

  /** Flag fidelity: each keyword clause appears exactly when its attribute is
      the string "true"; any other value, including absent, adds nothing. */
  lemma ModifierFlags(c: Column)
    ensures NotNull in Modifiers(c) <==> IsTrue(c.notNull)
    ensures PrimaryKey in Modifiers(c) <==> IsTrue(c.primaryKey)
    ensures AutoIncrement in Modifiers(c) <==> IsTrue(c.autoIncrement)
    ensures Unique in Modifiers(c) <==> IsTrue(c.unique)
  {
    ModifiersFromMembership(c, 0, NotNull);
    ModifiersFromMembership(c, 0, PrimaryKey);
    ModifiersFromMembership(c, 0, AutoIncrement);
    ModifiersFromMembership(c, 0, Unique);
  }

  /** Valued clauses appear exactly when their attribute is present and
      non-empty, carrying that attribute's text. */
  lemma ModifierValues(c: Column, s: string)
    ensures Length(s) in Modifiers(c) <==> c.length == Some(s) && s != ""
    ensures Default(s) in Modifiers(c) <==> c.defaultValue == Some(s) && s != ""
    ensures Check(s) in Modifiers(c) <==> c.check == Some(s) && s != ""
    ensures OnUpdate(s) in Modifiers(c) <==> c.onUpdate == Some(s) && s != ""
  {
    ModifiersFromMembership(c, 0, Length(s));
    ModifiersFromMembership(c, 0, Default(s));
    ModifiersFromMembership(c, 0, Check(s));
    ModifiersFromMembership(c, 0, OnUpdate(s));
  }

  /** The clauses always come in the fixed order length, NOT NULL, PRIMARY KEY,
      AUTO_INCREMENT, UNIQUE, DEFAULT, CHECK, ON UPDATE, each at most once. */
  lemma ModifierOrder(c: Column)
    ensures forall i, j :: 0 <= i < j < |Modifiers(c)| ==>
              Rank(Modifiers(c)[i]) < Rank(Modifiers(c)[j])
  {
    ModifiersFromOrdered(c, 0);
  }

  /** `name type` followed by the rendered modifiers: the one column clause the
      three statement kinds share. */
  function ColumnClause(c: Column): (r: string)
    ensures Interp(c.name) + " " + Interp(c.sqlType) <= r
    ensures Modifiers(c) == [] ==> r == Interp(c.name) + " " + Interp(c.sqlType)
  {
    Interp(c.name) + " " + Interp(c.sqlType) + RenderAll(Modifiers(c))
  }

  /** The text appended at clause position `r`. */
  function SlotText(c: Column, r: nat): string
  {
    if r == 0 then (if Truthy(c.length) then "(" + c.length.value + ")" else "")
    else if r == 1 then (if IsTrue(c.notNull) then " NOT NULL" else "")
    else if r == 2 then (if IsTrue(c.primaryKey) then " PRIMARY KEY" else "")
    else if r == 3 then (if IsTrue(c.autoIncrement) then " AUTO_INCREMENT" else "")
    else if r == 4 then (if IsTrue(c.unique) then " UNIQUE" else "")
    else if r == 5 then (if Truthy(c.defaultValue) then " DEFAULT " + c.defaultValue.value else "")
    else if r == 6 then (if Truthy(c.check) then " CHECK (" + c.check.value + ")" else "")
    else if r == 7 then (if Truthy(c.onUpdate) then " ON UPDATE " + c.onUpdate.value else "")
    else ""
  }

  /** Rendering from position `r` on is the slot's text followed by the rest. */
  lemma RenderFrom(c: Column, r: nat)
    requires r < 8
    ensures RenderAll(ModifiersFrom(c, r)) == SlotText(c, r) + RenderAll(ModifiersFrom(c, r + 1))
  {
    assert ModifiersFrom(c, r) == Slot(c, r) + ModifiersFrom(c, r + 1);
    RenderAllAppend(Slot(c, r), ModifiersFrom(c, r + 1));
    SlotRenders(c, r);
  }

  lemma SlotRenders(c: Column, r: nat)
    ensures RenderAll(Slot(c, r)) == SlotText(c, r)
  {
    if Slot(c, r) != [] { assert Slot(c, r)[1..] == []; }
  }

  /** The texts of positions `0 .. r-1`, concatenated in clause order. */
  function TextBefore(c: Column, r: nat): string
  {
    if r == 0 then "" else TextBefore(c, r - 1) + SlotText(c, r - 1)
  }

  /** The text before position `r` followed by the modifiers from `r` on is
      the whole rendered modifier list. */
  lemma {:induction false} TextBeforeComplete(c: Column, r: nat)
    requires r <= 8
    ensures TextBefore(c, r) + RenderAll(ModifiersFrom(c, r)) == RenderAll(Modifiers(c))
  {
    if r > 0 {
      TextBeforeComplete(c, r - 1);
      RenderFrom(c, r - 1);
      AppendAssociates(TextBefore(c, r - 1), SlotText(c, r - 1), RenderAll(ModifiersFrom(c, r)));
    }
  }

  /** One `if (cond) query += text` of the chain, at clause position `r`. */
  method AppendPiece(query: string, cond: bool, text: string, ghost head: string, ghost c: Column, ghost r: nat)
    returns (q: string)
    requires query == head + TextBefore(c, r)
    requires (if cond then text else "") == SlotText(c, r)
    ensures q == head + TextBefore(c, r + 1)
  {
    q := query;
    if cond {
      q := q + text;
    }
    AppendAssociates(head, TextBefore(c, r), SlotText(c, r));
  }

  /** The `query += ...` chain that ADD COLUMN and MODIFY COLUMN run after
      their prefix (setup.js:350-374, 396-420): it produces exactly the shared
      column clause. */
  method AppendColumnClause(query: string, c: Column) returns (q: string)
    ensures q == query + ColumnClause(c)
  {
    q := query + Interp(c.name) + " " + Interp(c.sqlType);
    ghost var head := q;
    ghost var r := 0;
    assert q == head + TextBefore(c, r);
    q := AppendPiece(q, Truthy(c.length), "(" + Interp(c.length) + ")", head, c, r);
    r := r + 1;
    q := AppendPiece(q, c.notNull == Some("true"), " NOT NULL", head, c, r);
    r := r + 1;
    q := AppendPiece(q, c.primaryKey == Some("true"), " PRIMARY KEY", head, c, r);
    r := r + 1;
    q := AppendPiece(q, c.autoIncrement == Some("true"), " AUTO_INCREMENT", head, c, r);
    r := r + 1;
    q := AppendPiece(q, c.unique == Some("true"), " UNIQUE", head, c, r);
    r := r + 1;
    q := AppendPiece(q, Truthy(c.defaultValue), " DEFAULT " + Interp(c.defaultValue), head, c, r);
    r := r + 1;
    q := AppendPiece(q, Truthy(c.check), " CHECK (" + Interp(c.check) + ")", head, c, r);
    r := r + 1;
    q := AppendPiece(q, Truthy(c.onUpdate), " ON UPDATE " + Interp(c.onUpdate), head, c, r);
    r := r + 1;
    ClauseComplete(query, c, q);
  }

  /** After the last position the text built is the whole clause. */
  lemma ClauseComplete(query: string, c: Column, q: string)
    requires q == query + Interp(c.name) + " " + Interp(c.sqlType) + TextBefore(c, 8)
    ensures q == query + ColumnClause(c)
  {
    TextBeforeComplete(c, 8);
    assert ModifiersFrom(c, 8) == [];
    HeadAssociates(query, c);
  }

  lemma HeadAssociates(query: string, c: Column)
    ensures query + Interp(c.name) + " " + Interp(c.sqlType) + RenderAll(Modifiers(c)) == query + ColumnClause(c)
  {
  }

  /** `ALTER TABLE t ADD COLUMN <clause>` (setup.js:350-374). */
  function AddColumnStatement(table: string, c: Column): string
  {
    "ALTER TABLE " + table + " ADD COLUMN " + ColumnClause(c)
  }

  /** `ALTER TABLE t DROP COLUMN name` (setup.js:385). */
  function DropColumnStatement(table: string, c: Column): string
  {
    "ALTER TABLE " + table + " DROP COLUMN " + Interp(c.name)
  }

  /** `ALTER TABLE t MODIFY COLUMN <clause>` (setup.js:396-420). */
  function ModifyColumnStatement(table: string, c: Column): string
  {
    "ALTER TABLE " + table + " MODIFY COLUMN " + ColumnClause(c)
  }

  /** The comma-separated column definitions of CREATE TABLE (setup.js:203-230). */
  function ColumnDefinitions(cols: seq<Column>): string
  {
    Join(MapSeq(ColumnClause, cols), ", ")
  }

  /** Adding a column to the declaration adds its clause at the end, after a
      comma: definitions keep the declared order. */
  lemma ColumnDefinitionsSnoc(cols: seq<Column>, c: Column)
    requires |cols| > 0
    ensures ColumnDefinitions(cols + [c]) == ColumnDefinitions(cols) + ", " + ColumnClause(c)
  {
    MapSeqAppend(ColumnClause, cols, [c]);
    assert MapSeq(ColumnClause, [c]) == [ColumnClause(c)];
    JoinSnoc(MapSeq(ColumnClause, cols), ColumnClause(c), ", ");
  }

  /** `constraint.constraintType === 'primary'` */
  predicate IsPrimary(k: Constraint)
  {
    k.kind == Some("primary")
  }

  /** `constraint.constraintColumn[0]` as `join` prints it: a missing entry
      prints as the empty string. */
  function FirstColumn(k: Constraint): string
  {
    if |k.columns| > 0 && k.columns[0].Some? then k.columns[0].value else ""
  }

  /** The composite key list: the first column of each primary constraint. */
  function PrimaryKeyColumns(cons: seq<Constraint>): (pk: seq<string>)
    ensures |pk| == 0 <==> forall k :: k in cons ==> !IsPrimary(k)
  {
    var primaries := Filter(IsPrimary, cons);
    assert |primaries| > 0 ==> primaries[0] in primaries;
    MapSeq(FirstColumn, Filter(IsPrimary, cons))
  }

  /** The list grows by the first column of each primary constraint, in
      constraint order, and by nothing for any other constraint. */
  lemma PrimaryKeyColumnsSnoc(cons: seq<Constraint>, k: Constraint)
    ensures PrimaryKeyColumns(cons + [k]) ==
            PrimaryKeyColumns(cons) + if IsPrimary(k) then [FirstColumn(k)] else []
  {
    FilterAppend(IsPrimary, cons, [k]);
    FilterSingle(IsPrimary, k);
    MapSeqAppend(FirstColumn, Filter(IsPrimary, cons), Filter(IsPrimary, [k]));
  }

  /** One more constraint of the list, read in order. */
  lemma CollectStep(cons: seq<Constraint>, i: nat)
    requires i < |cons|
    ensures PrimaryKeyColumns(cons[..i + 1]) ==
            PrimaryKeyColumns(cons[..i]) + if IsPrimary(cons[i]) then [FirstColumn(cons[i])] else []
  {
    assert cons[..i + 1] == cons[..i] + [cons[i]];
    PrimaryKeyColumnsSnoc(cons[..i], cons[i]);
  }

  /** The `forEach` at setup.js:236-240 that pushes into `primaryKeyColumns`. */
  method CollectPrimaryKeyColumns(cons: seq<Constraint>) returns (pk: seq<string>)
    ensures pk == PrimaryKeyColumns(cons)
  {
    pk := [];
    var i := 0;
    while i < |cons|
      invariant 0 <= i <= |cons|
      invariant pk == PrimaryKeyColumns(cons[..i])
    {
      CollectStep(cons, i);
      if IsPrimary(cons[i]) {
        pk := pk + [FirstColumn(cons[i])];
      }
      i := i + 1;
    }
    assert cons[..i] == cons;
  }

  /** `, PRIMARY KEY (a, b)`, or nothing when no constraint is primary. */
  function PrimaryKeyClause(cons: seq<Constraint>): (s: string)
    ensures s == "" <==> forall k :: k in cons ==> !IsPrimary(k)
  {
    var pk := PrimaryKeyColumns(cons);
    if |pk| > 0 then ", PRIMARY KEY (" + Join(pk, ", ") + ")" else ""
  }

  /** `CREATE TABLE t (<definitions>[, PRIMARY KEY (...)]);` */
  function CreateStatement(table: string, cols: seq<Column>, cons: seq<Constraint>): (r: string)
    ensures "CREATE TABLE " + table + " (" + ColumnDefinitions(cols) <= r
    ensures |r| >= 2 && r[|r| - 2..] == ");"
  {
    "CREATE TABLE " + table + " (" + ColumnDefinitions(cols) + PrimaryKeyClause(cons) + ");"
  }

  /** Without a primary constraint the statement is just the column
      definitions in parentheses, and with one it is longer. */
  lemma CreateWithoutKey(table: string, cols: seq<Column>, cons: seq<Constraint>)
    ensures (forall k :: k in cons ==> !IsPrimary(k)) <==>
            CreateStatement(table, cols, cons) == "CREATE TABLE " + table + " (" + ColumnDefinitions(cols) + ");"
  {
    var head := "CREATE TABLE " + table + " (" + ColumnDefinitions(cols);
    var key := PrimaryKeyClause(cons);
    assert CreateStatement(table, cols, cons) == head + key + ");";
    assert |head + key + ");"| == |head| + |key| + 2;
    if key == "" {
      assert head + key == head;
    }
  }
}
