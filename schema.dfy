/** The declarative schema as the migration script sees it: the parsed XML
    elements (attribute bags plus child lists, as xml2js delivers them) and the
    typed column and constraint records built from them at the start of each
    table's cycle (back-end/scripts/setup.js:101-150). */
module Schema {
  import opened Seqs

  /** An element's attribute bag, the `$` property of an xml2js node. xml2js
      leaves `$` out entirely when an element has no attributes, so an empty
      bag stands for "`$` is undefined". */
  type Attrs = map<string, string>

  /** `<column name=".." type=".." .../>`, either as a table column or as a
      column reference inside a constraint. */
  datatype ColumnElem = ColumnElem(attrs: Attrs)

  /** `<constraint ...>` with its `<column>` children (None: no child at all). */
  datatype ConstraintElem = ConstraintElem(attrs: Attrs, columns: Option<seq<ColumnElem>>)

  /** `<table name="..">` with its `<column>` and `<constraint>` children. */
  datatype TableElem = TableElem(
    attrs: Attrs,
    columns: Option<seq<ColumnElem>>,
    constraints: Option<seq<ConstraintElem>>)

  /** The column record pushed into `listColumnData`; every field is the raw
      attribute string or absent. */
  datatype Column = Column(
    name: Option<string>,
    sqlType: Option<string>,
    length: Option<string>,
    notNull: Option<string>,
    primaryKey: Option<string>,
    autoIncrement: Option<string>,
    unique: Option<string>,
    defaultValue: Option<string>,
    check: Option<string>,
    onUpdate: Option<string>)

  /** The constraint record pushed into `listConstraintData`. */
  datatype Constraint = Constraint(
    name: Option<string>,
    kind: Option<string>,
    columns: seq<Option<string>>,
    reference: Option<string>,
    onDelete: Option<string>,
    onUpdate: Option<string>)

  /** One declared table after its records have been built. */
  datatype DeclaredTable = DeclaredTable(name: string, columns: seq<Column>, constraints: seq<Constraint>)

  /** `elem.$.key` on an element whose `$` exists. */
  function Attr(a: Attrs, key: string): Option<string>
  {
    if key in a then Some(a[key]) else None
  }

  /** Whether `elem.$` exists. */
  predicate HasAttrs(a: Attrs)
  {
    |a| > 0
  }

  /** A template-literal interpolation `${v}`: an absent value prints as "undefined". */
  function Interp(v: Option<string>): string
  {
    if v.Some? then v.value else "undefined"
  }

  /** JavaScript truthiness of an attribute: present and not the empty string. */
  predicate Truthy(v: Option<string>)
  {
    v.Some? && v.value != ""
  }

  /** `v === 'true'`: the only spelling that switches a flag on. */
  predicate IsTrue(v: Option<string>)
  {
    v == Some("true")
  }

  /** The ten attributes a column record copies; `identity` feeds the
      auto-increment field. */
  const ColumnAttributes: set<string> :=
    {"name", "type", "length", "notNull", "primaryKey", "identity", "unique", "default", "check", "update"}

  function ColumnRecord(e: ColumnElem): Column
  {
    var a := e.attrs;
    Column(Attr(a, "name"), Attr(a, "type"), Attr(a, "length"), Attr(a, "notNull"),
           Attr(a, "primaryKey"), Attr(a, "identity"), Attr(a, "unique"),
           Attr(a, "default"), Attr(a, "check"), Attr(a, "update"))
  }

  /** Two column elements give the same record exactly when they agree on the
      ten copied attributes; any other attribute is ignored. */
  lemma ColumnRecordDeterminedByAttributes(e1: ColumnElem, e2: ColumnElem)
    ensures ColumnRecord(e1) == ColumnRecord(e2) <==>
            forall k :: k in ColumnAttributes ==> Attr(e1.attrs, k) == Attr(e2.attrs, k)
  {
    if ColumnRecord(e1) == ColumnRecord(e2) {
      forall k | k in ColumnAttributes ensures Attr(e1.attrs, k) == Attr(e2.attrs, k) {
        assert k == "name" || k == "type" || k == "length" || k == "notNull" || k == "primaryKey"
            || k == "identity" || k == "unique" || k == "default" || k == "check" || k == "update";
      }
    }
  }

  /** A column element whose callback runs to its push: one without `$` makes
      `column.$.name` throw inside the async callback, which only rejects that
      callback's promise, so the column is skipped. */
  predicate ColumnUsable(e: ColumnElem)
  {
    HasAttrs(e.attrs)
  }

  /** `listColumnData` after the `forEach` over a table's column elements. */
  function ColumnList(elems: seq<ColumnElem>): seq<Column>
  {
    MapSeq(ColumnRecord, Filter(ColumnUsable, elems))
  }

  /** The `forEach` at setup.js:107-130, pushing one record per usable element. */
  method CollectColumns(elems: seq<ColumnElem>) returns (cols: seq<Column>)
    ensures cols == ColumnList(elems)
    ensures |cols| <= |elems|
    ensures forall e :: e in elems && ColumnUsable(e) ==> ColumnRecord(e) in cols
  {
    cols := [];
    var i := 0;
    while i < |elems|
      invariant 0 <= i <= |elems|
      invariant cols == ColumnList(elems[..i])
    {
      assert elems[..i + 1] == elems[..i] + [elems[i]];
      FilterAppend(ColumnUsable, elems[..i], [elems[i]]);
      FilterSingle(ColumnUsable, elems[i]);
      MapSeqAppend(ColumnRecord, Filter(ColumnUsable, elems[..i]), Filter(ColumnUsable, [elems[i]]));
      if ColumnUsable(elems[i]) {
        cols := cols + [ColumnRecord(elems[i])];
      }
      i := i + 1;
    }
    assert elems[..i] == elems;
    forall e | e in elems && ColumnUsable(e) ensures ColumnRecord(e) in cols {
      var k :| 0 <= k < |Filter(ColumnUsable, elems)| && Filter(ColumnUsable, elems)[k] == e;
      assert cols[k] == ColumnRecord(e);
    }
  }

  /** The name a constraint's `<column>` child refers to. */
  function RefName(c: ColumnElem): Option<string>
  {
    Attr(c.attrs, "name")
  }

  /** A constraint element whose callback reaches its push: it needs `$`, at
      least one `<column>` child (otherwise `constraint.column.forEach` throws)
      and `$` on every child. Any other constraint is skipped. */
  predicate ConstraintUsable(e: ConstraintElem)
  {
    HasAttrs(e.attrs) && e.columns.Some? &&
    forall c :: c in e.columns.value ==> HasAttrs(c.attrs)
  }

  function ConstraintRecord(e: ConstraintElem): Constraint
  {
    var a := e.attrs;
    var refs := if e.columns.Some? then MapSeq(RefName, e.columns.value) else [];
    Constraint(Attr(a, "name"), Attr(a, "type"), refs, Attr(a, "reference"),
               Attr(a, "onDelete"), Attr(a, "onUpdate"))
  }

  /** `listConstraintData` after the `forEach` over a table's constraint elements. */
  function ConstraintList(elems: seq<ConstraintElem>): seq<Constraint>
  {
    MapSeq(ConstraintRecord, Filter(ConstraintUsable, elems))
  }

  /** The inner `forEach` at setup.js:139-141 collecting the names of a
      constraint's `<column>` children; `ok` is false when a child without `$`
      makes `column.$.name` throw. */
  method CollectReferences(kids: seq<ColumnElem>) returns (ok: bool, refs: seq<Option<string>>)
    ensures ok <==> forall c :: c in kids ==> HasAttrs(c.attrs)
    ensures ok ==> refs == MapSeq(RefName, kids)
  {
    refs := [];
    var j := 0;
    while j < |kids|
      invariant 0 <= j <= |kids|
      invariant refs == MapSeq(RefName, kids[..j])
      invariant forall c :: c in kids[..j] ==> HasAttrs(c.attrs)
    {
      if !HasAttrs(kids[j].attrs) {
        assert kids[j] in kids;
        return false, refs;
      }
      assert kids[..j + 1] == kids[..j] + [kids[j]];
      MapSeqAppend(RefName, kids[..j], [kids[j]]);
      refs := refs + [RefName(kids[j])];
      j := j + 1;
    }
    assert kids[..j] == kids;
    ok := true;
  }

  /** The `forEach` at setup.js:131-150; a throwing callback abandons only its
      own constraint. */
  method CollectConstraints(elems: seq<ConstraintElem>) returns (cons: seq<Constraint>)
    ensures cons == ConstraintList(elems)
    ensures |cons| <= |elems|
    ensures forall e :: e in elems && ConstraintUsable(e) ==> ConstraintRecord(e) in cons
  {
    cons := [];
    var i := 0;
    while i < |elems|
      invariant 0 <= i <= |elems|
      invariant cons == ConstraintList(elems[..i])
    {
      var e := elems[i];
      if HasAttrs(e.attrs) && e.columns.Some? {
        var ok, refs := CollectReferences(e.columns.value);
        if ok {
          cons := cons + [Constraint(Attr(e.attrs, "name"), Attr(e.attrs, "type"), refs,
                                     Attr(e.attrs, "reference"), Attr(e.attrs, "onDelete"),
                                     Attr(e.attrs, "onUpdate"))];
        }
      }
      ConstraintListSnoc(elems[..i], e);
      assert elems[..i + 1] == elems[..i] + [e];
      i := i + 1;
    }
    assert elems[..i] == elems;
    forall e | e in elems && ConstraintUsable(e) ensures ConstraintRecord(e) in cons {
      var k :| 0 <= k < |Filter(ConstraintUsable, elems)| && Filter(ConstraintUsable, elems)[k] == e;
      assert cons[k] == ConstraintRecord(e);
    }
  }

  lemma ConstraintListSnoc(elems: seq<ConstraintElem>, e: ConstraintElem)
    ensures ConstraintList(elems + [e]) ==
            ConstraintList(elems) + if ConstraintUsable(e) then [ConstraintRecord(e)] else []
  {
    FilterAppend(ConstraintUsable, elems, [e]);
    FilterSingle(ConstraintUsable, e);
    MapSeqAppend(ConstraintRecord, Filter(ConstraintUsable, elems), Filter(ConstraintUsable, [e]));
  }

  /** The records of one `<table>` element, or None when handleSetupDB throws
      synchronously on it: no `$` (setup.js:102), no `<column>` child (107) or
      no `<constraint>` child (131). */
  function ParseTable(t: TableElem): (r: Option<DeclaredTable>)
    ensures r.None? <==> !HasAttrs(t.attrs) || t.columns.None? || t.constraints.None?
    ensures r.Some? ==> r.value.name == DeclaredName(t)
    ensures r.Some? ==> |r.value.columns| <= |t.columns.value| && |r.value.constraints| <= |t.constraints.value|
  {
    if !HasAttrs(t.attrs) || t.columns.None? || t.constraints.None? then None
    else Some(DeclaredTable(Interp(Attr(t.attrs, "name")),
                            ColumnList(t.columns.value),
                            ConstraintList(t.constraints.value)))
  }

  /** The name a table is processed under (meaningful when it parses). */
  function DeclaredName(t: TableElem): string
  {
    Interp(Attr(t.attrs, "name"))
  }
}
