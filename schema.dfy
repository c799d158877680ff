/** The relational schema the catalog reader produces: tables and foreign-key edges. */
module Schema {
  import opened Wrappers
  import opened Collections

  /** A table: its name, its columns in ordinal order and its primary-key column, if any. */
  datatype Table = Table(name: string, columns: seq<string>, primaryKey: Option<string>)

  /** One foreign-key edge `fromTable.fromColumn -> toTable.toColumn`. */
  datatype ForeignKey = ForeignKey(fromTable: string, fromColumn: string, toTable: string, toColumn: string)

  datatype RelationalSchema = RelationalSchema(tables: seq<Table>, foreignKeys: seq<ForeignKey>)

  /**
    The primary key of a table from the rows of its PRIMARY KEY constraint:
    the first row, or None when there is none. A composite key therefore
    yields one of its columns, not None.
   */
  function PrimaryKeyOf(keyColumnRows: seq<string>): (pk: Option<string>)
    ensures pk.None? <==> |keyColumnRows| == 0
    ensures pk.Some? ==> pk.value in keyColumnRows
  {
    if |keyColumnRows| > 0 then Some(keyColumnRows[0]) else None
  }

  /** The foreign keys leaving `table`, in list order. */
  function Outgoing(fks: seq<ForeignKey>, table: string): (r: seq<ForeignKey>)
    ensures |r| <= |fks|
    decreases |fks|
  {
    if |fks| == 0 then []
    else (if fks[0].fromTable == table then [fks[0]] else []) + Outgoing(fks[1..], table)
  }

  /** `Outgoing` keeps exactly the foreign keys that leave `table`. */
  lemma {:induction false} OutgoingMembers(fks: seq<ForeignKey>, table: string)
    ensures forall f :: f in Outgoing(fks, table) <==> f in fks && f.fromTable == table
    decreases |fks|
  {
    if |fks| > 0 {
      OutgoingMembers(fks[1..], table);
      assert fks == [fks[0]] + fks[1..];
    }
  }

  /** The `from_column`s of the foreign keys leaving `table`, in list order. */
  function FkColumns(fks: seq<ForeignKey>, table: string): (cols: seq<string>)
  {
    var out := Outgoing(fks, table);
    seq(|out|, i requires 0 <= i < |out| => out[i].fromColumn)
  }

  lemma FkColumnsMembers(fks: seq<ForeignKey>, table: string)
    ensures forall c :: c in FkColumns(fks, table) <==> exists f :: f in fks && f.fromTable == table && f.fromColumn == c
  {
    OutgoingMembers(fks, table);
    var out := Outgoing(fks, table);
    var cols := FkColumns(fks, table);
    forall f | f in fks && f.fromTable == table ensures f.fromColumn in cols {
      var i :| 0 <= i < |out| && out[i] == f;
      assert cols[i] == f.fromColumn;
    }
  }

  /**
    The link-table test: no primary key, and as many columns as distinct
    foreign-key columns leave the table. It compares counts, not the sets,
    so a link table has no more columns than foreign keys leaving it.
   */
  predicate IsLinkTable(s: RelationalSchema, t: Table)
    ensures IsLinkTable(s, t) ==> t.primaryKey.None? && |t.columns| <= |Outgoing(s.foreignKeys, t.name)|
  {
    t.primaryKey.None? && |t.columns| == DistinctCount(FkColumns(s.foreignKeys, t.name))
  }

  /** Table `i` of the schema is named `table` and is not a link table. */
  predicate EntityAt(s: RelationalSchema, i: int, table: string)
  {
    0 <= i < |s.tables| && s.tables[i].name == table && !IsLinkTable(s, s.tables[i])
  }

  /** `table` is an entity: some table of that name is not a link table. */
  predicate IsEntity(s: RelationalSchema, table: string)
  {
    exists i :: 0 <= i < |s.tables| && EntityAt(s, i, table)
  }

  /** The columns of the first table named `name`, or none when there is no such table. */
  function ColumnsOf(tables: seq<Table>, name: string): (cols: seq<string>)
    ensures (forall t :: t in tables ==> t.name != name) ==> cols == []
    ensures forall i :: (0 <= i < |tables| && tables[i].name == name &&
                         (forall j :: 0 <= j < i ==> tables[j].name != name)) ==> cols == tables[i].columns
    decreases |tables|
  {
    if |tables| == 0 then []
    else if tables[0].name == name then tables[0].columns
    else
      var rest := ColumnsOf(tables[1..], name);
      assert forall i :: 1 <= i < |tables| ==> tables[1..][i - 1] == tables[i];
      rest
  }

  /** A table that names its primary key is never a link table. */
  lemma KeyedTableIsEntity(s: RelationalSchema, i: nat)
    requires i < |s.tables| && s.tables[i].primaryKey.Some?
    ensures IsEntity(s, s.tables[i].name)
  {
    assert EntityAt(s, i, s.tables[i].name);
  }

  /**
    When the table's columns are distinct and every foreign key leaving it
    starts at one of them, the count test is exactly the coverage test:
    every column is the start of some outgoing foreign key.
   */
  lemma LinkTestIsCoverage(s: RelationalSchema, t: Table)
    requires Distinct(t.columns)
    requires forall f :: f in s.foreignKeys && f.fromTable == t.name ==> f.fromColumn in t.columns
    ensures IsLinkTable(s, t) <==> t.primaryKey.None? && Elements(t.columns) <= Elements(FkColumns(s.foreignKeys, t.name))
  {
    var fkCols := Elements(FkColumns(s.foreignKeys, t.name));
    var cols := Elements(t.columns);
    DistinctCountIsCardinality(FkColumns(s.foreignKeys, t.name));
    FkColumnsMembers(s.foreignKeys, t.name);
    DistinctCardinality(t.columns);
    assert fkCols <= cols;
    if |t.columns| == |fkCols| {
      SubsetOfSameSize(fkCols, cols);
    }
    if cols <= fkCols {
      assert cols == fkCols;
    }
  }

  /**
    The count test is not coverage: a keyless table with two columns that two
    foreign keys leave from two other column names is still a link table.
   */
  lemma LinkTestCountsOnly()
    ensures var t := Table("tag", ["a", "b"], None);
      var s := RelationalSchema([t], [ForeignKey("tag", "x", "p", "id"), ForeignKey("tag", "y", "q", "id")]);
      IsLinkTable(s, t) && "a" !in FkColumns(s.foreignKeys, t.name)
  {
    var t := Table("tag", ["a", "b"], None);
    var f1, f2 := ForeignKey("tag", "x", "p", "id"), ForeignKey("tag", "y", "q", "id");
    var s := RelationalSchema([t], [f1, f2]);
    assert [f1, f2][1..] == [f2];
    assert Outgoing([f2], "tag") == [f2] + Outgoing([], "tag");
    assert Outgoing(s.foreignKeys, "tag") == [f1, f2];
    var cols := FkColumns(s.foreignKeys, "tag");
    assert cols == ["x", "y"];
    assert Elements(cols) == {"x", "y"};
    DistinctCountIsCardinality(cols);
  }
}
