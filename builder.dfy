/**
 * The builder's objects: columns configured by chained setters, indices, and
 * tables that keep their columns and indices in insertion order and index
 * them by name. Rendering and diffing are done by methods with the loops of
 * the Go code; each is proved equal to the function on a value snapshot of
 * the objects (modules Schema and Migration), whose properties are proved
 * there.
 */
module SchemaBuilder {
  import opened Wrappers
  import opened GoTypes
  import opened Dialects
  import opened Schema
  import Migration
  import Text

  // ---------------------------------------------------------------------------
  // Name maps: a Go map written once per appended element, newest entry wins
  // ---------------------------------------------------------------------------

  /** The map that writing `m[key(x)] = x` for each element in order leaves behind. */
  function ByName<T>(s: seq<T>, key: T -> string): map<string, T>
  {
    if s == [] then map[] else ByName(s[..|s| - 1], key)[key(s[|s| - 1]) := s[|s| - 1]]
  }

  function Keys<T>(s: seq<T>, key: T -> string): (r: seq<string>)
    ensures |r| == |s| && forall i :: 0 <= i < |s| ==> r[i] == key(s[i])
  {
    seq(|s|, i requires 0 <= i < |s| => key(s[i]))
  }

  lemma ByNameSnoc<T>(s: seq<T>, x: T, key: T -> string)
    ensures ByName(s + [x], key) == ByName(s, key)[key(x) := x]
  {
    assert (s + [x])[..|s|] == s;
  }

  /**
   * The name map holds exactly the names that occur, and for each the element
   * that came last with that name.
   */
  lemma {:induction false} ByNameIsLast<T>(s: seq<T>, key: T -> string, n: string)
    ensures n in ByName(s, key) <==> n in Keys(s, key)
    ensures n in ByName(s, key) ==> ByName(s, key)[n] == s[LastNamed(Keys(s, key), n).value]
  {
    if s != [] {
      var init := s[..|s| - 1];
      assert Keys(s, key)[..|s| - 1] == Keys(init, key);
      ByNameIsLast(init, key, n);
    }
  }

  // ---------------------------------------------------------------------------
  // Columns
  // ---------------------------------------------------------------------------

  class Column {
    const name: string
    var typ: GoType
    var isNotNull: bool
    var defaultVal: string
    var isAutoIncrement: bool
    var isPrimaryKey: bool
    var isUnique: bool
    var typeSize: TypeSize
    /** The table the column was last added to; its dialect renders the column. */
    var table: Table?

    /** The column's settings; the back-pointer is not part of them. */
    function Value(): ColumnValue
      reads this`typ, this`isNotNull, this`defaultVal, this`isAutoIncrement,
            this`isPrimaryKey, this`isUnique, this`typeSize
    {
      ColumnValue(name, typ, isNotNull, defaultVal, isAutoIncrement, isPrimaryKey, isUnique, typeSize)
    }

    /** `NewColumn`: NOT NULL, no other flag, no default, no size, no kind yet, in no table. */
    constructor (name: string)
      ensures Value() == ColumnValue(name, NilType, true, "", false, false, false, 0)
      ensures table == null
    {
      this.name := name;
      typ := NilType;
      isNotNull := true;
      defaultVal := "";
      isAutoIncrement := false;
      isPrimaryKey := false;
      isUnique := false;
      typeSize := 0;
      table := null;
    }

    /**
     * `As`: sets the kind, and clears NOT NULL for the `sql.Null*` wrappers
     * and for pointers to integers, `bool` and `string`. It never sets NOT
     * NULL back.
     */
    method As(t: GoType)
      modifies this`typ, this`isNotNull
      ensures Value() == old(Value()).(typ := t, isNotNull := old(isNotNull) && !IsNullMarker(t))
    {
      typ := t;
      match t {
        case NullBool | NullString | NullFloat64 | NullInt64 =>
          isNotNull := false;
        case Pointer(b) =>
          if IsIntegerBase(b) || b == Bool {
            isNotNull := false;
          } else if b == String {
            isNotNull := false;
          }
        case _ =>
      }
    }

    method AutoIncrement()
      modifies this`isAutoIncrement
      ensures Value() == old(Value()).(isAutoIncrement := true)
    {
      isAutoIncrement := true;
    }

    method PrimaryKey()
      modifies this`isPrimaryKey
      ensures Value() == old(Value()).(isPrimaryKey := true)
    {
      isPrimaryKey := true;
    }

    method Unique()
      modifies this`isUnique
      ensures Value() == old(Value()).(isUnique := true)
    {
      isUnique := true;
    }

    method Default(v: string)
      modifies this`defaultVal
      ensures Value() == old(Value()).(defaultVal := v)
    {
      defaultVal := v;
    }

    method Size(v: TypeSize)
      modifies this`typeSize
      ensures Value() == old(Value()).(typeSize := v)
    {
      typeSize := v;
    }

    /** `Column.Constraints`: the options collected in a local list in their fixed order, joined by spaces. */
    method Constraints() returns (r: string)
      requires table != null
      ensures r == Schema.Constraints(Dialects.AutoIncrement(table.dialect), Value())
    {
      ghost var v, ai := Value(), Dialects.AutoIncrement(table.dialect);
      var options: seq<string> := [];
      if defaultVal != "" {
        options := options + ["DEFAULT"];
        options := options + [defaultVal];
      }
      ghost var upTo := if v.defaultVal != "" then ["DEFAULT", v.defaultVal] else [];
      assert options == upTo;
      if isAutoIncrement {
        options := options + [Dialects.AutoIncrement(table.dialect)];
      }
      upTo := upTo + if v.isAutoIncrement then [ai] else [];
      assert options == upTo;
      if isNotNull {
        options := options + ["NOT NULL"];
      }
      upTo := upTo + if v.isNotNull then ["NOT NULL"] else [];
      assert options == upTo;
      if isPrimaryKey {
        options := options + ["PRIMARY KEY"];
      }
      upTo := upTo + if v.isPrimaryKey then ["PRIMARY KEY"] else [];
      assert options == upTo;
      if isUnique {
        options := options + ["UNIQUE"];
      }
      upTo := upTo + if v.isUnique then ["UNIQUE"] else [];
      assert options == upTo == ConstraintOptions(ai, v);
      r := Text.Join(options, " ");
    }
  }

  /** The settings of each column, in order. */
  function ColumnValues(cs: seq<Column>): (r: seq<ColumnValue>)
    reads cs
    ensures |r| == |cs| && forall i :: 0 <= i < |cs| ==> r[i] == cs[i].Value()
  {
    seq(|cs|, i requires 0 <= i < |cs| reads cs => cs[i].Value())
  }

  lemma ColumnValuesSnoc(cs: seq<Column>, c: Column)
    ensures ColumnValues(cs + [c]) == ColumnValues(cs) + [c.Value()]
  {
    assert (cs + [c])[..|cs|] == cs;
  }

  /** Changing fields other than the settings, such as back-pointers, leaves the settings as they were. */
  twostate lemma ColumnValuesUnchanged(cs: seq<Column>)
    requires forall i :: 0 <= i < |cs| ==> old(cs[i].Value()) == cs[i].Value()
    ensures ColumnValues(cs) == old(ColumnValues(cs))
  {
  }

  function ColumnName(c: Column): string
  {
    c.name
  }

  /** The names of the columns are the names of their settings. */
  lemma ColumnKeys(cs: seq<Column>)
    ensures Keys(cs, ColumnName) == ColumnNames(ColumnValues(cs))
  {
  }

  // ---------------------------------------------------------------------------
  // Indices
  // ---------------------------------------------------------------------------

  /**
   * An index. Its name, uniqueness and column names are set when it is built
   * and never written afterwards; only the back-pointer changes.
   */
  class Index {
    const name: string
    const isUnique: bool
    const columnNames: seq<string>
    var table: Table?

    constructor (name: string, isUnique: bool, columnNames: seq<string>)
      ensures Value() == IndexValue(name, isUnique, columnNames) && table == null
    {
      this.name := name;
      this.isUnique := isUnique;
      this.columnNames := columnNames;
      table := null;
    }

    function Value(): IndexValue
    {
      IndexValue(name, isUnique, columnNames)
    }

    /** `Index.ToSQL`, with the table name and dialect reached through the back-pointer. */
    method ToSQL() returns (r: string)
      requires table != null
      ensures r == IndexSQL(table.dialect, table.name, Value())
    {
      var d := table.dialect;
      var head := if isUnique then "CREATE UNIQUE INDEX " else "CREATE INDEX ";
      var quoted := QuoteAll(d, columnNames);
      IndexLayout(d, table.name, Value());
      r := head + Quote(d, name) + " ON " + Quote(d, table.name) + " (" + Text.Join(quoted, ",") + ")";
    }
  }

  /** `quoteAll`: fills a list of the same length with each name quoted. */
  method QuoteAll(d: Dialect, ss: seq<string>) returns (quoted: seq<string>)
    ensures quoted == QuotedNames(d, ss)
  {
    quoted := seq(|ss|, _ => "");
    for i := 0 to |ss|
      invariant |quoted| == |ss|
      invariant forall k :: 0 <= k < i ==> quoted[k] == Quote(d, ss[k])
    {
      quoted := quoted[i := Quote(d, ss[i])];
    }
  }

  function IndexValues(xs: seq<Index>): (r: seq<IndexValue>)
    ensures |r| == |xs| && forall i :: 0 <= i < |xs| ==> r[i] == xs[i].Value()
  {
    seq(|xs|, i requires 0 <= i < |xs| => xs[i].Value())
  }

  function IndexName(i: Index): string
  {
    i.name
  }

  // ---------------------------------------------------------------------------
  // Tables
  // ---------------------------------------------------------------------------

  class Table {
    const name: string
    const dialect: Dialect
    var columns: seq<Column>
    var indices: seq<Index>
    var version: string
    var histories: seq<Table>
    var columnMap: map<string, Column>
    var indexMap: map<string, Index>

    /**
     * Every column and index points back to this table, and the name maps are
     * what adding them in order left behind.
     */
    ghost predicate Valid()
      reads this, columns, indices
    {
      (forall i :: 0 <= i < |columns| ==> columns[i].table == this)
      && (forall i :: 0 <= i < |indices| ==> indices[i].table == this)
      && columnMap == ByName(columns, ColumnName)
      && indexMap == ByName(indices, IndexName)
    }

    /** The table's fields and its columns' and indices' settings as a value. */
    function Snapshot(): TableValue
      reads this, columns
    {
      TableValue(name, dialect, ColumnValues(columns), IndexValues(indices), version)
    }

    /** `NewTable`: no columns, no indices, no histories, no version label. */
    constructor (name: string, d: Dialect)
      ensures Valid() && Snapshot() == TableValue(name, d, [], [], "") && histories == []
    {
      this.name := name;
      dialect := d;
      columns := [];
      indices := [];
      version := "";
      histories := [];
      columnMap := map[];
      indexMap := map[];
    }

    /**
     * `AddColumn`: the column goes at the end, its back-pointer is set to
     * this table, and the name map now sends its name to it.
     */
    method AddColumn(c: Column)
      requires Valid()
      modifies this`columns, this`columnMap, c`table
      ensures Valid()
      ensures columns == old(columns) + [c] && columnMap == old(columnMap)[c.name := c] && c.table == this
      ensures Snapshot() == old(Snapshot()).(columns := old(Snapshot().columns) + [c.Value()])
    {
      c.table := this;
      ColumnValuesUnchanged(columns);
      ByNameSnoc(columns, c, ColumnName);
      ColumnValuesSnoc(columns, c);
      columnMap := columnMap[c.name := c];
      columns := columns + [c];
    }

    /** `AddIndex`: the same for an index and the index name map. */
    method AddIndex(x: Index)
      requires Valid()
      modifies this`indices, this`indexMap, x`table
      ensures Valid()
      ensures indices == old(indices) + [x] && indexMap == old(indexMap)[x.name := x] && x.table == this
      ensures Snapshot() == old(Snapshot()).(indices := old(Snapshot().indices) + [x.Value()])
    {
      x.table := this;
      indexMap := indexMap[x.name := x];
      indices := indices + [x];
      assert indices[..|indices| - 1] == old(indices);
    }

    /** `AddHistoryTable`: the earlier version goes at the end of the histories. */
    method AddHistoryTable(h: Table)
      modifies this`histories
      ensures histories == old(histories) + [h]
    {
      histories := histories + [h];
    }

    /** `GetColumn`: the column registered under that name, or none. */
    function GetColumn(n: string): Column?
      reads this
    {
      if n in columnMap then columnMap[n] else null
    }

    /** `GetIndex`: the index registered under that name, or none. */
    function GetIndex(n: string): Index?
      reads this
    {
      if n in indexMap then indexMap[n] else null
    }

    /**
     * The column loop of `createTableSQL`: each column's declaration, rendered
     * through its back-pointer and filled in by position. The first column of
     * an unsupported kind aborts.
     */
    method ColumnDefinitions() returns (r: Result<seq<string>, Error>)
      requires Valid()
      ensures r == ColumnSQLs(dialect, Snapshot().columns)
    {
      ghost var t := Snapshot();
      var defs: seq<string> := seq(|columns|, _ => "");
      for i := 0 to |columns|
        invariant |defs| == |columns|
        invariant forall k :: 0 <= k < i ==> IsSupported(t.columns[k].typ)
        invariant forall k :: 0 <= k < i ==> defs[k] == ColumnSQL(dialect, t.columns[k]).value
      {
        var c := columns[i];
        assert c.table == this && c.Value() == t.columns[i];
        var sql := ColumnSQL(c.table.dialect, c.Value());
        assert sql == ColumnSQL(dialect, t.columns[i]);
        if sql.Failure? {
          FirstFailureReported(dialect, t.columns, i);
          return Failure(sql.error);
        }
        assert IsSupported(t.columns[i].typ);
        defs := defs[i := sql.value];
      }
      assert defs == ColumnSQLs(dialect, t.columns).value;
      r := Success(defs);
    }

    /**
     * `createTableSQL`: the prefix, the column declarations joined by `,\n`
     * in parentheses, and the dialect's suffix.
     */
    method CreateTableSQL(ifNotExists: bool) returns (r: Result<string, Error>)
      requires Valid()
      ensures r == Schema.CreateTableSQL(Snapshot(), ifNotExists)
    {
      var clause := if ifNotExists then "IF NOT EXISTS " else "";
      var prefix := "CREATE TABLE " + clause + Quote(dialect, name);
      var defs :- ColumnDefinitions();
      CreateTableLayout(Snapshot(), ifNotExists, defs);
      r := Success(prefix + "(\n" + Text.Join(defs, ",\n") + "\n)" + CreateTableSuffix(dialect));
    }

    /** `CreateIndexSQLs`: each index's statement filled in by position. */
    method CreateIndexSQLs() returns (r: seq<string>)
      requires Valid()
      ensures r == IndexSQLs(Snapshot())
    {
      var result: seq<string> := seq(|indices|, _ => "");
      for i := 0 to |indices|
        invariant |result| == |indices|
        invariant forall k :: 0 <= k < i ==> result[k] == IndexSQL(dialect, name, indices[k].Value())
      {
        var sql := indices[i].ToSQL();
        result := result[i := sql];
      }
      r := result;
    }

    /** `Table.String`. */
    method String() returns (r: Result<string, Error>)
      requires Valid()
      ensures r == TableString(Snapshot())
    {
      ghost var t := Snapshot();
      var ddl :- CreateTableSQL(true);
      var statements := CreateIndexSQLs();
      TableStringLayout(t, ddl);
      r := Success(ddl + ";\n" + Text.Join(statements, ";\n") + ";\n");
    }

    /**
     * `lookupVersion`: "current" is this table; any other label is the first
     * history carrying it, or nothing.
     */
    method LookupVersion(version: string) returns (r: Table?)
      requires Valid() && forall h :: h in histories ==> h.Valid()
      ensures r == null <==> Migration.LookupVersion(Snapshot(), HistoryValues(histories), version).None?
      ensures r != null ==> Migration.LookupVersion(Snapshot(), HistoryValues(histories), version) == Some(r.Snapshot())
      ensures r != null ==> r == this || r in histories
      ensures Valid() && forall h :: h in histories ==> h.Valid() && h.Snapshot() == old(h.Snapshot())
      ensures Snapshot() == old(Snapshot()) && HistoryValues(histories) == old(HistoryValues(histories))
    {
      if version == "current" {
        return this;
      }
      ghost var hv := HistoryValues(histories);
      for i := 0 to |histories|
        invariant forall k :: 0 <= k < i ==> hv[k].version != version
      {
        if histories[i].version == version {
          assert hv[i].version == version;
          assert Migration.FirstVersion(hv, version) == Some(i);
          return histories[i];
        }
      }
      return null;
    }

    /**
     * `MigrateSQL`: resolve both labels (FROM is reported first), then the
     * DROP/MODIFY loop over the FROM columns and the ADD loop over the TO
     * columns, under an `ALTER TABLE` header naming this table.
     */
    method MigrateSQL(from: string, to: string) returns (r: Result<string, Error>)
      requires Valid() && forall h :: h in histories ==> h.Valid()
      ensures r == Migration.MigrateSQL(old(Snapshot()), old(HistoryValues(histories)), from, to)
    {
      ghost var t, hv := Snapshot(), HistoryValues(histories);
      var fromTable := LookupVersion(from);
      var toTable := LookupVersion(to);
      if fromTable == null {
        return Failure(VersionNotFound(From, from));
      }
      if toTable == null {
        return Failure(VersionNotFound(To, to));
      }
      ghost var fv, tv := fromTable.Snapshot(), toTable.Snapshot();
      assert Migration.LookupVersion(t, hv, from) == Some(fv) && Migration.LookupVersion(t, hv, to) == Some(tv);
      var dropsAndModifies := DropsAndModifies(fromTable, toTable);
      if dropsAndModifies.Failure? {
        assert Migration.MigrateSQL(t, hv, from, to) == Failure(dropsAndModifies.error) by {
          Migration.MigrateSQLResolved(t, hv, from, to, fv, tv);
        }
        return Failure(dropsAndModifies.error);
      }
      var adds := Adds(fromTable, toTable);
      if adds.Failure? {
        assert Migration.MigrateSQL(t, hv, from, to) == Failure(adds.error) by {
          Migration.MigrateSQLResolved(t, hv, from, to, fv, tv);
        }
        return Failure(adds.error);
      }
      r := Success("ALTER TABLE " + Quote(dialect, name) + "\n" + Text.Join(dropsAndModifies.value + adds.value, ",\n"));
      assert r == Migration.MigrateSQL(t, hv, from, to) by {
        Migration.MigrateSQLResolved(t, hv, from, to, fv, tv);
      }
    }
  }

  /**
   * The body of `MigrateSQL`'s first loop for one FROM column, reading both
   * dialects through the columns' back-pointers: DROP when the TO table has
   * no column of that name, MODIFY restating the FROM declaration, as
   * `AlterModifySQL` does, when the two declarations differ, nothing when
   * they agree.
   */
  function DropOrModify(toT: Table, fromColumn: Column): Result<seq<string>, Error>
    requires toT.Valid() && fromColumn.table != null
    reads fromColumn, toT, toT.columns, toT.indices
  {
    var toColumn := toT.GetColumn(fromColumn.name);
    GetColumnIsNewest(toT, fromColumn.name);
    if toColumn == null then
      Success([Migration.AlterDropSQL(fromColumn.table.dialect, fromColumn.Value())])
    else
      var same :- Migration.ColumnEquals(fromColumn.table.dialect, fromColumn.Value(),
                                         toColumn.table.dialect, toColumn.Value());
      if same then Success([])
      else Success([Migration.AlterModifySQLAsWritten(fromColumn.table.dialect, fromColumn.Value(), toColumn.Value()).value])
  }

  /** One iteration of the first loop computes the FROM step on the snapshots. */
  lemma DropOrModifyIsFromStep(fromT: Table, toT: Table, i: nat)
    requires fromT.Valid() && toT.Valid() && i < |fromT.columns|
    ensures fromT.columns[i].table != null
    ensures DropOrModify(toT, fromT.columns[i]) ==
            Migration.FromStep(fromT.Snapshot(), toT.Snapshot(), fromT.Snapshot().columns[i])
  {
    var c := fromT.columns[i];
    assert c.table == fromT && c.Value() == fromT.Snapshot().columns[i];
    GetColumnIsNewest(toT, c.name);
  }

  /**
   * The first loop of `MigrateSQL`: a DROP for each FROM column the TO table
   * lacks, a MODIFY for each one whose declaration differs, in FROM order.
   */
  method DropsAndModifies(fromT: Table, toT: Table) returns (r: Result<seq<string>, Error>)
    requires fromT.Valid() && toT.Valid()
    ensures r == Migration.FromOps(fromT.Snapshot(), toT.Snapshot(), fromT.Snapshot().columns)
    ensures fromT.Valid() && toT.Valid() && fromT.Snapshot() == old(fromT.Snapshot()) && toT.Snapshot() == old(toT.Snapshot())
  {
    ghost var fv, tv := fromT.Snapshot(), toT.Snapshot();
    var result: seq<string> := [];
    for i := 0 to |fromT.columns|
      invariant Migration.FromOps(fv, tv, fv.columns[..i]) == Success(result)
    {
      DropOrModifyIsFromStep(fromT, toT, i);
      var step := DropOrModify(toT, fromT.columns[i]);
      Migration.FromOpsSnoc(fv, tv, fv.columns, i, result);
      if step.Failure? {
        Migration.FromOpsStopsAtFailure(fv, tv, fv.columns, i + 1);
        return Failure(step.error);
      }
      result := result + step.value;
    }
    assert fv.columns[..|fromT.columns|] == fv.columns;
    r := Success(result);
  }

  /**
   * The body of `MigrateSQL`'s second loop for one TO column: ADD, rendered
   * through the column's back-pointer, when the FROM table has no column of
   * that name, nothing otherwise.
   */
  function AddIfMissing(fromT: Table, toColumn: Column): Result<seq<string>, Error>
    requires toColumn.table != null
    reads fromT, toColumn
  {
    if fromT.GetColumn(toColumn.name) == null then
      var add :- Migration.AlterAddSQL(toColumn.table.dialect, toColumn.Value());
      Success([add])
    else Success([])
  }

  /** One iteration of the second loop computes the TO step on the snapshots. */
  lemma AddIfMissingIsToStep(fromT: Table, toT: Table, i: nat)
    requires fromT.Valid() && toT.Valid() && i < |toT.columns|
    ensures toT.columns[i].table != null
    ensures AddIfMissing(fromT, toT.columns[i]) ==
            Migration.ToStep(fromT.Snapshot(), toT.Snapshot(), toT.Snapshot().columns[i])
  {
    var c := toT.columns[i];
    assert c.table == toT && c.Value() == toT.Snapshot().columns[i];
    GetColumnIsNewest(fromT, c.name);
  }

  /** The second loop of `MigrateSQL`: an ADD for each TO column the FROM table lacks, in TO order. */
  method Adds(fromT: Table, toT: Table) returns (r: Result<seq<string>, Error>)
    requires fromT.Valid() && toT.Valid()
    ensures r == Migration.ToOps(fromT.Snapshot(), toT.Snapshot(), toT.Snapshot().columns)
    ensures fromT.Snapshot() == old(fromT.Snapshot()) && toT.Snapshot() == old(toT.Snapshot())
  {
    ghost var fv, tv := fromT.Snapshot(), toT.Snapshot();
    var result: seq<string> := [];
    for i := 0 to |toT.columns|
      invariant Migration.ToOps(fv, tv, tv.columns[..i]) == Success(result)
    {
      AddIfMissingIsToStep(fromT, toT, i);
      var step := AddIfMissing(fromT, toT.columns[i]);
      Migration.ToOpsSnoc(fv, tv, tv.columns, i, result);
      if step.Failure? {
        Migration.ToOpsStopsAtFailure(fv, tv, tv.columns, i + 1);
        return Failure(step.error);
      }
      result := result + step.value;
    }
    assert tv.columns[..|toT.columns|] == tv.columns;
    r := Success(result);
  }


  /** `GetColumn` finds the newest column added under the name, as the snapshot lookup does. */
  lemma GetColumnIsNewest(t: Table, n: string)
    requires t.Valid()
    ensures t.GetColumn(n) == null <==> Schema.GetColumn(t.Snapshot().columns, n).None?
    ensures t.GetColumn(n) != null ==>
      t.GetColumn(n) in t.columns && Schema.GetColumn(t.Snapshot().columns, n) == Some(t.GetColumn(n).Value())
  {
    ByNameIsLast(t.columns, ColumnName, n);
    ColumnKeys(t.columns);
  }

  /** `GetIndex` finds the newest index added under the name, or none when no index has it. */
  lemma GetIndexIsNewest(t: Table, n: string)
    requires t.Valid()
    ensures t.GetIndex(n) == null <==> n !in Keys(t.indices, IndexName)
    ensures t.GetIndex(n) != null ==> t.GetIndex(n) == t.indices[LastNamed(Keys(t.indices, IndexName), n).value]
  {
    ByNameIsLast(t.indices, IndexName, n);
  }



  /** Every object whose fields the histories' snapshots read. */
  ghost function HistoriesFrame(hs: seq<Table>): (r: set<object>)
    reads hs
    ensures forall h, c :: h in hs && c in h.columns ==> c in r
  {
    set h, c | h in hs && c in h.columns :: c as object
  }

  /** The snapshots of the earlier versions, in the order they were added. */
  function HistoryValues(hs: seq<Table>): (r: seq<TableValue>)
    reads hs, HistoriesFrame(hs)
    ensures |r| == |hs| && forall i :: 0 <= i < |hs| ==> r[i] == hs[i].Snapshot()
  {
    if hs == [] then []
    else
      assert HistoriesFrame(hs[..|hs| - 1]) <= HistoriesFrame(hs);
      HistoryValues(hs[..|hs| - 1]) + [hs[|hs| - 1].Snapshot()]
  }
}
