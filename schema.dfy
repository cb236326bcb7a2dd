/**
 * Columns, indices and tables as values, and the rendering of CREATE TABLE
 * and CREATE INDEX text from them.
 *
 * A `TableValue` is a snapshot of a `Table` object's fields (see
 * SchemaBuilder); its columns render with the table's dialect, which is what
 * the Go code reaches through each column's back-pointer.
 */
module Schema {
  import opened Wrappers
  import opened GoTypes
  import opened Dialects
  import Text

  datatype ColumnValue = ColumnValue(
    name: string,
    typ: GoType,
    isNotNull: bool,
    defaultVal: string,
    isAutoIncrement: bool,
    isPrimaryKey: bool,
    isUnique: bool,
    typeSize: TypeSize)

  datatype IndexValue = IndexValue(name: string, isUnique: bool, columnNames: seq<string>)

  datatype TableValue = TableValue(
    name: string,
    dialect: Dialect,
    columns: seq<ColumnValue>,
    indices: seq<IndexValue>,
    version: string)

  /**
   * The kinds for which `Column.As` clears NOT NULL: the four `sql.Null*`
   * wrappers and pointers to integers, `bool` and `string` (not pointers to
   * floats or to `time.Time`).
   */
  predicate IsNullMarker(t: GoType)
  {
    t in {NullBool, NullString, NullFloat64, NullInt64}
    || (t.Pointer? && (IsIntegerBase(t.base) || t.base == Bool || t.base == String))
  }

  predicate AllSupported(cols: seq<ColumnValue>)
  {
    forall i :: 0 <= i < |cols| ==> IsSupported(cols[i].typ)
  }

  // ---------------------------------------------------------------------------
  // Name lookup: the name maps of a Table mirror its slices, newest entry wins.
  // ---------------------------------------------------------------------------

  predicate UniqueNames(names: seq<string>)
  {
    forall i, j :: 0 <= i < j < |names| ==> names[i] != names[j]
  }

  /** The position of the last name equal to `n`. */
  function LastNamed(names: seq<string>, n: string): (r: Option<nat>)
    ensures r.None? <==> n !in names
    ensures r.Some? ==> r.value < |names| && names[r.value] == n
    ensures r.Some? ==> forall j :: r.value < j < |names| ==> names[j] != n
  {
    if names == [] then None
    else if names[|names| - 1] == n then Some(|names| - 1)
    else LastNamed(names[..|names| - 1], n)
  }

  /** In a list without repeated names, the last position of a name is its only position. */
  lemma LastNamedUnique(names: seq<string>, i: nat)
    requires UniqueNames(names) && i < |names|
    ensures LastNamed(names, names[i]) == Some(i)
  {
  }

  function ColumnNames(cols: seq<ColumnValue>): seq<string>
  {
    seq(|cols|, i requires 0 <= i < |cols| => cols[i].name)
  }

  /** `Table.GetColumn` on a snapshot: the newest column with that name. */
  function GetColumn(cols: seq<ColumnValue>, n: string): (r: Option<ColumnValue>)
    ensures r.None? <==> n !in ColumnNames(cols)
    ensures r.Some? ==> r.value in cols && r.value.name == n
  {
    match LastNamed(ColumnNames(cols), n)
    case Some(i) => Some(cols[i])
    case None => None
  }

  // ---------------------------------------------------------------------------
  // Column rendering
  // ---------------------------------------------------------------------------

  /** `Column.DataType`: the dialect's type for this column's kind, flag and size. */
  function ColumnDataType(d: Dialect, c: ColumnValue): (r: Result<string, Error>)
    ensures r.Success? <==> IsSupported(c.typ)
    ensures r.Success? ==> |r.value| > 0
  {
    DataType(d, c.typ, c.isAutoIncrement, c.typeSize)
  }

  /**
   * The option list `Column.Constraints` builds, given the mapper's
   * auto-increment text: DEFAULT and its literal, the auto-increment text,
   * NOT NULL, PRIMARY KEY, UNIQUE, each only when its setting is on.
   */
  function ConstraintOptions(autoIncrement: string, c: ColumnValue): seq<string>
  {
    (if c.defaultVal != "" then ["DEFAULT", c.defaultVal] else [])
    + (if c.isAutoIncrement then [autoIncrement] else [])
    + (if c.isNotNull then ["NOT NULL"] else [])
    + (if c.isPrimaryKey then ["PRIMARY KEY"] else [])
    + (if c.isUnique then ["UNIQUE"] else [])
  }

  function Constraints(autoIncrement: string, c: ColumnValue): string
  {
    Text.Join(ConstraintOptions(autoIncrement, c), " ")
  }

  /**
   * `Column.ToSQL`: quoted name, type and constraints separated by single
   * spaces. It fails exactly when the type switch panics, and the column's
   * name can be read back from the front of the declaration.
   */
  function ColumnSQL(d: Dialect, c: ColumnValue): (r: Result<string, Error>)
    ensures r.Success? <==> IsSupported(c.typ)
    ensures r.Success? ==> Text.ReadQuoted(QuoteChar(d), r.value).Some?
    ensures r.Success? ==> Text.ReadQuoted(QuoteChar(d), r.value).value.0 == c.name
  {
    var dt :- ColumnDataType(d, c);
    var rest := " " + dt + " " + Constraints(AutoIncrement(d), c);
    Text.ReadQuotedOfQuote(QuoteChar(d), c.name, rest);
    Success(Quote(d, c.name) + rest)
  }

  /** The declaration laid out piece by piece: quoted name, space, type, space, constraint clause. */
  lemma ColumnLayout(d: Dialect, c: ColumnValue, dt: string)
    requires ColumnDataType(d, c) == Success(dt)
    ensures ColumnSQL(d, c) == Success(Quote(d, c.name) + (" " + dt + " " + Constraints(AutoIncrement(d), c)))
  {
  }

  /** Two columns whose declarations render equal in dialects quoting alike have the same name. */
  lemma SameDeclarationSameName(d1: Dialect, a: ColumnValue, d2: Dialect, b: ColumnValue)
    requires QuoteChar(d1) == QuoteChar(d2)
    requires ColumnSQL(d1, a).Success? && ColumnSQL(d1, a) == ColumnSQL(d2, b)
    ensures a.name == b.name
  {
  }

  /** With every setting on, the clauses come in the fixed order DEFAULT, auto-increment, NOT NULL, PRIMARY KEY, UNIQUE. */
  lemma ConstraintOrder(autoIncrement: string, c: ColumnValue)
    requires c.defaultVal != "" && c.isAutoIncrement && c.isNotNull && c.isPrimaryKey && c.isUnique
    ensures Constraints(autoIncrement, c)
         == "DEFAULT " + (c.defaultVal + (" " + (autoIncrement + " NOT NULL PRIMARY KEY UNIQUE")))
  {
    var fixed := ["NOT NULL", "PRIMARY KEY", "UNIQUE"];
    var s2 := [autoIncrement] + fixed;
    var s1 := [c.defaultVal] + s2;
    AllOptionsSet(autoIncrement, c);
    FixedClausesJoined();
    Text.JoinCons(autoIncrement, fixed, " ");
    Text.JoinCons(c.defaultVal, s2, " ");
    Text.JoinCons("DEFAULT", s1, " ");
  }

  lemma AllOptionsSet(autoIncrement: string, c: ColumnValue)
    requires c.defaultVal != "" && c.isAutoIncrement && c.isNotNull && c.isPrimaryKey && c.isUnique
    ensures ConstraintOptions(autoIncrement, c)
         == ["DEFAULT"] + ([c.defaultVal] + ([autoIncrement] + ["NOT NULL", "PRIMARY KEY", "UNIQUE"]))
  {
  }

  lemma FixedClausesJoined()
    ensures Text.Join(["NOT NULL", "PRIMARY KEY", "UNIQUE"], " ") == "NOT NULL PRIMARY KEY UNIQUE"
  {
    var s5 := ["UNIQUE"];
    var s4 := ["PRIMARY KEY"] + s5;
    Text.JoinCons("PRIMARY KEY", s5, " ");
    Text.JoinCons("NOT NULL", s4, " ");
    assert ["NOT NULL"] + s4 == ["NOT NULL", "PRIMARY KEY", "UNIQUE"];
  }

  /**
   * An empty auto-increment text is still a list element: it adds one space
   * where it stands, after the DEFAULT clause when there is one and in front
   * of the remaining clauses (Postgres's `BIGSERIAL  NOT NULL`), and nothing
   * when it is the only option.
   */
  lemma EmptyAutoIncrementAddsOneSpace(c: ColumnValue)
    requires c.isAutoIncrement
    ensures var tail := Constraints("", c.(isAutoIncrement := false, defaultVal := ""));
            var rest := if tail == "" then "" else " " + tail;
            c.defaultVal == "" ==> Constraints("", c) == rest && Constraints("", c.(isAutoIncrement := false)) == tail
    ensures var tail := Constraints("", c.(isAutoIncrement := false, defaultVal := ""));
            var rest := if tail == "" then "" else " " + tail;
            c.defaultVal != "" ==>
              Constraints("", c) == "DEFAULT" + " " + c.defaultVal + " " + rest &&
              Constraints("", c.(isAutoIncrement := false)) == "DEFAULT" + " " + c.defaultVal + rest
  {
    if c.defaultVal == "" {
      EmptyAutoIncrementLeads(c);
    } else {
      EmptyAutoIncrementAfterDefault(c);
    }
  }

  /** Without a DEFAULT clause the empty keyword comes first and leaves one leading space. */
  lemma EmptyAutoIncrementLeads(c: ColumnValue)
    requires c.isAutoIncrement && c.defaultVal == ""
    ensures var tail := Constraints("", c.(isAutoIncrement := false));
            Constraints("", c) == if tail == "" then "" else " " + tail
  {
    var r := ConstraintOptions("", c.(isAutoIncrement := false));
    EmptyFirstPart(r);
    assert ConstraintOptions("", c) == [""] + r;
  }

  /** After a DEFAULT clause the empty keyword adds one space between the clause and the rest. */
  lemma EmptyAutoIncrementAfterDefault(c: ColumnValue)
    requires c.isAutoIncrement && c.defaultVal != ""
    ensures var tail := Constraints("", c.(isAutoIncrement := false, defaultVal := ""));
            var rest := if tail == "" then "" else " " + tail;
            Constraints("", c) == "DEFAULT" + " " + c.defaultVal + " " + rest &&
            Constraints("", c.(isAutoIncrement := false)) == "DEFAULT" + " " + c.defaultVal + rest
  {
    var r := ConstraintOptions("", c.(isAutoIncrement := false, defaultVal := ""));
    EmptyFirstPart(r);
    DefaultLeads("", c);
    DefaultLeads("", c.(isAutoIncrement := false));
    assert ConstraintOptions("", c.(defaultVal := "")) == [""] + r;
    assert c.(isAutoIncrement := false).(defaultVal := "") == c.(isAutoIncrement := false, defaultVal := "");
    PairBeforeOptions("DEFAULT", c.defaultVal, r);
  }

  /** A DEFAULT clause is the first pair of options, ahead of those of the column without it. */
  lemma DefaultLeads(a: string, c: ColumnValue)
    requires c.defaultVal != ""
    ensures ConstraintOptions(a, c) == ["DEFAULT", c.defaultVal] + ConstraintOptions(a, c.(defaultVal := ""))
  {
  }

  /** Two options in front of a list whose own join is `Join([""] + r)` or `Join(r)`. */
  lemma PairBeforeOptions(k: string, v: string, r: seq<string>)
    requires r == [] || r[0] in {"NOT NULL", "PRIMARY KEY", "UNIQUE"}
    ensures var tail := Text.Join(r, " ");
            var rest := if tail == "" then "" else " " + tail;
            Text.Join([k, v] + ([""] + r), " ") == k + " " + v + " " + rest &&
            Text.Join([k, v] + r, " ") == k + " " + v + rest
  {
    var tail := Text.Join(r, " ");
    var rest := if tail == "" then "" else " " + tail;
    EmptyFirstPart(r);
    assert [k, v] + ([""] + r) == [k] + ([v] + ([""] + r));
    TwoOptionsFirst(k, v, [""] + r);
    if r == [] {
      assert [k, v] + r == [k] + [v];
      Text.JoinCons(k, [v], " ");
    } else {
      assert [k, v] + r == [k] + ([v] + r);
      TwoOptionsFirst(k, v, r);
      Regroup(k + " " + v, " ", tail);
    }
  }

  /** The clauses after DEFAULT: an empty first element leaves one space before the rest, or nothing alone. */
  lemma EmptyFirstPart(r: seq<string>)
    requires r == [] || r[0] in {"NOT NULL", "PRIMARY KEY", "UNIQUE"}
    ensures var tail := Text.Join(r, " ");
            (r == [] <==> tail == "") &&
            Text.Join([""] + r, " ") == if tail == "" then "" else " " + tail
  {
    if r != [] {
      JoinStartsWithFirst(r, " ");
      Text.JoinCons("", r, " ");
      assert "" + " " + Text.Join(r, " ") == " " + Text.Join(r, " ");
    }
  }

  /** Two leading options followed by further ones, all space-separated. */
  lemma TwoOptionsFirst(k: string, v: string, xs: seq<string>)
    requires |xs| > 0
    ensures Text.Join([k] + ([v] + xs), " ") == k + " " + v + " " + Text.Join(xs, " ")
  {
    var j := Text.Join(xs, " ");
    Text.JoinCons(v, xs, " ");
    Text.JoinCons(k, [v] + xs, " ");
    Regroup(k, " ", v + " " + j);
    Regroup(v, " ", j);
    Regroup(" ", v, " " + j);
    Regroup(k, " " + v, " " + j);
    Regroup(k, " ", v);
    Regroup(k + " " + v, " ", j);
  }

  lemma {:induction false} JoinStartsWithFirst(parts: seq<string>, sep: string)
    requires |parts| > 0
    ensures |Text.Join(parts, sep)| >= |parts[0]|
    ensures Text.Join(parts, sep)[..|parts[0]|] == parts[0]
  {
    if |parts| > 1 {
      assert Text.Join(parts, sep) == parts[0] + (sep + Text.Join(parts[1..], sep));
    }
  }

  /** A column with no constraint clause renders with a trailing space. */
  lemma NoConstraintsTrailingSpace(d: Dialect, c: ColumnValue)
    requires IsSupported(c.typ) && ConstraintOptions(AutoIncrement(d), c) == []
    ensures var s := ColumnSQL(d, c).value; s[|s| - 1] == ' '
  {
  }

  // ---------------------------------------------------------------------------
  // Index rendering
  // ---------------------------------------------------------------------------

  /** `quoteAll`: every name quoted, in order. */
  function QuotedNames(d: Dialect, names: seq<string>): (r: seq<string>)
    ensures r == Text.QuoteEach(QuoteChar(d), names)
  {
    seq(|names|, i requires 0 <= i < |names| => Quote(d, names[i]))
  }

  /** Everything of `Index.ToSQL` before the column list; it says UNIQUE exactly for a unique index. */
  function IndexHead(d: Dialect, tableName: string, idx: IndexValue): (r: string)
    ensures |r| > 20 && (idx.isUnique <==> r[..20] == "CREATE UNIQUE INDEX ")
  {
    var tail := Quote(d, idx.name) + " ON " + Quote(d, tableName) + " (";
    var lead := if idx.isUnique then "CREATE UNIQUE INDEX " else "CREATE INDEX ";
    assert (lead + tail)[..20][7] == lead[7];
    lead + tail
  }

  /** The comma-separated quoted column names and the closing parenthesis. */
  function IndexColumnList(d: Dialect, idx: IndexValue): string
  {
    Text.Join(QuotedNames(d, idx.columnNames), ",") + ")"
  }

  /** `Index.ToSQL`: the statement says UNIQUE exactly for a unique index. */
  function IndexSQL(d: Dialect, tableName: string, idx: IndexValue): (r: string)
    ensures |r| > 20 && (idx.isUnique <==> r[..20] == "CREATE UNIQUE INDEX ")
  {
    var head := IndexHead(d, tableName, idx);
    assert (head + IndexColumnList(d, idx))[..20] == head[..20];
    head + IndexColumnList(d, idx)
  }

  /** The index statement laid out piece by piece, as `Index.ToSQL` formats it. */
  lemma IndexLayout(d: Dialect, tableName: string, idx: IndexValue)
    ensures var lead := if idx.isUnique then "CREATE UNIQUE INDEX " else "CREATE INDEX ";
            IndexSQL(d, tableName, idx)
            == lead + Quote(d, idx.name) + " ON " + Quote(d, tableName) + " ("
               + Text.Join(QuotedNames(d, idx.columnNames), ",") + ")"
  {
    var lead := if idx.isUnique then "CREATE UNIQUE INDEX " else "CREATE INDEX ";
    var qi, qt, cols := Quote(d, idx.name), Quote(d, tableName), Text.Join(QuotedNames(d, idx.columnNames), ",");
    assert IndexHead(d, tableName, idx) == lead + (qi + " ON " + qt + " (");
    Regroup(lead, qi, " ON ");
    Regroup(lead, qi + " ON ", qt);
    Regroup(lead, qi + " ON " + qt, " (");
    Regroup(lead + (qi + " ON " + qt + " ("), cols, ")");
  }

  /** Regrouping a concatenation of three pieces. */
  lemma Regroup(a: string, b: string, c: string)
    ensures a + b + c == a + (b + c)
  {
  }

  /** The parenthesised list of an index statement reads back as the index's columns, in declared order. */
  lemma IndexColumnsReadBack(d: Dialect, tableName: string, idx: IndexValue)
    requires |idx.columnNames| > 0
    ensures var r := IndexSQL(d, tableName, idx);
            Text.ReadQuotedList(QuoteChar(d), r[|IndexHead(d, tableName, idx)|..]) == Some((idx.columnNames, ")"))
  {
    var head := IndexHead(d, tableName, idx);
    Text.ReadQuotedListOfJoin(QuoteChar(d), idx.columnNames, ")");
    assert IndexSQL(d, tableName, idx)[|head|..] == IndexColumnList(d, idx);
  }

  // ---------------------------------------------------------------------------
  // Table rendering
  // ---------------------------------------------------------------------------

  /** The position of the first column whose kind is unsupported. */
  function FirstUnsupported(cols: seq<ColumnValue>): (i: nat)
    requires !AllSupported(cols)
    ensures i < |cols| && !IsSupported(cols[i].typ)
    ensures forall j :: 0 <= j < i ==> IsSupported(cols[j].typ)
  {
    if !IsSupported(cols[0].typ) then 0
    else
      assert !AllSupported(cols[1..]) by {
        var k :| 0 <= k < |cols| && !IsSupported(cols[k].typ);
        assert cols[1..][k - 1] == cols[k];
      }
      1 + FirstUnsupported(cols[1..])
  }

  /**
   * Every column's declaration, in column order. Rendering stops at the first
   * column whose kind is unsupported, with that column's failure.
   */
  function ColumnSQLs(d: Dialect, cols: seq<ColumnValue>): Result<seq<string>, Error>
  {
    if AllSupported(cols) then
      Success(seq(|cols|, i requires 0 <= i < |cols| => ColumnSQL(d, cols[i]).value))
    else
      Failure(ColumnSQL(d, cols[FirstUnsupported(cols)]).error)
  }

  /** The quoted table name, the parenthesised column declarations and the dialect's suffix. */
  function TableDefinition(t: TableValue, cols: seq<string>): string
  {
    Quote(t.dialect, t.name) + "(\n" + Text.Join(cols, ",\n") + "\n)" + CreateTableSuffix(t.dialect)
  }

  /** `createTableSQL`. */
  function CreateTableSQL(t: TableValue, ifNotExists: bool): Result<string, Error>
  {
    var cols :- ColumnSQLs(t.dialect, t.columns);
    Success("CREATE TABLE " + (if ifNotExists then "IF NOT EXISTS " else "") + TableDefinition(t, cols))
  }

  /** `CreateIndexSQLs`: one statement per index, in declared order. */
  function IndexSQLs(t: TableValue): seq<string>
  {
    seq(|t.indices|, i requires 0 <= i < |t.indices| => IndexSQL(t.dialect, t.name, t.indices[i]))
  }

  /** `Table.String`: the IF NOT EXISTS statement and the index statements. */
  function TableString(t: TableValue): Result<string, Error>
  {
    var ddl :- CreateTableSQL(t, true);
    Success(ddl + ";\n" + Text.Join(IndexSQLs(t), ";\n") + ";\n")
  }

  /** Rendering reports the first column whose kind is unsupported, whatever follows it. */
  lemma FirstFailureReported(d: Dialect, cols: seq<ColumnValue>, i: nat)
    requires i < |cols| && !IsSupported(cols[i].typ)
    requires forall k :: 0 <= k < i ==> IsSupported(cols[k].typ)
    ensures ColumnSQLs(d, cols) == Failure(ColumnSQL(d, cols[i]).error)
  {
    assert FirstUnsupported(cols) == i;
  }

  /** The CREATE TABLE text laid out piece by piece, as `createTableSQL` formats it. */
  lemma CreateTableLayout(t: TableValue, ifNotExists: bool, defs: seq<string>)
    requires AllSupported(t.columns) && defs == ColumnSQLs(t.dialect, t.columns).value
    ensures var clause := if ifNotExists then "IF NOT EXISTS " else "";
            CreateTableSQL(t, ifNotExists)
            == Success("CREATE TABLE " + clause + Quote(t.dialect, t.name) + "(\n" + Text.Join(defs, ",\n") + "\n)"
                       + CreateTableSuffix(t.dialect))
  {
    var clause := if ifNotExists then "IF NOT EXISTS " else "";
    var q, body, suffix := Quote(t.dialect, t.name), Text.Join(defs, ",\n"), CreateTableSuffix(t.dialect);
    var p := "CREATE TABLE " + clause;
    Regroup(p, q, "(\n");
    Regroup(p, q + "(\n", body);
    Regroup(p, q + "(\n" + body, "\n)");
    Regroup(p, q + "(\n" + body + "\n)", suffix);
  }

  /** The table text laid out piece by piece, as `Table.String` formats it. */
  lemma TableStringLayout(t: TableValue, ddl: string)
    requires CreateTableSQL(t, true) == Success(ddl)
    ensures TableString(t) == Success(ddl + ";\n" + Text.Join(IndexSQLs(t), ";\n") + ";\n")
  {
  }

  /** Rendering fails exactly when some column's kind is unsupported. */
  lemma RenderingFailsOnlyOnUnsupported(t: TableValue, ifNotExists: bool)
    ensures CreateTableSQL(t, ifNotExists).Success? <==> AllSupported(t.columns)
    ensures TableString(t).Success? <==> AllSupported(t.columns)
  {
  }

  /**
   * `Table.String` terminates the CREATE TABLE statement and every index
   * statement with `;\n`; with no index the text ends in an extra lone `;\n`.
   */
  lemma EveryStatementTerminated(t: TableValue)
    requires AllSupported(t.columns)
    ensures var ddl := CreateTableSQL(t, true).value;
            TableString(t).value
            == if |t.indices| == 0 then ddl + ";\n;\n"
               else ddl + ";\n" + Text.Terminated(IndexSQLs(t), ";\n")
  {
    var ddl := CreateTableSQL(t, true).value;
    assert TableString(t).value == ddl + ";\n" + Text.Join(IndexSQLs(t), ";\n") + ";\n";
    StatementsTerminated(ddl, IndexSQLs(t));
  }

  /** The layout of `Table.String` for any statement text and any index statements. */
  lemma StatementsTerminated(ddl: string, idx: seq<string>)
    ensures ddl + ";\n" + Text.Join(idx, ";\n") + ";\n"
            == if |idx| == 0 then ddl + ";\n;\n" else ddl + ";\n" + Text.Terminated(idx, ";\n")
  {
    if |idx| > 0 {
      Text.JoinThenTerminator(idx, ";\n");
    }
  }

  /** The IF NOT EXISTS form differs from the plain one only by that clause after CREATE TABLE. */
  lemma IfNotExistsOnlyAddsClause(t: TableValue)
    requires AllSupported(t.columns)
    ensures var plain := CreateTableSQL(t, false).value;
            |plain| >= 13 && CreateTableSQL(t, true).value == plain[..13] + "IF NOT EXISTS " + plain[13..]
  {
    var def := TableDefinition(t, ColumnSQLs(t.dialect, t.columns).value);
    assert CreateTableSQL(t, false).value == "CREATE TABLE " + "" + def;
    assert CreateTableSQL(t, true).value == "CREATE TABLE " + "IF NOT EXISTS " + def;
    ClauseAfterKeyword(def);
  }

  /** Inserting the clause after the keyword, for any table definition text. */
  lemma ClauseAfterKeyword(def: string)
    ensures var plain := "CREATE TABLE " + "" + def;
            |plain| >= 13 && "CREATE TABLE " + "IF NOT EXISTS " + def == plain[..13] + "IF NOT EXISTS " + plain[13..]
  {
    var plain := "CREATE TABLE " + "" + def;
    assert plain[..13] == "CREATE TABLE " && plain[13..] == def;
  }
}
