# schemabuilder in Dafny

A model of the core of `schemabuilder`, a Go library that produces SQL DDL
text from table definitions. It covers:

- the three dialect strategies: Postgres, MySQL and SQLite3. Each one quotes
  identifiers, maps a Go value kind and a size hint to a column type, and
  supplies an auto-increment keyword and a CREATE TABLE suffix;
- the column, index and table objects and their rendering: a column
  declaration, `CREATE INDEX`, `CREATE TABLE [IF NOT EXISTS]`, and
  `Table.String`;
- the migration differ: version lookup and the `ALTER TABLE` text that turns
  one version of a table into another.

The modules follow the source files:

| module | file | form |
|---|---|---|
| `GoTypes` | the value kinds the type switches test | datatypes |
| `Text` | `strings.Replace`, `strings.Join` and `%d`, used for quoting, joining and sizes | functions, lemmas |
| `PostgresDialect`, `MySQLDialect`, `SQLite3Dialect` | `dialect_postgres.go`, `dialect_mysql.go`, `dialect_sqlite3.go` | functions, lemmas |
| `Dialects` | `dialect.go`: the `Dialect` and `ColumnMapper` interfaces as one datatype | functions, lemmas |
| `Schema` | `schemabuilder.go`: the rendering of column, index and table values | functions, lemmas |
| `Migration` | `schemabuilder.go`: `lookupVersion` and `MigrateSQL` on values | functions, lemmas |
| `SchemaBuilder` | `schemabuilder.go`: the `Column`, `Index` and `Table` objects | classes, methods with loops |
| `Scenarios` | `schemabuilder_test.go`: the `people` column declarations | lemmas |

The Go objects become Dafny classes:

- Setters and `AddColumn`/`AddIndex`/`AddHistoryTable` update fields in place.
- Rendering and diffing are methods with the Go loops, and each is proved
  equal to a function on a value snapshot of the objects (`Table.Snapshot`).
- The properties are proved about those functions.

A Go panic on an unsupported value kind becomes a
`Failure(UnsupportedType(dialect, kind))` result. It propagates through
every rendering operation, as the panic would. `MigrateSQL`'s two errors
become `Failure(VersionNotFound(From | To, label))`.

The model renders what the code renders, including two slips listed under
"## Findings": the MySQL mapper's `AUTO_INCREAMENT` keyword
(`dialect_mysql.go:100-102`), and a MODIFY that restates the FROM column's
declaration (`schemabuilder.go:70-72`). The corrected behaviours are stated
beside them (`MySQLDialect.AutoIncrement`, `Migration.AlterModifySQL`,
`Migration.FromStepIntended`).

Other behaviours the model keeps as the code has them:

- An auto-increment column in Postgres renders as `BIGSERIAL  NOT NULL` with
  two spaces. The Postgres keyword is empty (`dialect_postgres.go:113-115`)
  and is still joined into the clause list (`schemabuilder.go:128-130`), as
  the expected text at `schemabuilder_test.go:130` shows.
- Migrating `TestTable` from `v1` to `current` (`v3`) drops `c`, modifies `a`
  and adds `d`, because `v1` has no column `d`.
- Column names, index names and version labels are not checked for
  uniqueness. The name maps keep the newest entry while the slices keep
  both, and `lookupVersion` takes the first history with the label. Unique
  column names and supported kinds are enough for a version to diff to
  nothing against itself (`Migration.SelfDiffEmpty`). Unique names are not
  needed for the weaker result that a self-diff never
  drops or adds, and it emits a MODIFY only for a column whose name a
  differently rendered column shares (`Migration.SelfDiffOnlyModifies`).

## Model

| member | source | states |
|---|---|---|
| Text.Escape | dialect_postgres.go:17 | doubling the quote character adds one character per occurrence, so the count of quotes doubles |
| Text.Quote | dialect_mysql.go:19-21 | the quoted identifier starts and ends with the quote character and is longer by the doubled quotes plus two |
| Text.QuoteRoundTrip | dialect_postgres.go:16-18 | un-doubling the interior of a quoted identifier gives back the identifier, for any identifier |
| Text.UnquoteSound | dialect_sqlite3.go:16-18 | whatever reads as one quoted identifier is the quoting of what it reads as (converse of the round trip) |
| Text.QuoteInjective | dialect_mysql.go:19-21 | distinct identifiers never quote to the same text |
| Text.ReadQuotedListOfJoin | schemabuilder.go:159-167 | a non-empty comma-joined list of quoted names reads back as the same names in order |
| Text.NatToString | dialect_mysql.go:93 | `%d` of a size is a non-empty digit string without a leading zero |
| Text.NatToStringRoundTrip | dialect_mysql.go:93 | the digits `%d` prints denote the number printed |
| Text.ParseSizedType | dialect_postgres.go:106 | `NAME(%d)` reads back as the size it was given |
| Text.JoinSnoc | schemabuilder.go:254 | joining one more part appends the separator and the part |
| Text.JoinThenTerminator | schemabuilder.go:277 | joining by `;\n` and appending `;\n` terminates every part |
| PostgresDialect.Quote | dialect_postgres.go:16-18 | double-quote quoting, which unquotes back to the name |
| PostgresDialect.CreateTableSuffix | dialect_postgres.go:20-22 | no CREATE TABLE suffix; `Dialects.SuffixOnlyForMySQL` states it for the dialect |
| PostgresDialect.Smallint | dialect_postgres.go:80-85 | SMALLINT, or SMALLSERIAL under auto-increment; 16 bits by `PostgresDialect.IntegerTypeByWidth` |
| PostgresDialect.Integer | dialect_postgres.go:87-92 | INTEGER, or SERIAL under auto-increment; 32 bits by `PostgresDialect.IntegerTypeByWidth` |
| PostgresDialect.Bigint | dialect_postgres.go:94-99 | BIGINT, or BIGSERIAL under auto-increment; 64 bits by `PostgresDialect.IntegerTypeByWidth` |
| PostgresDialect.Varchar | dialect_postgres.go:101-111 | the string type for a size hint; its bounds and cutoffs are `PostgresDialect.VarcharBound` and `PostgresDialect.ThresholdEdges` |
| PostgresDialect.BitVarying | dialect_postgres.go:58-67 | the `[]byte` type for a size hint; its bounds are `PostgresDialect.BitVaryingBound` |
| PostgresDialect.AutoIncrement | dialect_postgres.go:113-115 | the empty keyword; `Dialects.AutoIncrementExpressedOnce` and `Schema.EmptyAutoIncrementAddsOneSpace` state its effect |
| PostgresDialect.DataType | dialect_postgres.go:36-78 | a type for exactly the listed kinds, a non-empty name, and the Postgres panic otherwise |
| PostgresDialect.VarcharBound | dialect_postgres.go:101-111 | the VARCHAR bound `varchar` declares is the size hint (255 when 0) below 65533, and TEXT from 65533 on |
| PostgresDialect.BitVaryingBound | dialect_postgres.go:58-67 | the BIT VARYING bound the `[]byte` switch declares is the size hint (255 when 0) below 65533, and BYTEA from 65533 on |
| PostgresDialect.AutoIncrementFoldedIntoType | dialect_postgres.go:42-53 | auto-increment turns each integer type into its SERIAL variant and leaves every other type alone |
| PostgresDialect.SizeOnlyForStringsAndBytes | dialect_postgres.go:36-78 | only string and `[]byte` kinds depend on the size hint |
| PostgresDialect.IntegerTypeByWidth | dialect_postgres.go:42-53 | each fixed-width integer kind gets the narrowest 16-, 32- or 64-bit type at least as wide (8-bit kinds get 16 bits), plain or serial; `int` and `uint`, as wide as the platform's word, get the 32-bit one |
| PostgresDialect.FixedKindTypes | dialect_postgres.go:36-78 | booleans are BOOLEAN, times TIMESTAMP WITH TIME ZONE, 32-bit floats REAL and 64-bit floats DOUBLE PRECISION |
| PostgresDialect.StringAndBytesTypes | dialect_postgres.go:54-67 | `string`, `*string` and `sql.NullString` get `varchar(size)`, and `[]byte` gets `bitVarying(size)` |
| PostgresDialect.StringAndBytesBounds | dialect_postgres.go:54-67 | a string or `[]byte` column declares the size hint (255 when 0) as its bound below 65533, and no bound from there on |
| PostgresDialect.ThresholdEdges | dialect_postgres.go:101-111 | the type names on both sides of the 64KB and 16MB cutoffs |
| MySQLDialect.Quote | dialect_mysql.go:19-21 | backtick quoting, which unquotes back to the name |
| MySQLDialect.CreateTableSuffix | dialect_mysql.go:23-32 | the space-led ENGINE and DEFAULT CHARACTER SET suffix whose shape `MySQLDialect.CreateTableSuffixShape` states |
| MySQLDialect.Varchar | dialect_mysql.go:88-98 | the string type for a size hint; its bounds and cutoffs are `MySQLDialect.VarcharBound` and `MySQLDialect.ThresholdEdges` |
| MySQLDialect.Varbinary | dialect_mysql.go:68-77 | the `[]byte` type for a size hint; its bounds are `MySQLDialect.VarbinaryBound` |
| MySQLDialect.AutoIncrementAsWritten | dialect_mysql.go:100-102 | the keyword as the mapper spells it; `MySQLDialect.AutoIncrementMisspelled` relates it to the corrected one |
| MySQLDialect.AutoIncrement | dialect_mysql.go:100-102 | the corrected keyword AUTO_INCREMENT; `Scenarios.IdInMySQLAsWritten` shows it gives the clause the test expects |
| MySQLDialect.CreateTableSuffixShape | dialect_mysql.go:23-32 | the suffix is a space followed by ENGINE then DEFAULT CHARACTER SET, each only when set; a lone space when neither is set |
| MySQLDialect.DataType | dialect_mysql.go:46-86 | a type for exactly the listed kinds, a non-empty name, and the MySQL panic otherwise |
| MySQLDialect.VarcharBound | dialect_mysql.go:88-98 | VARCHAR bound by the size hint (255 when 0) below 65533, MEDIUMTEXT below 16MB, LONGTEXT from 16MB on |
| MySQLDialect.VarbinaryBound | dialect_mysql.go:68-77 | VARBINARY bound by the size hint (255 when 0) below 65533, MEDIUMBLOB below 16MB, LONGBLOB from 16MB on |
| MySQLDialect.IntegerByWidth | dialect_mysql.go:52-63 | whatever the size hint, each fixed-width integer kind gets the narrowest of SMALLINT, INT and BIGINT at least as wide (8-bit kinds get SMALLINT); `int` and `uint`, as wide as the platform's word, get the 32-bit INT |
| MySQLDialect.FixedKindTypes | dialect_mysql.go:46-86 | booleans are BOOLEAN, times DATETIME, and floats of either width DOUBLE |
| MySQLDialect.StringAndBytesTypes | dialect_mysql.go:64-77 | `string`, `*string` and `sql.NullString` get `varchar(size)`, and `[]byte` gets VARBINARY by the size |
| MySQLDialect.StringAndBytesBounds | dialect_mysql.go:64-77 | a string or `[]byte` column declares the size hint (255 when 0) as its bound below 65533, and no bound from there on |
| MySQLDialect.SizeOnlyForStringsAndBytes | dialect_mysql.go:46-86 | only string and `[]byte` kinds depend on the size hint |
| MySQLDialect.ThresholdEdges | dialect_mysql.go:68-98 | the type names on both sides of the 64KB and 16MB cutoffs |
| MySQLDialect.AutoIncrementMisspelled | dialect_mysql.go:100-102 | the keyword as written is AUTO_INCREMENT with a stray `A` inserted at position 10 |
| SQLite3Dialect.Quote | dialect_sqlite3.go:16-18 | double-quote quoting, which unquotes back to the name |
| SQLite3Dialect.CreateTableSuffix | dialect_sqlite3.go:24-26 | no CREATE TABLE suffix; `Dialects.SuffixOnlyForMySQL` states it for the dialect |
| SQLite3Dialect.AutoIncrement | dialect_sqlite3.go:62-64 | the keyword AUTOINCREMENT; `Scenarios.IdInSQLite3` shows it in a declaration |
| SQLite3Dialect.DataType | dialect_sqlite3.go:36-60 | a type for exactly the listed kinds, a non-empty name, and the SQLite3 panic otherwise |
| SQLite3Dialect.KindAlone | dialect_sqlite3.go:36-60 | the type depends on the kind alone, not on auto-increment or size |
| SQLite3Dialect.FixedKindTypes | dialect_sqlite3.go:36-60 | booleans are `boolean`, times `datetime`, and floats of either width `real` |
| SQLite3Dialect.StringAndBytesTypes | dialect_sqlite3.go:46-51 | string kinds are `text` and `[]byte` is `blob`, whatever the size hint |
| SQLite3Dialect.IntegersShareOneType | dialect_sqlite3.go:42-45 | every integer kind is `integer` |
| Dialects.Quote | dialect.go:3-7 | every dialect's quoting is the shared quote-and-double scheme with its own character, and round-trips |
| Dialects.DataType | dialect.go:9-13 | the mapper succeeds exactly on the supported kinds, with a non-empty type |
| Dialects.CreateTableSuffix | dialect.go:5 | each dialect's suffix; `Dialects.SuffixOnlyForMySQL` states which is non-empty |
| Dialects.AutoIncrement | dialect.go:11 | each mapper's keyword, MySQL's as spelled; `Dialects.AutoIncrementExpressedOnce` states which is empty |
| Dialects.SuffixOnlyForMySQL | dialect.go:5 | only MySQL has a CREATE TABLE suffix, and it starts with a space |
| Dialects.AutoIncrementExpressedOnce | dialect_postgres.go:113-115 | a dialect has an empty keyword exactly when auto-increment changes its integer type (Postgres only) |
| Dialects.AutoIncrementOnlyTouchesIntegers | dialect.go:10 | outside the integer kinds, auto-increment never changes the type in any dialect |
| Dialects.SizeOnlyForStringsAndBytes | dialect.go:10 | in every dialect only string and `[]byte` kinds look at the size hint |
| Dialects.IntegerWidthsAgree | dialect_mysql.go:52-63 | Postgres and MySQL pick the same integer width (INT for INTEGER), and SQLite3 uses one integer type |
| Schema.LastNamed | schemabuilder.go:280-282 | the last position holding a name, and none exactly when the name is absent |
| Schema.LastNamedUnique | schemabuilder.go:280-282 | without repeated names, a name's last position is its only one |
| Schema.GetColumn | schemabuilder.go:280-282 | a lookup on a snapshot finds a column of that name, and none exactly when no column has the name |
| Schema.IsNullMarker | schemabuilder.go:74-85 | the kinds `As` makes nullable; `SchemaBuilder.Column.As` states the effect |
| Schema.ConstraintOptions | schemabuilder.go:121-141 | the option list in fixed order; `Schema.ConstraintOrder` states the order with every setting on |
| Schema.Constraints | schemabuilder.go:121-141 | the options joined by spaces; `Schema.EmptyAutoIncrementAddsOneSpace` states what an empty keyword does |
| Schema.ColumnSQL | schemabuilder.go:111-114 | a declaration exists exactly for supported kinds, and the column name reads back from its front |
| Schema.ColumnDataType | schemabuilder.go:116-119 | the column's dialect type for its kind, auto-increment flag and size: a non-empty type, failing exactly on an unsupported kind |
| Schema.ColumnLayout | schemabuilder.go:111-114 | the declaration is the quoted name, a space, the type, a space and the constraint clause |
| Schema.SameDeclarationSameName | schemabuilder.go:56-58 | equal declarations in dialects quoting alike belong to same-named columns |
| Schema.ConstraintOrder | schemabuilder.go:121-141 | with every setting on, the clauses are DEFAULT, auto-increment, NOT NULL, PRIMARY KEY, UNIQUE, in that order |
| Schema.EmptyAutoIncrementAddsOneSpace | schemabuilder.go:128-130 | an empty auto-increment keyword adds exactly one space where it stands: after the DEFAULT clause when there is one, before the remaining clauses otherwise, and nothing when it is the only option |
| Schema.NoConstraintsTrailingSpace | schemabuilder.go:113 | a column with no clause renders with a trailing space after its type |
| Schema.IndexSQL | schemabuilder.go:150-160 | the statement says UNIQUE exactly for a unique index |
| Schema.IndexLayout | schemabuilder.go:150-160 | the index statement's layout: keyword, quoted name, ON, quoted table, parenthesised quoted columns |
| Schema.IndexColumnsReadBack | schemabuilder.go:159 | for a non-empty column list, the parenthesised list reads back as the index's columns in declared order |
| Schema.FirstUnsupported | schemabuilder.go:250-253 | the position of the first unsupported column, with every earlier column supported |
| Schema.FirstFailureReported | schemabuilder.go:250-253 | rendering reports the first unsupported column's failure, whatever follows |
| Schema.ColumnSQLs | schemabuilder.go:250-253 | every declaration, or the first unsupported column's failure, as `Schema.FirstFailureReported` states |
| Schema.CreateTableSQL | schemabuilder.go:242-260 | the CREATE TABLE text; `Schema.CreateTableLayout` and `Schema.IfNotExistsOnlyAddsClause` state its layout |
| Schema.IndexSQLs | schemabuilder.go:262-268 | each index statement in order; `Schema.IndexSQL` states each one |
| Schema.TableString | schemabuilder.go:274-278 | all statements terminated; `Schema.TableStringLayout` and `Schema.EveryStatementTerminated` state it |
| Schema.CreateTableLayout | schemabuilder.go:242-256 | CREATE TABLE, the optional clause, the quoted name, the `,\n`-joined declarations in parentheses, and the suffix |
| Schema.TableStringLayout | schemabuilder.go:274-278 | the IF NOT EXISTS statement, `;\n`, the `;\n`-joined index statements and a final `;\n` |
| Schema.RenderingFailsOnlyOnUnsupported | schemabuilder.go:242-278 | table rendering fails exactly when some column's kind is unsupported |
| Schema.EveryStatementTerminated | schemabuilder.go:274-278 | every statement ends in `;\n`, and a table without indices ends in an extra lone `;\n` |
| Schema.IfNotExistsOnlyAddsClause | schemabuilder.go:242-249 | the IF NOT EXISTS form is the plain one with the clause inserted after CREATE TABLE |
| Migration.FirstVersion | schemabuilder.go:334-338 | the first history carrying the label, with none before it, and none exactly when no history carries it |
| Migration.LookupVersion | schemabuilder.go:330-340 | the version a label names; `Migration.LookupVersionResolves` states its cases |
| Migration.LookupVersionResolves | schemabuilder.go:330-340 | "current" is always the live table; any other label resolves to a history carrying it, and to nothing exactly when none does |
| Migration.ColumnEquals | schemabuilder.go:56-58 | comparison succeeds exactly when both kinds are supported, and otherwise reports the first column's failure first |
| Migration.ColumnEqualsReflexiveSymmetric | schemabuilder.go:56-58 | every renderable column equals itself, and the comparison is symmetric |
| Migration.EqualColumnsShareName | schemabuilder.go:56-58 | equal columns in dialects quoting alike have the same name |
| Migration.AlterAddSQL | schemabuilder.go:60-62 | ADD followed by the declaration, whose name reads back; fails exactly on an unsupported kind |
| Migration.AlterDropSQL | schemabuilder.go:64-68 | DROP followed by the quoted name, which unquotes back to the column's name, for any kind |
| Migration.AlterModifySQLAsWritten | schemabuilder.go:70-72 | the as-written MODIFY carries the FROM column's own declaration |
| Migration.AlterModifySQL | schemabuilder.go:70-72 | the corrected MODIFY carries the TO column's declaration in the TO dialect |
| Migration.ModifyAsWrittenRestatesSource | schemabuilder.go:70-72 | whenever the differ emits MODIFY, the as-written statement differs from the one declaring the target |
| Migration.FromStep | schemabuilder.go:352-361 | one FROM column yields at most one DROP or MODIFY, and fails exactly when it or its TO counterpart cannot render; its MODIFY is the one `AlterModifySQL` builds as written |
| Migration.FromStepDropsMissing | schemabuilder.go:353-357 | a FROM column that TO lacks yields exactly its DROP |
| Migration.FromStepComparesPresent | schemabuilder.go:358-360 | a FROM column that TO has yields nothing when both declarations agree, and otherwise a MODIFY restating the FROM declaration |
| Migration.FromStepIntended | schemabuilder.go:352-361 | the corrected step: at most one DROP or MODIFY, failing exactly when FROM's step fails |
| Migration.FromStepIntendedDeclaresTarget | schemabuilder.go:358-360 | the corrected step equals the as-written one except on a modified column, where it declares the TO column and the as-written one restates the FROM column |
| Migration.FromStepStatement | schemabuilder.go:352-361 | what one FROM column emits is the DROP of a column TO lacks or the MODIFY of a column TO declares differently |
| Migration.FromStepModifies | schemabuilder.go:358-360 | a column TO declares differently yields exactly its MODIFY |
| Migration.FromOps | schemabuilder.go:352-362 | the first loop succeeds exactly when every FROM column is comparable |
| Migration.FromOpsShape | schemabuilder.go:352-362 | the first loop emits at most one statement per column, each a DROP or a MODIFY |
| Migration.FromOpsIncludesStep | schemabuilder.go:352-362 | every statement one FROM column's step emits is among the first loop's statements |
| Migration.FromOpsFromSteps | schemabuilder.go:352-362 | every statement of the first loop comes from the step of one of its columns |
| Migration.FromOpsModifiesChanged | schemabuilder.go:352-362 | every FROM column that TO declares differently gets its MODIFY |
| Migration.FromOpsDropsMissing | schemabuilder.go:352-362 | every FROM column whose name TO lacks is dropped |
| Migration.FromOpsStopsAtFailure | schemabuilder.go:352-362 | after the first failure, later columns do not change the result |
| Migration.FromOpsSnoc | schemabuilder.go:352-362 | one more FROM column appends its step's statements, or its error replaces the result |
| Migration.ToStep | schemabuilder.go:363-368 | a TO column yields its ADD when FROM lacks its name, and nothing otherwise |
| Migration.ToOps | schemabuilder.go:363-368 | the second loop succeeds exactly when every TO column missing from FROM renders |
| Migration.ToOpsShape | schemabuilder.go:363-368 | the second loop emits at most one statement per column, each an ADD |
| Migration.ToOpsAddsMissing | schemabuilder.go:363-368 | every TO column whose name FROM lacks is added |
| Migration.ToOpsFromSteps | schemabuilder.go:363-368 | every statement of the second loop comes from the step of one of its columns |
| Migration.ToOpsStopsAtFailure | schemabuilder.go:363-368 | after the first failure, later columns do not change the result |
| Migration.ToOpsSnoc | schemabuilder.go:363-368 | one more TO column appends its step's statements, or its error replaces the result |
| Migration.DiffOps | schemabuilder.go:352-368 | the two loops' statements in order; `Migration.DropsAndModifiesPrecedeAdds` and `Migration.DiffOpsExplained` state them |
| Migration.MigrateSQL | schemabuilder.go:342-373 | an unresolved FROM label is reported before TO; a result starts with `ALTER TABLE ` |
| Migration.MigrateSQLResolved | schemabuilder.go:352-372 | once both labels resolve: the header, then the DROP/MODIFY statements, then the ADD statements, or the first loop error |
| Migration.AlterTableText | schemabuilder.go:369-370 | the migration text starts with `ALTER TABLE ` |
| Migration.StatementKindsDisjoint | schemabuilder.go:60-72 | no statement is two of DROP, MODIFY and ADD |
| Migration.DropOrModifyIsNotAdd | schemabuilder.go:355-366 | a DROP or MODIFY statement is never an ADD statement |
| Migration.DropsAndModifiesPrecedeAdds | schemabuilder.go:352-368 | a statement is an ADD exactly when it follows every DROP/MODIFY; at most one statement per FROM column plus one per TO column |
| Migration.AddsAfterDropsAndModifies | schemabuilder.go:352-368 | in the concatenation of the two loops' statements, a position is an ADD exactly when it lies in the second part |
| Migration.MissingColumnsDroppedAndAdded | schemabuilder.go:352-368 | columns only in FROM are dropped and columns only in TO are added |
| Migration.ChangedColumnsModified | schemabuilder.go:352-362 | every FROM column whose TO counterpart renders differently gets a MODIFY restating its own declaration |
| Migration.DiffOpsExplained | schemabuilder.go:352-368 | the converse: every DROP names a FROM column TO lacks, every MODIFY a FROM column TO declares differently, every ADD a TO column FROM lacks |
| Migration.UnchangedFromOpsEmpty | schemabuilder.go:352-362 | against itself, the first loop emits nothing over columns with unique names |
| Migration.PresentToOpsEmpty | schemabuilder.go:363-368 | against itself, the second loop emits nothing |
| Migration.SelfDiffEmpty | schemabuilder.go:342-373 | diffing a version with unique names and renderable kinds against itself emits no statement |
| Migration.SelfDiffOnlyModifies | schemabuilder.go:342-373 | whatever the names, a self-diff emits only MODIFYs, each for a column whose name a differently rendered column, the one `GetColumn` finds, shares |
| Migration.SelfStepModifies | schemabuilder.go:352-361 | one column's step in a self-diff is such a MODIFY |
| SchemaBuilder.ByNameSnoc | schemabuilder.go:296 | writing one more element into the name map overrides its name's entry |
| SchemaBuilder.ByNameIsLast | schemabuilder.go:288-312 | the name map holds exactly the names that occur, each mapped to the last element with that name |
| SchemaBuilder.Column.constructor | schemabuilder.go:27-29 | a new column is NOT NULL, with no other setting, no kind and no table |
| SchemaBuilder.Column.As | schemabuilder.go:74-85 | sets the kind and clears NOT NULL for the `sql.Null*` kinds and pointers to integers, bool and string; nothing else changes |
| SchemaBuilder.Column.AutoIncrement | schemabuilder.go:87-90 | sets only the auto-increment flag |
| SchemaBuilder.Column.PrimaryKey | schemabuilder.go:91-94 | sets only the primary-key flag |
| SchemaBuilder.Column.Unique | schemabuilder.go:96-99 | sets only the unique flag |
| SchemaBuilder.Column.Default | schemabuilder.go:101-104 | sets only the default literal |
| SchemaBuilder.Column.Size | schemabuilder.go:106-109 | sets only the size hint |
| SchemaBuilder.Column.Constraints | schemabuilder.go:121-141 | the option list built step by step is the fixed-order constraint clause of the column's dialect, with that mapper's keyword as spelled (MySQL's `AUTO_INCREAMENT`) |
| SchemaBuilder.ColumnValuesSnoc | schemabuilder.go:297 | appending a column appends its settings |
| SchemaBuilder.ColumnKeys | schemabuilder.go:193 | the column map's keys are the snapshot's column names |
| SchemaBuilder.Index.constructor | schemabuilder.go:143-148 | a new index carries its name, uniqueness and columns, and no table |
| SchemaBuilder.Index.ToSQL | schemabuilder.go:150-160 | the statement built through the back-pointer is the index statement of the table's name and dialect |
| SchemaBuilder.QuoteAll | schemabuilder.go:162-168 | the loop fills every position with the quoted name |
| SchemaBuilder.Table.constructor | schemabuilder.go:238-240 | a new table has its name and dialect, no columns, indices, histories or version label, and consistent name maps |
| SchemaBuilder.Table.AddColumn | schemabuilder.go:288-299 | the column is appended, points back to the table, and is the map entry for its name; the maps stay consistent |
| SchemaBuilder.Table.AddIndex | schemabuilder.go:301-312 | the index is appended, points back to the table, and is the map entry for its name; the maps stay consistent |
| SchemaBuilder.Table.AddHistoryTable | schemabuilder.go:322-328 | the earlier version is appended to the histories |
| SchemaBuilder.Table.GetColumn | schemabuilder.go:280-282 | the map entry for a name; `SchemaBuilder.GetColumnIsNewest` states it is the newest such column |
| SchemaBuilder.Table.GetIndex | schemabuilder.go:284-286 | the map entry for a name; `SchemaBuilder.GetIndexIsNewest` states it is the newest such index |
| SchemaBuilder.Table.ColumnDefinitions | schemabuilder.go:250-253 | the loop's declarations are those of the snapshot, or the first unsupported column's failure |
| SchemaBuilder.Table.CreateTableSQL | schemabuilder.go:242-260 | the statement built from the prefix and the loop is the CREATE TABLE text of the snapshot |
| SchemaBuilder.Table.CreateIndexSQLs | schemabuilder.go:262-269 | the loop's statements are the snapshot's index statements, in order |
| SchemaBuilder.Table.String | schemabuilder.go:270-278 | the table text is that of the snapshot |
| SchemaBuilder.Table.LookupVersion | schemabuilder.go:330-340 | the object found is the one whose snapshot the value lookup resolves to; null exactly when it resolves to nothing |
| SchemaBuilder.Table.MigrateSQL | schemabuilder.go:342-373 | the object-level migration equals the value-level migration of the snapshots |
| SchemaBuilder.DropOrModifyIsFromStep | schemabuilder.go:352-361 | one iteration of the first loop, through back-pointers and maps, computes the FROM step on the snapshots |
| SchemaBuilder.DropOrModify | schemabuilder.go:352-361 | one iteration of the first loop over objects; `SchemaBuilder.DropOrModifyIsFromStep` states it |
| SchemaBuilder.DropsAndModifies | schemabuilder.go:352-362 | the first loop's statements are the snapshot diff's first part; no table changes |
| SchemaBuilder.AddIfMissingIsToStep | schemabuilder.go:363-368 | one iteration of the second loop computes the TO step on the snapshots |
| SchemaBuilder.AddIfMissing | schemabuilder.go:363-368 | one iteration of the second loop over objects; `SchemaBuilder.AddIfMissingIsToStep` states it |
| SchemaBuilder.Adds | schemabuilder.go:363-368 | the second loop's statements are the snapshot diff's second part; no table changes |
| SchemaBuilder.GetColumnIsNewest | schemabuilder.go:280-282 | `GetColumn` finds the newest column added under the name, and null exactly when there is none |
| SchemaBuilder.GetIndexIsNewest | schemabuilder.go:284-286 | `GetIndex` finds the newest index added under the name, and null exactly when there is none |
| SchemaBuilder.HistoryValues | schemabuilder.go:192 | the snapshot of each earlier version, in the order added |
| Scenarios.IdClauses | schemabuilder_test.go:16 | the `id` column's clause is the dialect keyword followed by NOT NULL PRIMARY KEY |
| Scenarios.IdInMySQL | dialect_mysql.go:100-102 | `id` in MySQL: quoted name, BIGINT, then AUTO_INCREAMENT NOT NULL PRIMARY KEY, as the mapper spells the keyword |
| Scenarios.IdInMySQLAsWritten | schemabuilder_test.go:94 | the rendered `id` is one character longer than the text the test expects, and the corrected keyword gives exactly the expected clause |
| Scenarios.IdInPostgres | schemabuilder_test.go:130 | `id` in Postgres: BIGSERIAL followed by two spaces before NOT NULL PRIMARY KEY |
| Scenarios.IdInSQLite3 | schemabuilder_test.go:112 | `id` in SQLite3: integer AUTOINCREMENT NOT NULL PRIMARY KEY |
| Scenarios.InfoInEachDialect | schemabuilder_test.go:96 | a `*string` column without a size renders as VARCHAR(255), or text in SQLite3, followed by a trailing space |

## Left out

- Reflection: `CreateColumnByField`, `CreateIndexByField`, `CreateTableByStruct`, `scanColumns`, `scanIndices`, `tableName`, `AddHistory`, and `Builder`/`For`/`DefineTable`. They read Go struct tags, field types and type names at run time. The model builds the same objects directly with the constructors and setters. `inflect.Underscore`/`Tableize` are not part of this model.
- `NewPostgresDialect`, `NewMySQLDialect` and `NewSQLite3Dialect` are the `Dialect` datatype's constructors. `Column()` and the mapper's `Quote` forward to the dialect and are folded into `Dialects`.
- `Column.ToSQL`, `DataType`, `Equals`, `AlterAddSQL`, `AlterDropSQL` and `AlterModifySQL` only read a column. They are functions on the column's value (`Schema.ColumnSQL`, `Schema.ColumnDataType`, `Migration.*`), called with the dialect its back-pointer leads to. `Column.String` is `ToSQL`.
- `Table.CreateTableSQL()` and `CreateTableIfNotExistsSQL()` are `createTableSQL(false)` and `createTableSQL(true)`. The model has the one method `Table.CreateTableSQL(ifNotExists)`.
- The panics become `Failure` results. Go would unwind the whole call; the model returns the first failure from the outermost call.
- The error messages' text (`%T`, `fmt.Errorf`) is not modelled. The model keeps the dialect name, the kind, and which label was not found.
- Table names, dialects and index fields are never written after construction, so they are `const` fields.
- The Go slices built by `make` and filled by index are Dafny `seq`s.
- The loop bodies of `MigrateSQL` are the functions `DropOrModify` and `AddIfMissing`, called from the loops.
- A column added to two tables keeps its back-pointer to the last one, as in Go. The model's `Table.Valid` only holds for tables whose columns all point back to them, so that aliasing is not modelled.
- `Scenarios` covers the column declarations of the `people` example. The full table text and the `TestVersioning` migration are not evaluated on literal values; the general lemmas above state their shape.
- SchemaBuilder.Column.Constraints and SchemaBuilder.Index.ToSQL require a table back-pointer; Go panics on a nil `Table`, which the model does not represent.
- Text.Quote: its length ensures counts characters, where Go's `len` counts the bytes of the UTF-8 encoding.
- Migration.FromStepIntended: the corrected MODIFY is stated for one step; a whole migration built from corrected steps is not defined separately.
- The MySQL mapper's `DataType(v, size)` does not have the `ColumnMapper` signature `(v, autoIncr, size)`. The model's dispatcher calls it without `autoIncr`, which MySQL types never depend on.

## Findings

| source | as written | input that shows it | evidently intended | confidence | as-written member | corrected member |
|---|---|---|---|---|---|---|
| dialect_mysql.go:100-102 | the MySQL auto-increment keyword is `AUTO_INCREAMENT` | any MySQL column with auto-increment, e.g. the `people.id` column; the expected text at schemabuilder_test.go:94 has `AUTO_INCREMENT` | `AUTO_INCREMENT`, MySQL's keyword | not executed | Scenarios.IdInMySQLAsWritten | MySQLDialect.AutoIncrement |
| schemabuilder.go:70-72 | `AlterModifySQL(to)` ignores `to` and renders the FROM column's own declaration | v1 column `a string` against v3 `a string` with size 1000000: MODIFY restates `VARCHAR(255)` instead of the new type | MODIFY carries the TO column's declaration | not executed | Migration.ModifyAsWrittenRestatesSource | Migration.FromStepIntendedDeclaresTarget |
