/**
 * The Dialect and ColumnMapper interfaces as one closed datatype with a
 * variant per SQL engine; each operation dispatches to that engine's module.
 */
module Dialects {
  import opened Wrappers
  import opened GoTypes
  import Text
  import PostgresDialect
  import MySQLDialect
  import SQLite3Dialect

  datatype Dialect = Postgres | MySQL(charset: string, engine: string) | SQLite3

  /** The character each dialect quotes identifiers with. */
  function QuoteChar(d: Dialect): char
  {
    match d
    case Postgres => PostgresDialect.QuoteChar
    case MySQL(_, _) => MySQLDialect.QuoteChar
    case SQLite3 => SQLite3Dialect.QuoteChar
  }

  /** Every dialect wraps the identifier in its own quote character and doubles that character inside. */
  function Quote(d: Dialect, s: string): (r: string)
    ensures r == Text.Quote(QuoteChar(d), s)
    ensures Text.Unquote(QuoteChar(d), r) == Some(s)
  {
    match d
    case Postgres => PostgresDialect.Quote(s)
    case MySQL(_, _) => MySQLDialect.Quote(s)
    case SQLite3 => SQLite3Dialect.Quote(s)
  }

  function CreateTableSuffix(d: Dialect): string
  {
    match d
    case Postgres => PostgresDialect.CreateTableSuffix()
    case MySQL(charset, engine) => MySQLDialect.CreateTableSuffix(charset, engine)
    case SQLite3 => SQLite3Dialect.CreateTableSuffix()
  }

  /** The ColumnMapper's `DataType`; the MySQL mapper is called without `autoIncr`. */
  function DataType(d: Dialect, v: GoType, autoIncr: bool, size: TypeSize): (r: Result<string, Error>)
    ensures r.Success? <==> IsSupported(v)
    ensures r.Success? ==> |r.value| > 0
  {
    match d
    case Postgres => PostgresDialect.DataType(v, autoIncr, size)
    case MySQL(_, _) => MySQLDialect.DataType(v, size)
    case SQLite3 => SQLite3Dialect.DataType(v, autoIncr, size)
  }

  /** The ColumnMapper's `AutoIncrement`, with the MySQL mapper's keyword spelled as the source spells it. */
  function AutoIncrement(d: Dialect): string
  {
    match d
    case Postgres => PostgresDialect.AutoIncrement()
    case MySQL(_, _) => MySQLDialect.AutoIncrementAsWritten()
    case SQLite3 => SQLite3Dialect.AutoIncrement()
  }

  /** Only MySQL has a CREATE TABLE suffix, and it always starts with a space. */
  lemma SuffixOnlyForMySQL(d: Dialect)
    ensures CreateTableSuffix(d) == "" <==> !d.MySQL?
    ensures d.MySQL? ==> CreateTableSuffix(d)[0] == ' '
  {
  }

  /**
   * Each dialect expresses auto-increment in exactly one place: a dialect
   * with an empty auto-increment keyword changes the integer type instead,
   * and a dialect with a keyword leaves the type alone.
   */
  lemma AutoIncrementExpressedOnce(d: Dialect, v: GoType, size: TypeSize)
    requires IsIntegerKind(v)
    ensures AutoIncrement(d) == "" <==> d.Postgres?
    ensures AutoIncrement(d) == "" <==> DataType(d, v, true, size) != DataType(d, v, false, size)
  {
  }

  /** Outside the integer kinds the auto-increment flag never changes the column type. */
  lemma AutoIncrementOnlyTouchesIntegers(d: Dialect, v: GoType, size: TypeSize)
    requires !IsIntegerKind(v)
    ensures DataType(d, v, true, size) == DataType(d, v, false, size)
  {
  }

  /** In every dialect only string and `[]byte` kinds look at the size hint. */
  lemma SizeOnlyForStringsAndBytes(d: Dialect, v: GoType, autoIncr: bool, s1: TypeSize, s2: TypeSize)
    requires !IsStringKind(v) && v != ByteSlice
    ensures DataType(d, v, autoIncr, s1) == DataType(d, v, autoIncr, s2)
  {
  }

  /**
   * Postgres and MySQL pick the same integer width for every integer kind
   * (MySQL spells the 32-bit type INT), and SQLite3 has one integer type.
   */
  lemma IntegerWidthsAgree(v: GoType, size: TypeSize)
    requires IsIntegerKind(v)
    ensures var pg := DataType(Postgres, v, false, size).value;
            var my := DataType(MySQL("", ""), v, false, size).value;
            my == (if pg == "INTEGER" then "INT" else pg)
    ensures DataType(SQLite3, v, false, size) == Success("integer")
  {
  }
}
