/**
 * Column declarations of the generator's `people` example table, stated for
 * every column of the same shape: an auto-increment `uint64` primary key
 * (`id`) and an optional `*string` without a size hint (`info`), in each
 * dialect.
 */
module Scenarios {
  import opened Wrappers
  import opened GoTypes
  import opened Dialects
  import opened Schema
  import MySQLDialect
  import Text

  /** The settings `id` gets from its tags: primary key, auto-increment, NOT NULL, no default, not unique. */
  predicate IsIdColumn(c: ColumnValue)
  {
    c.typ == Value(Uint64) && c.isAutoIncrement && c.isNotNull && c.isPrimaryKey
    && !c.isUnique && c.defaultVal == ""
  }

  /** A pointer to string has NOT NULL cleared and carries no other setting and no size hint. */
  predicate IsInfoColumn(c: ColumnValue)
  {
    c.typ == Pointer(String) && !c.isAutoIncrement && !c.isNotNull && !c.isPrimaryKey
    && !c.isUnique && c.defaultVal == "" && c.typeSize == 0
  }

  lemma IdClauses(autoIncrement: string, c: ColumnValue)
    requires IsIdColumn(c)
    ensures Constraints(autoIncrement, c) == autoIncrement + " NOT NULL PRIMARY KEY"
  {
    assert ConstraintOptions(autoIncrement, c) == [autoIncrement, "NOT NULL", "PRIMARY KEY"];
    Text.JoinCons("NOT NULL", ["PRIMARY KEY"], " ");
    assert ["NOT NULL"] + ["PRIMARY KEY"] == ["NOT NULL", "PRIMARY KEY"];
    Text.JoinCons(autoIncrement, ["NOT NULL", "PRIMARY KEY"], " ");
    assert [autoIncrement] + ["NOT NULL", "PRIMARY KEY"] == [autoIncrement, "NOT NULL", "PRIMARY KEY"];
  }

  /** MySQL: BIGINT, then the auto-increment keyword as the MySQL mapper spells it, among the clauses. */
  lemma IdInMySQL(charset: string, engine: string, c: ColumnValue)
    requires IsIdColumn(c)
    ensures ColumnSQL(MySQL(charset, engine), c)
         == Success(Quote(MySQL(charset, engine), c.name) + (" " + "BIGINT" + " " + ("AUTO_INCREAMENT" + " NOT NULL PRIMARY KEY")))
  {
    var d := MySQL(charset, engine);
    IdClauses("AUTO_INCREAMENT", c);
    ColumnLayout(d, c, "BIGINT");
  }

  /**
   * The rendered MySQL declaration is not the AUTO_INCREMENT text the
   * generator's test expects for the same column, one character longer;
   * with the corrected keyword the clause list is exactly the expected one.
   */
  lemma IdInMySQLAsWritten(charset: string, engine: string, c: ColumnValue)
    requires IsIdColumn(c)
    ensures ColumnSQL(MySQL(charset, engine), c).Success?
    ensures var expected := Quote(MySQL(charset, engine), c.name) + (" " + "BIGINT" + " " + ("AUTO_INCREMENT" + " NOT NULL PRIMARY KEY"));
            |ColumnSQL(MySQL(charset, engine), c).value| == |expected| + 1
    ensures Constraints(MySQLDialect.AutoIncrement(), c) == "AUTO_INCREMENT" + " NOT NULL PRIMARY KEY"
  {
    IdInMySQL(charset, engine, c);
    IdClauses(MySQLDialect.AutoIncrement(), c);
  }

  /** Postgres folds auto-increment into BIGSERIAL and keeps the empty clause: two spaces before NOT NULL. */
  lemma IdInPostgres(c: ColumnValue)
    requires IsIdColumn(c)
    ensures ColumnSQL(Postgres, c) == Success(Quote(Postgres, c.name) + (" " + "BIGSERIAL" + " " + ("" + " NOT NULL PRIMARY KEY")))
  {
    IdClauses("", c);
    ColumnLayout(Postgres, c, "BIGSERIAL");
  }

  lemma IdInSQLite3(c: ColumnValue)
    requires IsIdColumn(c)
    ensures ColumnSQL(SQLite3, c) == Success(Quote(SQLite3, c.name) + (" " + "integer" + " " + ("AUTOINCREMENT" + " NOT NULL PRIMARY KEY")))
  {
    IdClauses("AUTOINCREMENT", c);
    ColumnLayout(SQLite3, c, "integer");
  }

  /** A column without clauses keeps the space after its type, in every dialect; the default width is 255. */
  lemma InfoInEachDialect(d: Dialect, c: ColumnValue)
    requires IsInfoColumn(c)
    ensures ColumnSQL(d, c) == Success(Quote(d, c.name) + (" " + (if d.SQLite3? then "text" else "VARCHAR(255)") + " " + ""))
  {
    var dt := if d.SQLite3? then "text" else "VARCHAR(255)";
    assert ConstraintOptions(AutoIncrement(d), c) == [];
    assert ColumnDataType(d, c) == Success(dt);
    ColumnLayout(d, c, dt);
  }
}
