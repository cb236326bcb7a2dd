/**
 * The MySQL dialect: backtick identifier quoting, an ENGINE / DEFAULT
 * CHARACTER SET suffix, four size tiers for text and binary columns, and a
 * separate auto-increment keyword.
 *
 * The mapper's `DataType` takes `(v, size)`; the ColumnMapper interface it is
 * meant to implement passes `(v, autoIncr, size)`, so the model's dispatcher
 * calls it without `autoIncr`: MySQL column types never depend on it.
 */
module MySQLDialect {
  import opened Wrappers
  import opened GoTypes
  import Text

  const QuoteChar: char := '`'

  /** Backtick + `s` with every backtick doubled + backtick: the shared `Text.Quote` with this dialect's quote character. */
  function Quote(s: string): (r: string)
    ensures |r| == |s| + Text.Count(QuoteChar, s) + 2
    ensures Text.Unquote(QuoteChar, r) == Some(s)
  {
    Text.QuoteRoundTrip(QuoteChar, s);
    Text.Quote(QuoteChar, s)
  }

  /** The table options: the set ones among ENGINE and DEFAULT CHARACTER SET, in that order. */
  function SuffixItems(charset: string, engine: string): seq<string>
  {
    (if engine != "" then ["ENGINE=" + engine] else [])
    + (if charset != "" then ["DEFAULT CHARACTER SET=" + charset] else [])
  }

  /** A space followed by the space-joined table options. */
  function CreateTableSuffix(charset: string, engine: string): string
  {
    " " + Text.Join(SuffixItems(charset, engine), " ")
  }

  /**
   * The suffix always starts with a space, is a lone space when neither
   * setting is given, and names each given setting once, engine first.
   */
  lemma CreateTableSuffixShape(charset: string, engine: string)
    ensures charset == "" && engine == "" ==> CreateTableSuffix(charset, engine) == " "
    ensures charset == "" && engine != "" ==> CreateTableSuffix(charset, engine) == " ENGINE=" + engine
    ensures charset != "" && engine == "" ==>
      CreateTableSuffix(charset, engine) == " DEFAULT CHARACTER SET=" + charset
    ensures charset != "" && engine != "" ==>
      CreateTableSuffix(charset, engine) == " ENGINE=" + engine + " DEFAULT CHARACTER SET=" + charset
  {
    var e, c := "ENGINE=" + engine, "DEFAULT CHARACTER SET=" + charset;
    var items := SuffixItems(charset, engine);
    if charset != "" && engine != "" {
      assert items == [e, c] && items[1..] == [c];
      assert Text.Join(items, " ") == e + " " + c;
    } else if charset != "" {
      assert items == [c];
    } else if engine != "" {
      assert items == [e];
    }
  }

  function Varchar(size: TypeSize): string
  {
    if size == 0 then "VARCHAR(255)"
    else if size < 0x1_0000 - 1 - 2 then Text.SizedType("VARCHAR", size)
    else if size < 0x100_0000 then "MEDIUMTEXT"
    else "LONGTEXT"
  }

  /** The inline `[]byte` case of `DataType`. */
  function Varbinary(size: TypeSize): string
  {
    if size == 0 then "VARBINARY(255)"
    else if size < 65533 then Text.SizedType("VARBINARY", size)
    else if size < 0x100_0000 then "MEDIUMBLOB"
    else "LONGBLOB"
  }

  /** The column type for a Go value kind; a kind outside the switch panics. */
  function DataType(v: GoType, size: TypeSize): (r: Result<string, Error>)
    ensures r.Success? <==> IsSupported(v)
    ensures r.Success? ==> |r.value| > 0
    ensures r.Failure? ==> r.error == UnsupportedType("MySQLDialect", v)
  {
    match v
    case Value(Bool) | Pointer(Bool) | NullBool =>
      Success("BOOLEAN")
    case Value(Int8) | Value(Int16) | Value(Uint8) | Value(Uint16)
       | Pointer(Int8) | Pointer(Int16) | Pointer(Uint8) | Pointer(Uint16) =>
      Success("SMALLINT")
    case Value(Int) | Value(Int32) | Value(Uint) | Value(Uint32)
       | Pointer(Int) | Pointer(Int32) | Pointer(Uint) | Pointer(Uint32) =>
      Success("INT")
    case Value(Int64) | Value(Uint64) | Pointer(Int64) | Pointer(Uint64) | NullInt64 =>
      Success("BIGINT")
    case Value(String) | Pointer(String) | NullString =>
      Success(Varchar(size))
    case ByteSlice =>
      Success(Varbinary(size))
    case Value(Time) | Pointer(Time) =>
      Success("DATETIME")
    case Value(Float32) | Pointer(Float32) | Value(Float64) | Pointer(Float64) | NullFloat64 =>
      Success("DOUBLE")
    case Other(_) =>
      Failure(UnsupportedType("MySQLDialect", v))
  }

  /** The mapper's `AutoIncrement`, spelled as the source spells it; the model's dispatcher uses this one. */
  function AutoIncrementAsWritten(): string
  {
    "AUTO_INCREAMENT"
  }

  /** MySQL's AUTO_INCREMENT keyword, the spelling the mapper evidently means. */
  function AutoIncrement(): string
  {
    "AUTO_INCREMENT"
  }

  /** The as-written keyword is not a MySQL keyword: it is AUTO_INCREMENT with a stray `A`. */
  lemma AutoIncrementMisspelled()
    ensures AutoIncrementAsWritten() != AutoIncrement()
    ensures |AutoIncrementAsWritten()| == |AutoIncrement()| + 1
    ensures AutoIncrementAsWritten() == AutoIncrement()[..10] + "A" + AutoIncrement()[10..]
  {
  }

  /**
   * String kinds: VARCHAR bounded by the size hint (255 when 0) below the
   * 64KB cutoff, MEDIUMTEXT below 16MB, LONGTEXT from 16MB on.
   */
  lemma VarcharBound(size: TypeSize)
    ensures Text.ParseSized("VARCHAR", Varchar(size))
         == if size == 0 then Some(255) else if size < 65533 then Some(size) else None
    ensures Varchar(size) == "MEDIUMTEXT" <==> 65533 <= size < 0x100_0000
    ensures Varchar(size) == "LONGTEXT" <==> size >= 0x100_0000
  {
    if size == 0 {
      Text.ParseSizedType("VARCHAR", 255);
      assert Text.SizedType("VARCHAR", 255) == "VARCHAR(255)";
    } else if size < 65533 {
      Text.ParseSizedType("VARCHAR", size);
    }
  }

  /** `[]byte`: VARBINARY bounded by the size hint (255 when 0), then MEDIUMBLOB, then LONGBLOB. */
  lemma VarbinaryBound(size: TypeSize)
    ensures Text.ParseSized("VARBINARY", Varbinary(size))
         == if size == 0 then Some(255) else if size < 65533 then Some(size) else None
    ensures Varbinary(size) == "MEDIUMBLOB" <==> 65533 <= size < 0x100_0000
    ensures Varbinary(size) == "LONGBLOB" <==> size >= 0x100_0000
  {
    if size == 0 {
      Text.ParseSizedType("VARBINARY", 255);
      assert Text.SizedType("VARBINARY", 255) == "VARBINARY(255)";
    } else if size < 65533 {
      Text.ParseSizedType("VARBINARY", size);
    }
  }

  /** The width in bits of each integer type. */
  function IntegerBits(t: string): nat
  {
    match t
    case "SMALLINT" => 16
    case "INT" => 32
    case "BIGINT" => 64
    case _ => 0
  }

  /**
   * Integer kinds map by width alone, whatever the size hint: each
   * fixed-width kind to the narrowest of SMALLINT, INT and BIGINT at least as
   * wide (8-bit kinds share SMALLINT), and `int` and `uint`, whose width is
   * the platform's word size, to the 32-bit INT.
   */
  lemma IntegerByWidth(v: GoType, s1: TypeSize, s2: TypeSize)
    requires IsIntegerKind(v)
    ensures DataType(v, s1) == DataType(v, s2)
    ensures DataType(v, s1).value in {"SMALLINT", "INT", "BIGINT"}
    ensures IntegerBits(DataType(v, s1).value)
         == if IsPlatformWidth(v) then 32 else if KindWidth(v) <= 16 then 16 else KindWidth(v)
  {
  }

  /** The kinds with one fixed type: booleans, DATETIME for times, and DOUBLE for floats of either width. */
  lemma FixedKindTypes(v: GoType, size: TypeSize)
    ensures IsBoolKind(v) ==> DataType(v, size) == Success("BOOLEAN")
    ensures IsTimeKind(v) ==> DataType(v, size) == Success("DATETIME")
    ensures IsFloatKind(v, 32) || IsFloatKind(v, 64) ==> DataType(v, size) == Success("DOUBLE")
  {
  }

  /**
   * String kinds get the VARCHAR type of the size hint and `[]byte` the
   * VARBINARY one.
   */
  lemma StringAndBytesTypes(v: GoType, size: TypeSize)
    ensures IsStringKind(v) ==> DataType(v, size) == Success(Varchar(size))
    ensures DataType(ByteSlice, size) == Success(Varbinary(size))
  {
  }

  /** The bound a string or `[]byte` column declares: the hint (255 when it is 0) below the 64KB cutoff, none from there on. */
  lemma StringAndBytesBounds(v: GoType, size: TypeSize)
    ensures IsStringKind(v) ==>
              Text.ParseSized("VARCHAR", DataType(v, size).value)
                == if size == 0 then Some(255) else if size < 65533 then Some(size) else None
    ensures Text.ParseSized("VARBINARY", DataType(ByteSlice, size).value)
         == if size == 0 then Some(255) else if size < 65533 then Some(size) else None
  {
    StringAndBytesTypes(v, size);
    VarcharBound(size);
    VarbinaryBound(size);
  }


  /** Only string and `[]byte` kinds look at the size hint. */
  lemma SizeOnlyForStringsAndBytes(v: GoType, s1: TypeSize, s2: TypeSize)
    requires !IsStringKind(v) && v != ByteSlice
    ensures DataType(v, s1) == DataType(v, s2)
  {
  }

  /** The threshold edges on both sides of each cutoff. */
  lemma ThresholdEdges()
    ensures Varchar(65532) == "VARCHAR(65532)" && Varchar(65533) == "MEDIUMTEXT"
    ensures Varchar(0xFF_FFFF) == "MEDIUMTEXT" && Varchar(0x100_0000) == "LONGTEXT"
    ensures Varbinary(65532) == "VARBINARY(65532)" && Varbinary(65533) == "MEDIUMBLOB"
    ensures Varbinary(0xFF_FFFF) == "MEDIUMBLOB" && Varbinary(0x100_0000) == "LONGBLOB"
  {
  }
}
