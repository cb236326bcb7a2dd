/**
 * The Postgres dialect: double-quote identifier quoting, no CREATE TABLE
 * suffix, and auto-increment folded into the integer type names
 * (SMALLSERIAL / SERIAL / BIGSERIAL), so that `AutoIncrement` is empty.
 */
module PostgresDialect {
  import opened Wrappers
  import opened GoTypes
  import Text

  const QuoteChar: char := '"'

  /** `"` + `s` with every `"` doubled + `"`: the shared `Text.Quote` with this dialect's quote character. */
  function Quote(s: string): (r: string)
    ensures |r| == |s| + Text.Count(QuoteChar, s) + 2
    ensures Text.Unquote(QuoteChar, r) == Some(s)
  {
    Text.QuoteRoundTrip(QuoteChar, s);
    Text.Quote(QuoteChar, s)
  }

  function CreateTableSuffix(): string
  {
    ""
  }

  /** Postgres has no separate auto-increment keyword. */
  function AutoIncrement(): string
  {
    ""
  }

  function Smallint(autoIncr: bool): string
  {
    if autoIncr then "SMALLSERIAL" else "SMALLINT"
  }

  function Integer(autoIncr: bool): string
  {
    if autoIncr then "SERIAL" else "INTEGER"
  }

  function Bigint(autoIncr: bool): string
  {
    if autoIncr then "BIGSERIAL" else "BIGINT"
  }

  function Varchar(size: TypeSize): string
  {
    if size == 0 then "VARCHAR(255)"
    else if size < 0x1_0000 - 1 - 2 then Text.SizedType("VARCHAR", size)
    else if size < 0x100_0000 then "TEXT"
    else "TEXT"
  }

  /** The inline `[]byte` case of `DataType`. */
  function BitVarying(size: TypeSize): string
  {
    if size == 0 then "BIT VARYING(255)"
    else if size < 65533 then Text.SizedType("BIT VARYING", size)
    else if size < 0x100_0000 then "BYTEA"
    else "BYTEA"
  }

  /** The column type for a Go value kind; a kind outside the switch panics. */
  function DataType(v: GoType, autoIncr: bool, size: TypeSize): (r: Result<string, Error>)
    ensures r.Success? <==> IsSupported(v)
    ensures r.Success? ==> |r.value| > 0
    ensures r.Failure? ==> r.error == UnsupportedType("PostgresDialect", v)
  {
    match v
    case Value(Bool) | Pointer(Bool) | NullBool =>
      Success("BOOLEAN")
    case Value(Int8) | Value(Int16) | Value(Uint8) | Value(Uint16)
       | Pointer(Int8) | Pointer(Int16) | Pointer(Uint8) | Pointer(Uint16) =>
      Success(Smallint(autoIncr))
    case Value(Int) | Value(Int32) | Value(Uint) | Value(Uint32)
       | Pointer(Int) | Pointer(Int32) | Pointer(Uint) | Pointer(Uint32) =>
      Success(Integer(autoIncr))
    case Value(Int64) | Value(Uint64) | Pointer(Int64) | Pointer(Uint64) | NullInt64 =>
      Success(Bigint(autoIncr))
    case Value(String) | Pointer(String) | NullString =>
      Success(Varchar(size))
    case ByteSlice =>
      Success(BitVarying(size))
    case Value(Time) | Pointer(Time) =>
      Success("TIMESTAMP WITH TIME ZONE")
    case Value(Float32) | Pointer(Float32) =>
      Success("REAL")
    case Value(Float64) | Pointer(Float64) | NullFloat64 =>
      Success("DOUBLE PRECISION")
    case Other(_) =>
      Failure(UnsupportedType("PostgresDialect", v))
  }

  /**
   * String kinds: the declared bound is the size hint (255 when the hint is 0)
   * below the 64KB cutoff, and from the cutoff on the type is the unbounded TEXT.
   */
  lemma VarcharBound(size: TypeSize)
    ensures Text.ParseSized("VARCHAR", Varchar(size))
         == if size == 0 then Some(255) else if size < 65533 then Some(size) else None
    ensures size >= 65533 <==> Varchar(size) == "TEXT"
  {
    if size == 0 {
      Text.ParseSizedType("VARCHAR", 255);
      assert Text.SizedType("VARCHAR", 255) == "VARCHAR(255)";
    } else if size < 65533 {
      Text.ParseSizedType("VARCHAR", size);
    }
  }

  /** `[]byte`: BIT VARYING bounded by the size hint (255 when 0), BYTEA from the cutoff on. */
  lemma BitVaryingBound(size: TypeSize)
    ensures Text.ParseSized("BIT VARYING", BitVarying(size))
         == if size == 0 then Some(255) else if size < 65533 then Some(size) else None
    ensures size >= 65533 <==> BitVarying(size) == "BYTEA"
  {
    if size == 0 {
      Text.ParseSizedType("BIT VARYING", 255);
      assert Text.SizedType("BIT VARYING", 255) == "BIT VARYING(255)";
    } else if size < 65533 {
      Text.ParseSizedType("BIT VARYING", size);
    }
  }

  /** The auto-increment variant of each integer type name. */
  function Serial(t: string): string
  {
    match t
    case "SMALLINT" => "SMALLSERIAL"
    case "INTEGER" => "SERIAL"
    case "BIGINT" => "BIGSERIAL"
    case _ => t
  }

  /**
   * Auto-increment lives in the type: for an integer kind it turns the plain
   * type into its serial variant, and for every other kind it changes nothing.
   */
  lemma AutoIncrementFoldedIntoType(v: GoType, size: TypeSize)
    requires IsSupported(v)
    ensures IsIntegerKind(v) ==>
      DataType(v, false, size).value in {"SMALLINT", "INTEGER", "BIGINT"} &&
      DataType(v, true, size).value == Serial(DataType(v, false, size).value) &&
      DataType(v, true, size).value in {"SMALLSERIAL", "SERIAL", "BIGSERIAL"}
    ensures !IsIntegerKind(v) ==> DataType(v, true, size) == DataType(v, false, size)
  {
  }

  /** The width in bits of each integer type, plain or serial. */
  function IntegerBits(t: string): nat
  {
    match t
    case "SMALLINT" | "SMALLSERIAL" => 16
    case "INTEGER" | "SERIAL" => 32
    case "BIGINT" | "BIGSERIAL" => 64
    case _ => 0
  }

  /**
   * Each fixed-width integer kind gets the narrowest integer type at least as
   * wide (8-bit kinds share the 16-bit one); `int` and `uint` get the 32-bit
   * type although Go gives them the platform's word size.
   */
  lemma IntegerTypeByWidth(v: GoType, autoIncr: bool, size: TypeSize)
    requires IsIntegerKind(v)
    ensures IntegerBits(DataType(v, autoIncr, size).value)
         == if IsPlatformWidth(v) then 32 else if KindWidth(v) <= 16 then 16 else KindWidth(v)
  {
  }

  /** The kinds with one fixed type: booleans, timestamps with time zone, and a float type per width. */
  lemma FixedKindTypes(v: GoType, autoIncr: bool, size: TypeSize)
    ensures IsBoolKind(v) ==> DataType(v, autoIncr, size) == Success("BOOLEAN")
    ensures IsTimeKind(v) ==> DataType(v, autoIncr, size) == Success("TIMESTAMP WITH TIME ZONE")
    ensures IsFloatKind(v, 32) ==> DataType(v, autoIncr, size) == Success("REAL")
    ensures IsFloatKind(v, 64) ==> DataType(v, autoIncr, size) == Success("DOUBLE PRECISION")
  {
  }

  /**
   * String kinds get the VARCHAR type of the size hint and `[]byte` the BIT
   * VARYING one.
   */
  lemma StringAndBytesTypes(v: GoType, autoIncr: bool, size: TypeSize)
    ensures IsStringKind(v) ==> DataType(v, autoIncr, size) == Success(Varchar(size))
    ensures DataType(ByteSlice, autoIncr, size) == Success(BitVarying(size))
  {
  }

  /** The bound a string or `[]byte` column declares: the hint (255 when it is 0) below the 64KB cutoff, none from there on. */
  lemma StringAndBytesBounds(v: GoType, autoIncr: bool, size: TypeSize)
    ensures IsStringKind(v) ==>
              Text.ParseSized("VARCHAR", DataType(v, autoIncr, size).value)
                == if size == 0 then Some(255) else if size < 65533 then Some(size) else None
    ensures Text.ParseSized("BIT VARYING", DataType(ByteSlice, autoIncr, size).value)
         == if size == 0 then Some(255) else if size < 65533 then Some(size) else None
  {
    StringAndBytesTypes(v, autoIncr, size);
    VarcharBound(size);
    BitVaryingBound(size);
  }


  /** Only string and `[]byte` kinds look at the size hint. */
  lemma SizeOnlyForStringsAndBytes(v: GoType, autoIncr: bool, s1: TypeSize, s2: TypeSize)
    requires !IsStringKind(v) && v != ByteSlice
    ensures DataType(v, autoIncr, s1) == DataType(v, autoIncr, s2)
  {
  }

  /** The threshold edges on both sides of each cutoff. */
  lemma ThresholdEdges()
    ensures Varchar(65532) == "VARCHAR(65532)" && Varchar(65533) == "TEXT"
    ensures Varchar(0xFF_FFFF) == "TEXT" && Varchar(0x100_0000) == "TEXT"
    ensures BitVarying(65532) == "BIT VARYING(65532)" && BitVarying(65533) == "BYTEA"
    ensures BitVarying(0x100_0000) == "BYTEA"
  {
  }
}
