/**
 * The SQLite3 dialect: double-quote identifier quoting, no CREATE TABLE
 * suffix, lower-case storage-class type names that ignore the size hint and
 * the auto-increment flag, and a separate AUTOINCREMENT keyword.
 */
module SQLite3Dialect {
  import opened Wrappers
  import opened GoTypes
  import Text

  const QuoteChar: char := '"'

  /** `"` + `s` with every `"` doubled + `"`: the shared `Text.Quote` with this dialect's quote character. */
  function Quote(s: string): (r: string)
    ensures |r| == |s| + Text.Count(QuoteChar, s) + 2
    ensures Text.Unquote(QuoteChar, r) == Some(s)
  {
    Text.QuoteRoundTrip(QuoteChar, s);
    Text.Quote(QuoteChar, s)
  }

  function CreateTableSuffix(): string
  {
    ""
  }

  /** The column type for a Go value kind; a kind outside the switch panics. */
  function DataType(v: GoType, autoIncr: bool, size: TypeSize): (r: Result<string, Error>)
    ensures r.Success? <==> IsSupported(v)
    ensures r.Success? ==> |r.value| > 0
    ensures r.Failure? ==> r.error == UnsupportedType("SQLite3Dialect", v)
  {
    match v
    case Value(Bool) | Pointer(Bool) | NullBool =>
      Success("boolean")
    case Value(Int) | Value(Int8) | Value(Int16) | Value(Int32) | Value(Int64)
       | Value(Uint) | Value(Uint8) | Value(Uint16) | Value(Uint32) | Value(Uint64)
       | Pointer(Int) | Pointer(Int8) | Pointer(Int16) | Pointer(Int32) | Pointer(Int64)
       | Pointer(Uint) | Pointer(Uint8) | Pointer(Uint16) | Pointer(Uint32) | Pointer(Uint64)
       | NullInt64 =>
      Success("integer")
    case Value(String) | Pointer(String) | NullString =>
      Success("text")
    case ByteSlice =>
      Success("blob")
    case Value(Time) | Pointer(Time) =>
      Success("datetime")
    case Value(Float32) | Pointer(Float32) | Value(Float64) | Pointer(Float64) | NullFloat64 =>
      Success("real")
    case Other(_) =>
      Failure(UnsupportedType("SQLite3Dialect", v))
  }

  function AutoIncrement(): string
  {
    "AUTOINCREMENT"
  }

  /** The type depends on the value kind only: neither the size hint nor auto-increment changes it. */
  lemma KindAlone(v: GoType, a1: bool, s1: TypeSize, a2: bool, s2: TypeSize)
    ensures DataType(v, a1, s1) == DataType(v, a2, s2)
  {
  }

  /** The kinds with one fixed type: `boolean`, `datetime` for times, and `real` for floats of either width. */
  lemma FixedKindTypes(v: GoType, autoIncr: bool, size: TypeSize)
    ensures IsBoolKind(v) ==> DataType(v, autoIncr, size) == Success("boolean")
    ensures IsTimeKind(v) ==> DataType(v, autoIncr, size) == Success("datetime")
    ensures IsFloatKind(v, 32) || IsFloatKind(v, 64) ==> DataType(v, autoIncr, size) == Success("real")
  {
  }

  /** String kinds are stored as `text` and `[]byte` as `blob`, whatever the size hint. */
  lemma StringAndBytesTypes(v: GoType, autoIncr: bool, size: TypeSize)
    ensures IsStringKind(v) ==> DataType(v, autoIncr, size) == Success("text")
    ensures DataType(ByteSlice, autoIncr, size) == Success("blob")
  {
  }

  /** Every integer kind, whatever its width, is stored as `integer`. */
  lemma IntegersShareOneType(v: GoType, autoIncr: bool, size: TypeSize)
    requires IsIntegerKind(v)
    ensures DataType(v, autoIncr, size) == Success("integer")
  {
  }
}
