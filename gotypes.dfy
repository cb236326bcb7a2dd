/**
 * The Go value kinds that the dialects' type switches and `Column.As`
 * distinguish, as a closed enumeration, and the failures of the generator.
 *
 * A column's Go `Type interface{}` holds a representative value; only its
 * dynamic type matters. `Value(b)` is a plain `b`, `Pointer(b)` is `*b`,
 * `ByteSlice` is `[]byte`, the four `sql.Null*` wrappers have their own
 * constructors, and `Other(name)` is any other dynamic type, named as
 * Go's `%T` would print it (a column whose `As` was never called holds
 * `nil`, printed `<nil>`).
 */
module GoTypes {

  /** Go's `uint64`, the type of a column's size hint. */
  type TypeSize = n: nat | n < 0x1_0000_0000_0000_0000

  datatype Base =
    | Bool
    | Int | Int8 | Int16 | Int32 | Int64
    | Uint | Uint8 | Uint16 | Uint32 | Uint64
    | Float32 | Float64
    | String
    | Time

  datatype GoType =
    | Value(base: Base)
    | Pointer(base: Base)
    | ByteSlice
    | NullBool
    | NullString
    | NullInt64
    | NullFloat64
    | Other(name: string)

  /** The dynamic type of `nil`, what `NewColumn` leaves in `Type`. */
  const NilType: GoType := Other("<nil>")

  /** Every case the three dialects' switches list; anything else panics there. */
  predicate IsSupported(t: GoType)
  {
    !t.Other?
  }

  predicate IsIntegerBase(b: Base)
  {
    b in {Int, Int8, Int16, Int32, Int64, Uint, Uint8, Uint16, Uint32, Uint64}
  }

  /** Integer kinds: plain and pointer integers of every width, and `sql.NullInt64`. */
  predicate IsIntegerKind(t: GoType)
  {
    ((t.Value? || t.Pointer?) && IsIntegerBase(t.base)) || t == NullInt64
  }

  /**
   * Bits in a Go integer base. `int` and `uint` have the platform's word size
   * and count 64 here, their size on 64-bit platforms; every other base has no
   * integer width.
   */
  function Width(b: Base): nat
  {
    match b
    case Int8 | Uint8 => 8
    case Int16 | Uint16 => 16
    case Int32 | Uint32 => 32
    case Int64 | Uint64 | Int | Uint => 64
    case _ => 0
  }

  /** `int`, `uint` and their pointers: the kinds whose width is the platform's word size. */
  predicate IsPlatformWidth(t: GoType)
  {
    (t.Value? || t.Pointer?) && (t.base == Int || t.base == Uint)
  }

  /** The width of an integer kind; `sql.NullInt64` holds an `int64`. */
  function KindWidth(t: GoType): nat
  {
    if t == NullInt64 then 64
    else if t.Value? || t.Pointer? then Width(t.base)
    else 0
  }

  /** Boolean kinds: `bool`, `*bool` and `sql.NullBool`. */
  predicate IsBoolKind(t: GoType)
  {
    t == Value(Bool) || t == Pointer(Bool) || t == NullBool
  }

  /** Time kinds: `time.Time` and `*time.Time`. */
  predicate IsTimeKind(t: GoType)
  {
    t == Value(Time) || t == Pointer(Time)
  }

  /** Floating-point kinds, 32-bit (`float32`, `*float32`) or 64-bit (`float64`, `*float64`, `sql.NullFloat64`). */
  predicate IsFloatKind(t: GoType, bits: nat)
  {
    if bits == 32 then t == Value(Float32) || t == Pointer(Float32)
    else bits == 64 && (t == Value(Float64) || t == Pointer(Float64) || t == NullFloat64)
  }

  /** String kinds: `string`, `*string` and `sql.NullString`. */
  predicate IsStringKind(t: GoType)
  {
    t == Value(String) || t == Pointer(String) || t == NullString
  }

  /** The failures: a type switch that panics, and a migration label that resolves to nothing. */
  datatype Error =
    | UnsupportedType(dialect: string, v: GoType)
    | VersionNotFound(side: Side, version: string)

  /** Which end of a migration was not found: `MigrateSQL` checks `from` first. */
  datatype Side = From | To
}
