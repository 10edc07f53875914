/** The values a column holds and the Go types that hold them. Reflection is
    replaced by a closed description: a Go type is nil, a type that does not
    implement the Column interface, or a Column type described by what its
    Identifier method returns and which codec its methods run. */
module Values {
  import opened ByteSeq

  /** The range of Go's `int` on the 64-bit host. */
  const MinInt64: int := -0x8000_0000_0000_0000
  const MaxInt64: int := 0x7FFF_FFFF_FFFF_FFFF
  type Int64 = i: int | MinInt64 <= i <= MaxInt64

  /** Which column codec a Column type's methods run. */
  datatype Codec = IntCodec | VarcharCodec

  /** A Go type implementing the Column interface. */
  datatype ColumnType = ColumnType(identifier: Str, codec: Codec)

  /** A reflect.Type as the registries see it. */
  datatype RType = NilType | NotAColumn | Column(ct: ColumnType)

  /** The column types of pkg/column_types: `Int` and `Varchar`. */
  const IntType: ColumnType := ColumnType(Ascii("int"), IntCodec)
  const VarcharType: ColumnType := ColumnType(Ascii("varchar"), VarcharCodec)

  /** A non-nil column value; Go's nil column is `None` in an Option. */
  datatype Value = IntValue(i: Int64) | VarcharValue(s: Str)

  /** reflect.TypeOf of a value. */
  function TypeOf(v: Value): (t: ColumnType)
    ensures t == IntType || t == VarcharType
    ensures t.codec == (if v.IntValue? then IntCodec else VarcharCodec)
  {
    match v
    case IntValue(_) => IntType
    case VarcharValue(_) => VarcharType
  }
}
