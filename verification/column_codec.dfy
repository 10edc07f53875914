/** Dynamic dispatch of the Column interface of pkg/data: a value's Marshal
    runs its own codec, and decoding through a type runs that type's codec. */
module ColumnCodec {
  import opened Errors
  import opened ByteSeq
  import opened Values
  import IntColumn
  import VarcharColumn

  /** column.Marshal(size) for a non-nil column. */
  function MarshalValue(v: Value, size: int): (r: Result<seq<byte>>)
    ensures r.Ok? ==> |r.value| == size
  {
    match v
    case IntValue(i) => IntColumn.Encoding(i, size)
    case VarcharValue(s) => VarcharColumn.Marshal(s, size)
  }

  /** reflect.New(t).Interface().(Column).Unmarshal(size, payload). */
  function UnmarshalAs(t: ColumnType, size: int, payload: seq<byte>): (r: Result<Value>)
    ensures r.Ok? ==> r.value.IntValue? == (t.codec == IntCodec)
  {
    match t.codec
    case IntCodec => IntColumn.Unmarshal(size, payload)
    case VarcharCodec => VarcharColumn.Unmarshal(size, payload)
  }

  /** The values the codecs give back unchanged at a size. */
  predicate RoundTrips(v: Value, size: int)
  {
    match v
    case IntValue(i) => size == 8 || ((size == 2 || size == 4) && 0 <= i && IntColumn.InRange(i, size))
    case VarcharValue(s) => ValidUtf8(s) && |s| <= size && (s == [] || s[|s| - 1] != 0)
  }

  /** Encoding a value and decoding it through its own type gives it back. */
  lemma CodecRoundTrip(v: Value, size: int)
    requires RoundTrips(v, size)
    ensures MarshalValue(v, size).Ok?
    ensures UnmarshalAs(TypeOf(v), size, MarshalValue(v, size).value) == Ok(v)
  {
    match v
    case IntValue(i) =>
      if size == 8 {
        IntColumn.RoundTripWide(i);
      } else {
        IntColumn.RoundTripNonNegative(i, size);
      }
    case VarcharValue(s) =>
      VarcharColumn.RoundTrip(s, size);
  }
}
