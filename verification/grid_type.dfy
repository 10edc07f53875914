/** The column type name of pkg/engine/grid/column/type.go (also the
    ColumnType string of pkg/engine): a Go string that serialises as its own
    bytes and loads only from UTF-8. */
module GridType {
  import opened Errors
  import opened ByteSeq

  type Type = Str

  /** Type.Bytes (pkg/engine/grid/column/type.go:12-14). */
  function Bytes(t: Type): (r: seq<byte>)
    ensures |r| == |t|
  {
    t
  }

  /** Type.Load (pkg/engine/grid/column/type.go:16-21). */
  function Load(payload: seq<byte>): (r: Result<Type>)
    ensures r.Ok? <==> ValidUtf8(payload)
    ensures r.Err? ==> r.error == InvalidUtf8
    ensures r.Ok? ==> Bytes(r.value) == payload
  {
    if !ValidUtf8(payload) then Err(InvalidUtf8) else Ok(payload)
  }

  /** Type.Empty (pkg/engine/grid/column/type.go:27-29). */
  predicate Empty(t: Type)
  {
    |t| == 0
  }

  /** Type.Equals (pkg/engine/grid/column/type.go:35-37). */
  predicate Equals(t: Type, other: Type)
  {
    t == other
  }

  /** Loading the bytes of a UTF-8 type name gives the name back. */
  lemma LoadBytes(t: Type)
    requires ValidUtf8(t)
    ensures Load(Bytes(t)) == Ok(t)
  {
  }

  /** Empty and Equals agree: a type is empty exactly when it equals "". */
  lemma EmptyIsEqualsEmpty(t: Type)
    ensures Empty(t) <==> Equals(t, [])
  {
  }
}
