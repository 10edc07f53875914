/** The column schema of pkg/engine/column_schema.go and its loader in
    pkg/engine/column_schema_processor.go. The type is a name, the default is
    kept as raw cell-body bytes (nil when absent), and cells use the shared
    flagged layout. The schema calls a `FromType` on its column processor
    that pkg/engine/column_processor.go does not declare; here it looks the
    type name up in the processor's registry and decodes with that type's
    codec. */
module EngineColumnSchema {
  import opened Errors
  import opened ByteSeq
  import opened Values
  import opened SysPayload
  import opened Registration
  import opened ColumnCodec
  import EngineColumnProcessor
  import GridType
  import FlagCell

  datatype ColumnSchema = ColumnSchema(
    Type: GridType.Type,
    Default: Option<seq<byte>>,
    Name: Str,
    ColumnSize: Int64,
    Nullable: bool)

  /** Column.Type(): the name of a value's type. */
  function ColumnTypeOf(v: Value): (t: GridType.Type)
    ensures t == TypeOf(v).identifier
  {
    TypeOf(v).identifier
  }

  /** processor.FromType: the registered type of that name decodes the
      payload with its codec. */
  function FromType(types: Registry, t: GridType.Type, size: int, payload: seq<byte>): (r: Result<Value>)
    ensures t !in types ==> r == Err(NotFound)
    ensures t in types ==> r == UnmarshalAs(types[t], size, payload)
  {
    var ct :- Lookup(types, t);
    UnmarshalAs(ct, size, payload)
  }

  /** ColumnSchema.ByteSize (pkg/engine/column_schema.go:86-88). */
  function ByteSize(s: ColumnSchema): (n: int)
    ensures n == s.ColumnSize + 1
  {
    FlagCell.Width(s.ColumnSize)
  }

  /** ColumnSchema.ValidateColumn (pkg/engine/column_schema.go:27-35): a nil
      value needs a nullable column, and a value's type name must be the
      schema's. */
  function ValidateColumn(s: ColumnSchema, v: Option<Value>): (r: Option<Error>)
    ensures r.None? <==> (v.None? ==> s.Nullable) && (v.Some? ==> ColumnTypeOf(v.value) == s.Type)
    ensures v.None? && !s.Nullable ==> r == Some(NotNullable)
    ensures v.Some? && r.Some? ==> r == Some(TypeMismatch)
  {
    if !s.Nullable && v.None? then Some(NotNullable)
    else if v.Some? && ColumnTypeOf(v.value) != s.Type then Some(TypeMismatch)
    else None
  }

  /** The cell ColumnBytes returns. */
  function CellBytes(s: ColumnSchema, v: Option<Value>): (r: Result<seq<byte>>)
    ensures ByteSize(s) < 0 ==> r == Err(Panic)
    ensures ByteSize(s) >= 0 && ValidateColumn(s, v).Some? ==> r == Err(ValidateColumn(s, v).value)
    ensures r.Ok? ==> ValidateColumn(s, v).None? && |r.value| == ByteSize(s)
    ensures r.Ok? && v.None? ==> r.value == Zeros(ByteSize(s))
    ensures r.Ok? && v.Some? ==>
              |r.value| > 0 && r.value[0] == 0xFF && MarshalValue(v.value, s.ColumnSize) == Ok(r.value[1..])
  {
    FlagCell.Encode(s.ColumnSize, s.Nullable, ValidateColumn(s, v), v)
  }

  /** ColumnSchema.ColumnBytes (pkg/engine/column_schema.go:37-55). */
  method ColumnBytes(s: ColumnSchema, v: Option<Value>) returns (r: Result<seq<byte>>)
    ensures r == CellBytes(s, v)
  {
    r := FlagCell.Marshal(s.ColumnSize, s.Nullable, ValidateColumn(s, v), v);
  }

  /** ColumnSchema.LoadColumn (pkg/engine/column_schema.go:57-64): the whole
      payload goes to the processor; no flag byte is stripped. */
  function LoadColumn(types: Registry, s: ColumnSchema, payload: seq<byte>): (r: Result<Value>)
    ensures r == FromType(types, s.Type, s.ColumnSize, payload)
  {
    FromType(types, s.Type, s.ColumnSize, payload)
  }

  /** ColumnSchema.LoadColumnFromPayload (pkg/engine/column_schema.go:66-84). */
  function LoadColumnFromPayload(types: Registry, s: ColumnSchema, payload: seq<byte>): (r: Result<Option<Value>>)
    ensures |payload| != ByteSize(s) ==> r == Err(CellSizeMismatch)
    ensures r == Ok(None) <==> |payload| == ByteSize(s) > 0 && payload[0] == 0 && s.Nullable
    ensures r == Err(NullInNotNullable) <==> |payload| == ByteSize(s) > 0 && payload[0] == 0 && !s.Nullable
    ensures r.Ok? && r.value.Some? ==>
              |payload| > 0 && payload[0] != 0 &&
              LoadColumn(types, s, payload[1..]) == Ok(r.value.value)
  {
    var body :- FlagCell.Body(s.ColumnSize, s.Nullable, payload);
    if body.None? then Ok(None)
    else
      var v :- LoadColumn(types, s, body.value);
      Ok(Some(v))
  }

  /** A value the cell codec gives back: null on a nullable column, or a
      value of a type registered under the schema's type name whose codec
      round-trips it. */
  predicate CellRoundTrips(types: Registry, s: ColumnSchema, v: Option<Value>)
  {
    s.ColumnSize >= 0 && ValidateColumn(s, v).None? &&
    (v.Some? ==> s.Type in types && types[s.Type] == TypeOf(v.value) && RoundTrips(v.value, s.ColumnSize))
  }

  /** LoadColumnFromPayload undoes ColumnBytes. */
  lemma CellRoundTrip(types: Registry, s: ColumnSchema, v: Option<Value>)
    requires CellRoundTrips(types, s, v)
    ensures CellBytes(s, v).Ok? && LoadColumnFromPayload(types, s, CellBytes(s, v).value) == Ok(v)
  {
    if v.Some? {
      CodecRoundTrip(v.value, s.ColumnSize);
    }
  }

  /** The default section: the raw default, or nothing for a nil one. */
  function DefaultBytes(s: ColumnSchema): (r: seq<byte>)
    ensures s.Default.Some? ==> r == s.Default.value
    ensures s.Default.None? ==> r == []
  {
    if s.Default.Some? then s.Default.value else []
  }

  /** The five section bodies of Bytes, in order: type, default, name, column
      size and nullable flag. */
  function Sections(s: ColumnSchema): (r: seq<seq<byte>>)
    ensures |r| == 5
  {
    [GridType.Bytes(s.Type), DefaultBytes(s), s.Name, IntAsBytes(s.ColumnSize), BoolAsBytes(s.Nullable)]
  }

  /** ColumnSchema.Bytes (pkg/engine/column_schema.go:17-25): never fails. */
  function Bytes(s: ColumnSchema): (r: seq<byte>)
    ensures r == FrameAll(Sections(s))
  {
    FrameAll(Sections(s))
  }

  /** The schema five section bodies describe: a UTF-8 type name, a UTF-8
      name, a native int, a one-byte bool, and the default kept raw. */
  function FromSections(ss: seq<seq<byte>>): (r: Result<ColumnSchema>)
    ensures |ss| != 5 ==> r == Err(SectionCount)
    ensures |ss| == 5 && !ValidUtf8(ss[0]) ==> r == Err(InvalidUtf8)
    ensures |ss| == 5 && ValidUtf8(ss[0]) && !ValidUtf8(ss[2]) ==> r == Err(InvalidUtf8)
    ensures r.Ok? ==>
              |ss| == 5 && GridType.Bytes(r.value.Type) == ss[0] && r.value.Default == Some(ss[1]) &&
              r.value.Name == ss[2] && ValidUtf8(ss[2]) && IntAsBytes(r.value.ColumnSize) == ss[3] &&
              |ss[4]| == 1 && (r.value.Nullable <==> ss[4][0] != 0)
  {
    if |ss| != 5 then Err(SectionCount)
    else
      var t :- GridType.Load(ss[0]);
      if !ValidUtf8(ss[2]) then Err(InvalidUtf8)
      else
        var size :- BytesAsInt(ss[3]);
        assert IntAsBytes(size) == ss[3] by { BytesAsIntInverse(ss[3]); }
        var nullable :- BytesAsBool(ss[4]);
        Ok(ColumnSchema(t, Some(ss[1]), ss[2], size, nullable))
  }

  /** The specification of columnSchemaProcessor.Load. */
  function Parse(payload: seq<byte>): (r: Result<ColumnSchema>)
    ensures ReadAllSpec(payload).Err? ==> r == Err(ReadAllSpec(payload).error)
    ensures ReadAllSpec(payload).Ok? ==> r == FromSections(ReadAllSpec(payload).value)
  {
    var ss :- ReadAllSpec(payload);
    FromSections(ss)
  }

  /** columnSchemaProcessor (pkg/engine/column_schema_processor.go:23-25). */
  class ColumnSchemaProcessor {
    const columnProcessor: EngineColumnProcessor.ColumnProcessor

    constructor(cp: EngineColumnProcessor.ColumnProcessor)
      ensures columnProcessor == cp
    {
      columnProcessor := cp;
    }

    /** columnSchemaProcessor.Load (pkg/engine/column_schema_processor.go:27-55):
        fills a fresh schema field by field. */
    method Load(payload: seq<byte>) returns (r: Result<ColumnSchema>)
      ensures r == Parse(payload)
    {
      var payloads :- ReadAll(payload);
      if |payloads| != 5 {
        return Err(SectionCount);
      }
      var schema := ColumnSchema([], None, [], 0, false);
      var t :- GridType.Load(payloads[0]);
      schema := schema.(Type := t);
      if !ValidUtf8(payloads[2]) {
        return Err(InvalidUtf8);
      }
      schema := schema.(Name := payloads[2]);
      var size :- BytesAsInt(payloads[3]);
      assert FitsSigned(size, W) by {
        BytesAsIntInverse(payloads[3]);
        Pow256Values();
      }
      schema := schema.(ColumnSize := size);
      var nullable :- BytesAsBool(payloads[4]);
      schema := schema.(Nullable := nullable);
      schema := schema.(Default := Some(payloads[1]));
      return Ok(schema);
    }
  }

  /** NewColumnSchemaProcessor (pkg/engine/column_schema_processor.go:15-21):
      rejects a nil column processor. */
  method NewColumnSchemaProcessor(cp: EngineColumnProcessor.ColumnProcessor?) returns (r: Result<ColumnSchemaProcessor>)
    ensures cp == null <==> r == Err(NilProcessor)
    ensures r.Ok? ==> fresh(r.value) && r.value.columnProcessor == cp
  {
    if cp == null {
      return Err(NilProcessor);
    }
    var p := new ColumnSchemaProcessor(cp);
    return Ok(p);
  }

  /** A schema whose sections all fit a native int length prefix and whose
      names are UTF-8. */
  predicate Storable(s: ColumnSchema)
  {
    ValidUtf8(s.Type) && ValidUtf8(s.Name) &&
    Framable(s.Type) && Framable(s.Name) && Framable(DefaultBytes(s))
  }

  /** Load undoes Bytes on every field, except that a nil default comes back
      as an empty, non-nil one: the default section cannot tell them apart. */
  lemma LoadOfBytes(s: ColumnSchema)
    requires Storable(s)
    ensures Parse(Bytes(s)) == Ok(s.(Default := Some(DefaultBytes(s))))
  {
    var ss := Sections(s);
    Pow256Values();
    assert AllFramable(ss);
    ReadAllRoundTrip(ss);
    IntBytesRoundTrip(s.ColumnSize);
  }

  /** A schema without a default does not survive Bytes and Load unchanged. */
  lemma NilDefaultReloadsEmpty(s: ColumnSchema)
    requires Storable(s) && s.Default.None?
    ensures Parse(Bytes(s)).Ok? && Parse(Bytes(s)).value.Default == Some([])
    ensures Parse(Bytes(s)) != Ok(s)
  {
    LoadOfBytes(s);
  }
}
