/** The column schema of pkg/data/column_schema.go: a fixed-width cell codec
    whose first byte flags presence (0x00 for null, 0xFF otherwise), and its
    serialisation as five sized sections. internal/grid/column_schema.go
    repeats the cell codec without a column processor (InternalGrid). */
module DataColumnSchema {
  import opened Errors
  import opened ByteSeq
  import opened Values
  import opened SysPayload
  import opened Registration
  import opened ColumnCodec
  import opened EngineColumnProcessor
  import FlagCell

  datatype ColumnSchema = ColumnSchema(
    Type: RType,
    Default: Option<Value>,
    Name: Str,
    ColumnSize: Int64,
    Nullable: bool)

  /** ByteSize: the cell width, one flag byte more than the column size. */
  function ByteSize(s: ColumnSchema): (n: int)
    ensures n == s.ColumnSize + 1
  {
    FlagCell.Width(s.ColumnSize)
  }

  /** Validate: a nil value needs a nullable column, and a non-nil value must
      have exactly the schema's type. Naming the wanted type goes through
      reflect.New(s.Type).(Column), which panics when the schema's type is
      nil or not a Column. */
  function Validate(s: ColumnSchema, v: Option<Value>): (r: Option<Error>)
    ensures r.None? <==> (v.None? ==> s.Nullable) && (v.Some? ==> s.Type == Column(TypeOf(v.value)))
    ensures v.None? && !s.Nullable ==> r == Some(NotNullable)
    ensures v.Some? && r.Some? ==> r == Some(if s.Type.Column? then TypeMismatch else Panic)
  {
    if !s.Nullable && v.None? then Some(NotNullable)
    else if v.Some? && s.Type != Column(TypeOf(v.value)) then
      (if s.Type.Column? then Some(TypeMismatch) else Some(Panic))
    else None
  }

  /** The cell Marshal produces: the shared flagged layout, with this
      schema's validation. */
  function CellBytes(s: ColumnSchema, v: Option<Value>): (r: Result<seq<byte>>)
    ensures ByteSize(s) < 0 ==> r == Err(Panic)
    ensures ByteSize(s) >= 0 && Validate(s, v).Some? ==> r == Err(Validate(s, v).value)
    ensures r.Ok? ==> Validate(s, v).None? && |r.value| == ByteSize(s)
    ensures r.Ok? && v.None? ==> r.value == Zeros(ByteSize(s))
    ensures r.Ok? && v.Some? ==>
              |r.value| > 0 && r.value[0] == 0xFF && MarshalValue(v.value, s.ColumnSize) == Ok(r.value[1..])
  {
    FlagCell.Encode(s.ColumnSize, s.Nullable, Validate(s, v), v)
  }

  /** ColumnSchema.Marshal (pkg/data/column_schema.go:87-104). */
  method Marshal(s: ColumnSchema, v: Option<Value>) returns (r: Result<seq<byte>>)
    ensures r == CellBytes(s, v)
  {
    r := FlagCell.Marshal(s.ColumnSize, s.Nullable, Validate(s, v), v);
  }

  /** ColumnSchema.Unmarshal (pkg/data/column_schema.go:106-124): checks the
      width, reads the flag, and decodes the rest through the schema's type. */
  function Unmarshal(s: ColumnSchema, payload: seq<byte>): (r: Result<Option<Value>>)
    ensures |payload| != ByteSize(s) ==> r == Err(CellSizeMismatch)
    ensures |payload| == ByteSize(s) == 0 ==> r == Err(Panic)
    ensures r == Ok(None) <==> |payload| == ByteSize(s) > 0 && payload[0] == 0 && s.Nullable
    ensures r == Err(NullInNotNullable) <==> |payload| == ByteSize(s) > 0 && payload[0] == 0 && !s.Nullable
    ensures r.Ok? && r.value.Some? ==>
              |payload| > 0 && payload[0] != 0 &&
              FromReflectionType(s.Type, s.ColumnSize, payload[1..]) == Ok(r.value.value)
    ensures |payload| == ByteSize(s) > 0 && payload[0] != 0 && FromReflectionType(s.Type, s.ColumnSize, payload[1..]).Err? ==>
              r == Err(FromReflectionType(s.Type, s.ColumnSize, payload[1..]).error)
  {
    var body :- FlagCell.Body(s.ColumnSize, s.Nullable, payload);
    if body.None? then Ok(None)
    else
      var v :- FromReflectionType(s.Type, s.ColumnSize, body.value);
      Ok(Some(v))
  }

  /** A value the cell codec gives back: null on a nullable column, or a
      value of the column's type that its codec round-trips. */
  predicate CellRoundTrips(s: ColumnSchema, v: Option<Value>)
  {
    s.ColumnSize >= 0 && Validate(s, v).None? && (v.Some? ==> RoundTrips(v.value, s.ColumnSize))
  }

  /** Unmarshal undoes Marshal, for null and non-null values alike. */
  lemma CellRoundTrip(s: ColumnSchema, v: Option<Value>)
    requires CellRoundTrips(s, v)
    ensures CellBytes(s, v).Ok? && Unmarshal(s, CellBytes(s, v).value) == Ok(v)
  {
    if v.Some? {
      CodecRoundTrip(v.value, s.ColumnSize);
    }
  }

  /** A null cell of a not-nullable column is rejected on the way back. */
  lemma NullCellNotNullable(s: ColumnSchema)
    requires s.ColumnSize >= 0 && !s.Nullable
    ensures Unmarshal(s, Zeros(ByteSize(s))) == Err(NullInNotNullable)
  {
  }

  /** The default section of Bytes: zeros for a nil default, its cell otherwise. */
  function DefaultSection(s: ColumnSchema): (r: Result<seq<byte>>)
  {
    if s.Default.None? then
      (if ByteSize(s) < 0 then Err(Panic) else Ok(Zeros(ByteSize(s))))
    else CellBytes(s, s.Default)
  }

  /** The five section bodies of Bytes, in order: type identifier, default,
      name, column size and nullable flag. */
  function Sections(s: ColumnSchema, d: seq<byte>): (r: seq<seq<byte>>)
    requires s.Type.Column?
    ensures |r| == 5
  {
    [s.Type.ct.identifier, d, s.Name, IntAsBytes(s.ColumnSize), BoolAsBytes(s.Nullable)]
  }

  /** ColumnSchema.Bytes (pkg/data/column_schema.go:52-70): five framed
      sections. The identifier comes from reflect.New(s.Type).(Column), which
      panics for a type that is nil or not a Column. */
  function Bytes(s: ColumnSchema): (r: Result<seq<byte>>)
    ensures !s.Type.Column? ==> r == Err(Panic)
    ensures s.Type.Column? && s.Default.None? && ByteSize(s) < 0 ==> r == Err(Panic)
    ensures s.Type.Column? && s.Default.Some? && CellBytes(s, s.Default).Err? ==>
              r == Err(CellBytes(s, s.Default).error)
    ensures r.Ok? ==> (s.Type.Column? && DefaultSection(s).Ok? &&
                       r.value == FrameAll(Sections(s, DefaultSection(s).value)))
  {
    if !s.Type.Column? then Err(Panic)
    else
      var d :- DefaultSection(s);
      Ok(FrameAll(Sections(s, d)))
  }

  /** The specification of LoadColumnSchemaFromBytes: the sections of
      `payload`, then the schema they describe. */
  function Load(types: Registry, payload: seq<byte>): (r: Result<ColumnSchema>)
    ensures ReadAllSpec(payload).Err? ==> r == Err(ReadAllSpec(payload).error)
    ensures ReadAllSpec(payload).Ok? ==> r == FromSections(types, ReadAllSpec(payload).value)
  {
    var ss :- ReadAllSpec(payload);
    FromSections(types, ss)
  }

  /** The schema five section bodies describe: a registered type
      identifier, a name, a native int, a one-byte bool, and a default
      decoded only when its section starts with 0xFF. */
  function FromSections(types: Registry, ss: seq<seq<byte>>): (r: Result<ColumnSchema>)
    ensures |ss| != 5 ==> r == Err(SectionCount)
    ensures |ss| == 5 && ss[0] !in types ==> r == Err(NotFound)
    ensures r.Ok? ==>
              |ss| == 5 && ss[0] in types && r.value.Type == Column(types[ss[0]]) &&
              r.value.Name == ss[2] && IntAsBytes(r.value.ColumnSize) == ss[3] &&
              |ss[4]| == 1 && (r.value.Nullable <==> ss[4][0] != 0) &&
              |ss[1]| > 0 && (r.value.Default.Some? <==> ss[1][0] == 0xFF)
  {
    if |ss| != 5 then Err(SectionCount)
    else
      var t :- Lookup(types, ss[0]);
      var size :- BytesAsInt(ss[3]);
      assert IntAsBytes(size) == ss[3] by { BytesAsIntInverse(ss[3]); }
      var nullable :- BytesAsBool(ss[4]);
      var schema := ColumnSchema(Column(t), None, ss[2], size, nullable);
      if |ss[1]| == 0 then Err(Panic)
      else if ss[1][0] == 0xFF then
        var d :- Unmarshal(schema, ss[1]);
        Ok(schema.(Default := d))
      else Ok(schema)
  }

  /** LoadColumnSchemaFromBytes (pkg/data/column_schema.go:11-42): fills a
      fresh schema field by field from the sections of `payload`. */
  method LoadColumnSchemaFromBytes(processor: ColumnProcessor, payload: seq<byte>)
    returns (r: Result<ColumnSchema>)
    ensures r == Load(processor.types, payload)
  {
    var payloads :- ReadAll(payload);
    if |payloads| != 5 {
      return Err(SectionCount);
    }
    var schema := ColumnSchema(NilType, None, [], 0, false);
    var t :- processor.ReflectionType(payloads[0]);
    schema := schema.(Type := Column(t));
    schema := schema.(Name := payloads[2]);
    var size :- BytesAsInt(payloads[3]);
    assert FitsSigned(size, W) by {
      BytesAsIntInverse(payloads[3]);
      Pow256Values();
    }
    schema := schema.(ColumnSize := size);
    var nullable :- BytesAsBool(payloads[4]);
    schema := schema.(Nullable := nullable);
    if |payloads[1]| == 0 {
      return Err(Panic);
    }
    if payloads[1][0] == 0xFF {
      var d :- Unmarshal(schema, payloads[1]);
      schema := schema.(Default := d);
    }
    return Ok(schema);
  }

  /** A schema whose sections all fit a native int length prefix. */
  predicate Storable(s: ColumnSchema)
  {
    s.Type.Column? && Framable(s.Type.ct.identifier) && Framable(s.Name) &&
    0 <= s.ColumnSize && ByteSize(s) < Pow256(W) / 2
  }

  /** Loading what Bytes wrote gives the schema back, when its type is
      registered under its own identifier and its default (if any) is a
      value of that type that the codec round-trips. */
  lemma LoadOfBytes(types: Registry, s: ColumnSchema)
    requires Storable(s)
    requires s.Type.ct.identifier in types && types[s.Type.ct.identifier] == s.Type.ct
    requires s.Default.Some? ==> CellRoundTrips(s, s.Default)
    ensures Bytes(s).Ok? && Load(types, Bytes(s).value) == Ok(s)
  {
    if s.Default.Some? {
      CellRoundTrip(s, s.Default);
    }
    var d := DefaultSection(s).value;
    var ss := Sections(s, d);
    Pow256Values();
    assert AllFramable(ss);
    ReadAllRoundTrip(ss);
    FromSectionsOfSchema(types, s, d);
  }

  /** The sections of a schema describe that schema. */
  lemma FromSectionsOfSchema(types: Registry, s: ColumnSchema, d: seq<byte>)
    requires Storable(s)
    requires s.Type.ct.identifier in types && types[s.Type.ct.identifier] == s.Type.ct
    requires s.Default.Some? ==> CellRoundTrips(s, s.Default)
    requires DefaultSection(s) == Ok(d)
    ensures FromSections(types, Sections(s, d)) == Ok(s)
  {
    Pow256Values();
    IntBytesRoundTrip(s.ColumnSize);
    if s.Default.Some? {
      CellRoundTrip(s, s.Default);
      var schema := ColumnSchema(s.Type, None, s.Name, s.ColumnSize, s.Nullable);
      assert Unmarshal(schema, d) == Unmarshal(s, d);
    }
  }
}
