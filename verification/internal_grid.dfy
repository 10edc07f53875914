/** The cell codec and row schema of internal/grid/column_schema.go and
    internal/grid/schema.go. They hold the column schema of pkg/data and the
    same flagged cells, row loops and checks, but decode without a column
    processor: ColumnSchema.Unmarshal calls a three-argument
    data.ColumnFromType(type, size, payload), a form pkg/data/column.go does
    not declare. It is read here as decoding with the type's own sized codec,
    and proved to agree with FromReflectionType, which reads no registry. */
module InternalGrid {
  import opened Errors
  import opened ByteSeq
  import opened Values
  import opened ColumnCodec
  import FlagCell
  import EngineColumnProcessor
  import Col = DataColumnSchema
  import Rows = DataRowSchema
  import RowLayout

  /** ColumnSchema.ByteSize (internal/grid/column_schema.go:19-21). */
  function ByteSize(s: Col.ColumnSchema): (n: int)
    ensures n == s.ColumnSize + 1
  {
    FlagCell.Width(s.ColumnSize)
  }

  /** ColumnSchema.Validate (internal/grid/column_schema.go:23-34): nil needs
      a nullable column, a value needs exactly the schema's type, and naming
      the wanted type panics when the schema's type is not a Column. */
  function Validate(s: Col.ColumnSchema, v: Option<Value>): (r: Option<Error>)
    ensures r.None? <==> (v.None? ==> s.Nullable) && (v.Some? ==> s.Type == Column(TypeOf(v.value)))
    ensures v.None? && !s.Nullable ==> r == Some(NotNullable)
    ensures v.Some? && r.Some? ==> r == Some(if s.Type.Column? then TypeMismatch else Panic)
  {
    Col.Validate(s, v)
  }

  /** ColumnSchema.Marshal (internal/grid/column_schema.go:36-51): the
      flagged cell of pkg/data. */
  method Marshal(s: Col.ColumnSchema, v: Option<Value>) returns (r: Result<seq<byte>>)
    ensures r == Col.CellBytes(s, v)
  {
    r := FlagCell.Marshal(s.ColumnSize, s.Nullable, Validate(s, v), v);
  }

  /** The call data.ColumnFromType(s.Type, s.ColumnSize, payload[1:])
      (internal/grid/column_schema.go:65): the Implements test panics on a
      nil type and refuses a type that is not a Column; otherwise the type's
      own codec decodes, its error wrapped as "cannot parse column". */
  function ColumnFromType(t: RType, size: int, payload: seq<byte>): (r: Result<Value>)
    ensures t == NilType ==> r == Err(Panic)
    ensures t == NotAColumn ==> r == Err(DoesNotImplement)
    ensures t.Column? && UnmarshalAs(t.ct, size, payload).Ok? ==> r == UnmarshalAs(t.ct, size, payload)
    ensures t.Column? && UnmarshalAs(t.ct, size, payload).Err? ==>
              r == Err(CannotParseColumn(UnmarshalAs(t.ct, size, payload).error))
  {
    if t == NilType then Err(Panic)
    else if t == NotAColumn then Err(DoesNotImplement)
    else
      match UnmarshalAs(t.ct, size, payload)
      case Ok(v) => Ok(v)
      case Err(e) => Err(CannotParseColumn(e))
  }

  /** Decoding by the type alone is what the column processor of pkg/data
      and pkg/engine does, whatever its registry holds. */
  lemma ColumnFromTypeAgrees(t: RType, size: int, payload: seq<byte>)
    ensures ColumnFromType(t, size, payload) == EngineColumnProcessor.FromReflectionType(t, size, payload)
  {
  }

  /** ColumnSchema.Unmarshal (internal/grid/column_schema.go:53-71): width
      check, flag, then ColumnFromType on the rest of the cell. */
  function Unmarshal(s: Col.ColumnSchema, payload: seq<byte>): (r: Result<Option<Value>>)
    ensures |payload| != ByteSize(s) ==> r == Err(CellSizeMismatch)
    ensures r == Ok(None) <==> |payload| == ByteSize(s) > 0 && payload[0] == 0 && s.Nullable
    ensures r == Err(NullInNotNullable) <==> |payload| == ByteSize(s) > 0 && payload[0] == 0 && !s.Nullable
    ensures r.Ok? && r.value.Some? ==>
              |payload| > 0 && payload[0] != 0 && s.Type.Column? &&
              UnmarshalAs(s.Type.ct, s.ColumnSize, payload[1..]) == Ok(r.value.value)
  {
    var body :- FlagCell.Body(s.ColumnSize, s.Nullable, payload);
    if body.None? then Ok(None)
    else
      var v :- ColumnFromType(s.Type, s.ColumnSize, body.value);
      Ok(Some(v))
  }

  /** The processor-free decode of internal/grid reads every cell as the
      pkg/data decode does. */
  lemma UnmarshalAgrees(s: Col.ColumnSchema, payload: seq<byte>)
    ensures Unmarshal(s, payload) == Col.Unmarshal(s, payload)
  {
    if |payload| == ByteSize(s) > 0 && payload[0] != 0 {
      ColumnFromTypeAgrees(s.Type, s.ColumnSize, payload[1..]);
    }
  }

  /** Unmarshal undoes Marshal for null and for values the codec keeps. */
  lemma CellRoundTrip(s: Col.ColumnSchema, v: Option<Value>)
    requires Col.CellRoundTrips(s, v)
    ensures Col.CellBytes(s, v).Ok? && Unmarshal(s, Col.CellBytes(s, v).value) == Ok(v)
  {
    Col.CellRoundTrip(s, v);
    UnmarshalAgrees(s, Col.CellBytes(s, v).value);
  }

  /** Decoding a row cell by cell with this generation's Unmarshal gives the
      pkg/data result. */
  lemma DecodeAllAgrees(cs: seq<Col.ColumnSchema>, row: seq<byte>)
    ensures RowLayout.DecodeAll(Unmarshal, Col.ByteSize, cs, row, 0) ==
            RowLayout.DecodeAll(Col.Unmarshal, Col.ByteSize, cs, row, 0)
  {
    forall s: Col.ColumnSchema, p: seq<byte>
      ensures Unmarshal(s, p) == Col.Unmarshal(s, p)
    {
      UnmarshalAgrees(s, p);
    }
    SameDecoders(Unmarshal, Col.Unmarshal, Col.ByteSize, cs, row, 0);
  }

  /** Two decoders that agree on every cell decode every row alike. */
  lemma {:induction false} SameDecoders<S, V>(f: (S, seq<byte>) -> Result<V>, g: (S, seq<byte>) -> Result<V>,
                                              width: S -> int, cs: seq<S>, row: seq<byte>, start: int)
    requires forall s, p :: f(s, p) == g(s, p)
    ensures RowLayout.DecodeAll(f, width, cs, row, start) == RowLayout.DecodeAll(g, width, cs, row, start)
    decreases |cs|
  {
    if cs != [] {
      SameDecoders(f, g, width, cs[1..], row, start + width(cs[0]));
    }
  }

  /** NewRowSchema (internal/grid/schema.go:14-48): the checks and the
      summed row size of pkg/data's NewRowSchema. */
  method NewRowSchema(cs: seq<Option<Col.ColumnSchema>>) returns (r: Result<Rows.RowSchema>)
    ensures r == Rows.FromColumns(cs)
  {
    r := Rows.NewRowSchema(cs);
  }

  /** RowSchema.Prepare (internal/grid/schema.go:50-64). */
  method Prepare(s: Rows.RowSchema, columns: map<Str, Option<Value>>) returns (r: Result<seq<Option<Value>>>)
    ensures r == Rows.Prepared(s, columns)
  {
    r := Rows.Prepare(s, columns);
  }

  /** RowSchema.Row (internal/grid/schema.go:66-84). */
  method Row(s: Rows.RowSchema, cols: seq<Option<Value>>) returns (r: Result<seq<byte>>)
    ensures r == Rows.RowOf(s, cols)
  {
    if |cols| != |s.columnSchemas| {
      return Err(CountMismatch);
    }
    r := RowLayout.EncodeRow(Col.CellBytes, Col.ByteSize, s.columnSchemas, cols, s.rowSize);
  }

  /** RowSchema.Columns (internal/grid/schema.go:86-105): the same loop,
      decoding each cell with this generation's Unmarshal. */
  method Columns(s: Rows.RowSchema, row: seq<byte>) returns (r: Result<seq<Option<Value>>>)
    ensures r == Rows.ColumnsOf(s, row)
  {
    if |row| != s.rowSize {
      return Err(RowSizeMismatch);
    }
    r := RowLayout.DecodeRow(Unmarshal, Col.ByteSize, s.columnSchemas, row);
    DecodeAllAgrees(s.columnSchemas, row);
  }

  /** RowSchema.ByteSize (internal/grid/schema.go:107-109). */
  function RowByteSize(s: Rows.RowSchema): int
  {
    s.rowSize
  }

  /** The row size of an accepted schema is the sum of its cell widths, each
      one byte more than its column size. */
  lemma RowByteSizeOfNew(cs: seq<Option<Col.ColumnSchema>>)
    requires Rows.FromColumns(cs).Ok?
    ensures RowByteSize(Rows.FromColumns(cs).value) == RowLayout.Sum(ByteSize, Rows.FromColumns(cs).value.columnSchemas)
  {
    Rows.FromColumnsOk(cs);
    SumAgrees(Rows.FromColumns(cs).value.columnSchemas);
  }

  lemma {:induction false} SumAgrees(cs: seq<Col.ColumnSchema>)
    ensures RowLayout.Sum(ByteSize, cs) == RowLayout.Sum(Col.ByteSize, cs)
    decreases |cs|
  {
    if cs != [] {
      SumAgrees(cs[1..]);
    }
  }

  /** Columns undoes Row for values the cell codec keeps, under a schema
      NewRowSchema accepted. */
  lemma RowRoundTrip(cs: seq<Option<Col.ColumnSchema>>, vs: seq<Option<Value>>)
    requires Rows.FromColumns(cs).Ok?
    requires |vs| == |Rows.FromColumns(cs).value.columnSchemas|
    requires forall i | 0 <= i < |vs| :: Col.CellRoundTrips(Rows.FromColumns(cs).value.columnSchemas[i], vs[i])
    ensures Rows.RowOf(Rows.FromColumns(cs).value, vs).Ok?
    ensures Rows.ColumnsOf(Rows.FromColumns(cs).value, Rows.RowOf(Rows.FromColumns(cs).value, vs).value) == Ok(vs)
  {
    Rows.FromColumnsOk(cs);
    Rows.RowRoundTrip(Rows.FromColumns(cs).value, vs);
  }
}
