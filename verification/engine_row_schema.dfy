/** The row schema of pkg/engine/row_schema.go and its processor in
    pkg/engine/row_schema_processor.go. The layout is that of pkg/data;
    what differs is that defaults are raw bytes, decoded through the column
    processor when a row is prepared or a schema is built. */
module EngineRowSchema {
  import opened Errors
  import opened ByteSeq
  import opened Values
  import opened SysPayload
  import opened Registration
  import EngineColumnProcessor
  import Col = EngineColumnSchema
  import opened ColumnChecks
  import RowLayout

  datatype RowSchema = RowSchema(columnSchemas: seq<Col.ColumnSchema>, rowSize: int)

  /** The value Prepare takes for a column: the caller's, when the map has
      the column's name; else the default, decoded by LoadColumn; else nil. */
  function Pick(types: Registry, c: Col.ColumnSchema, columns: map<Str, Option<Value>>): Result<Option<Value>>
  {
    if c.Name in columns then Ok(columns[c.Name])
    else if c.Default.Some? then
      var v :- Col.LoadColumn(types, c, c.Default.value);
      Ok(Some(v))
    else Ok(None)
  }

  /** What Prepare finds wrong with a column: its default does not decode,
      or its value does not validate. */
  function PrepareCheck(types: Registry, c: Col.ColumnSchema, columns: map<Str, Option<Value>>): Option<Error>
  {
    match Pick(types, c, columns)
    case Err(e) => Some(e)
    case Ok(v) => Col.ValidateColumn(c, v)
  }

  function PrepareChecks(types: Registry, s: RowSchema, columns: map<Str, Option<Value>>): nat -> Option<Error>
  {
    (i: nat) => if i < |s.columnSchemas| then PrepareCheck(types, s.columnSchemas[i], columns) else None
  }

  /** The specification of Prepare: the first failing column, or every
      column's value in schema order. */
  function Prepared(types: Registry, s: RowSchema, columns: map<Str, Option<Value>>): Result<seq<Option<Value>>>
  {
    var cs := s.columnSchemas;
    match FirstFrom(PrepareChecks(types, s, columns), |cs|, 0)
    case Some(e) => Err(e)
    case None =>
      FirstFromNone(PrepareChecks(types, s, columns), |cs|, 0);
      assert forall i | 0 <= i < |cs| :: PrepareChecks(types, s, columns)(i) == PrepareCheck(types, cs[i], columns);
      Ok(seq(|cs|, i requires 0 <= i < |cs| && Pick(types, cs[i], columns).Ok? => Pick(types, cs[i], columns).value))
  }

  /** Prepare succeeds exactly when every column's value is found (a
      default decodes) and validates; it then gives one value per column in
      schema order, and a failure is that of the first failing column. */
  lemma PreparedMeaning(types: Registry, s: RowSchema, columns: map<Str, Option<Value>>)
    ensures Prepared(types, s, columns).Ok? <==> forall i | 0 <= i < |s.columnSchemas| ::
              Pick(types, s.columnSchemas[i], columns).Ok? &&
              Col.ValidateColumn(s.columnSchemas[i], Pick(types, s.columnSchemas[i], columns).value).None?
    ensures Prepared(types, s, columns).Ok? ==>
              |Prepared(types, s, columns).value| == |s.columnSchemas| &&
              forall i | 0 <= i < |s.columnSchemas| ::
                Pick(types, s.columnSchemas[i], columns) == Ok(Prepared(types, s, columns).value[i])
    ensures Prepared(types, s, columns).Err? ==> exists i | 0 <= i < |s.columnSchemas| ::
              PrepareCheck(types, s.columnSchemas[i], columns) == Some(Prepared(types, s, columns).error) &&
              forall j | 0 <= j < i :: PrepareCheck(types, s.columnSchemas[j], columns).None?
  {
    var n := |s.columnSchemas|;
    FirstFromNone(PrepareChecks(types, s, columns), n, 0);
    assert forall i | 0 <= i < n ::
      PrepareChecks(types, s, columns)(i) == PrepareCheck(types, s.columnSchemas[i], columns);
    if Prepared(types, s, columns).Err? {
      FirstFromSome(PrepareChecks(types, s, columns), n, 0);
    }
  }

  /** A missing value without a default stays nil, and so is accepted only
      by a nullable column. */
  lemma PrepareMissingNoDefault(types: Registry, s: RowSchema, columns: map<Str, Option<Value>>, i: nat)
    requires i < |s.columnSchemas| && s.columnSchemas[i].Name !in columns && s.columnSchemas[i].Default.None?
    requires Prepared(types, s, columns).Ok?
    ensures Prepared(types, s, columns).value[i] == None && s.columnSchemas[i].Nullable
  {
    PreparedMeaning(types, s, columns);
  }

  /** RowSchema.Prepare (pkg/engine/row_schema.go:28-46). */
  method Prepare(processor: EngineColumnProcessor.ColumnProcessor, s: RowSchema, columns: map<Str, Option<Value>>)
    returns (r: Result<seq<Option<Value>>>)
    ensures r == Prepared(processor.types, s, columns)
  {
    var types := processor.types;
    var cs := s.columnSchemas;
    var res: seq<Option<Value>> := [];
    for i := 0 to |cs|
      invariant |res| == i
      invariant forall j | 0 <= j < i ::
                  Pick(types, cs[j], columns) == Ok(res[j]) && PrepareChecks(types, s, columns)(j).None?
    {
      var col := if cs[i].Name in columns then columns[cs[i].Name] else None;
      if cs[i].Name !in columns && cs[i].Default.Some? {
        var v := Col.LoadColumn(types, cs[i], cs[i].Default.value);
        if v.Err? {
          FirstFromSkip(PrepareChecks(types, s, columns), |cs|, i);
          return Err(v.error);
        }
        col := Some(v.value);
      }
      var err := Col.ValidateColumn(cs[i], col);
      if err.Some? {
        FirstFromSkip(PrepareChecks(types, s, columns), |cs|, i);
        return Err(err.value);
      }
      res := res + [col];
    }
    FirstFromNone(PrepareChecks(types, s, columns), |cs|, 0);
    assert res == seq(|cs|, i requires 0 <= i < |cs| && Pick(types, cs[i], columns).Ok? => Pick(types, cs[i], columns).value);
    return Ok(res);
  }

  /** The specification of Row: the value count must match, then the cells
      are laid out in a zeroed buffer of the row size. */
  function RowOf(s: RowSchema, cols: seq<Option<Value>>): (r: Result<seq<byte>>)
    ensures |cols| != |s.columnSchemas| ==> r == Err(CountMismatch)
    ensures |cols| == |s.columnSchemas| && s.rowSize < 0 ==> r == Err(Panic)
    ensures r.Ok? ==> |r.value| == s.rowSize
  {
    if |cols| != |s.columnSchemas| then Err(CountMismatch)
    else if s.rowSize < 0 then Err(Panic)
    else RowLayout.EncodeAll(Col.CellBytes, Col.ByteSize, s.columnSchemas, cols, Zeros(s.rowSize), 0)
  }

  /** RowSchema.Row (pkg/engine/row_schema.go:48-66). */
  method Row(s: RowSchema, cols: seq<Option<Value>>) returns (r: Result<seq<byte>>)
    ensures r == RowOf(s, cols)
  {
    if |cols| != |s.columnSchemas| {
      return Err(CountMismatch);
    }
    r := RowLayout.EncodeRow(Col.CellBytes, Col.ByteSize, s.columnSchemas, cols, s.rowSize);
  }

  /** The cell decoder of a column processor's registry. */
  function Decoder(types: Registry): (Col.ColumnSchema, seq<byte>) -> Result<Option<Value>>
  {
    (c: Col.ColumnSchema, p: seq<byte>) => Col.LoadColumnFromPayload(types, c, p)
  }

  /** The specification of Columns: the row length must be the row size,
      then each column's slice is decoded. */
  function ColumnsOf(types: Registry, s: RowSchema, row: seq<byte>): (r: Result<seq<Option<Value>>>)
    ensures |row| != s.rowSize ==> r == Err(RowSizeMismatch)
    ensures r.Ok? ==> |r.value| == |s.columnSchemas|
  {
    if |row| != s.rowSize then Err(RowSizeMismatch)
    else RowLayout.DecodeAll(Decoder(types), Col.ByteSize, s.columnSchemas, row, 0)
  }

  /** RowSchema.Columns (pkg/engine/row_schema.go:68-87). */
  method Columns(processor: EngineColumnProcessor.ColumnProcessor, s: RowSchema, row: seq<byte>)
    returns (r: Result<seq<Option<Value>>>)
    ensures r == ColumnsOf(processor.types, s, row)
  {
    if |row| != s.rowSize {
      return Err(RowSizeMismatch);
    }
    r := RowLayout.DecodeRow(Decoder(processor.types), Col.ByteSize, s.columnSchemas, row);
  }

  /** When the row size is the sum of the cell widths and every value
      encodes, column `i` occupies the bytes from the sum of the widths
      before it. */
  lemma RowIsCells(s: RowSchema, vs: seq<Option<Value>>)
    requires s.rowSize == RowLayout.Sum(Col.ByteSize, s.columnSchemas)
    requires |vs| == |s.columnSchemas|
    requires forall i | 0 <= i < |vs| :: Col.CellBytes(s.columnSchemas[i], vs[i]).Ok?
    ensures RowOf(s, vs).Ok?
    ensures forall i | 0 <= i < |vs| ::
              var off := RowLayout.Offset(Col.ByteSize, s.columnSchemas, i);
              0 <= off <= off + Col.ByteSize(s.columnSchemas[i]) <= s.rowSize &&
              RowOf(s, vs).value[off..off + Col.ByteSize(s.columnSchemas[i])] ==
                Col.CellBytes(s.columnSchemas[i], vs[i]).value
  {
    RowLayout.LaidOut(Col.CellBytes, Col.ByteSize, s.columnSchemas, vs);
  }

  /** Columns undoes Row for values the cell codec gives back, under a
      schema whose row size is the sum of its cell widths. */
  lemma RowRoundTrip(types: Registry, s: RowSchema, vs: seq<Option<Value>>)
    requires s.rowSize == RowLayout.Sum(Col.ByteSize, s.columnSchemas)
    requires |vs| == |s.columnSchemas|
    requires forall i | 0 <= i < |vs| :: Col.CellRoundTrips(types, s.columnSchemas[i], vs[i])
    ensures RowOf(s, vs).Ok? && ColumnsOf(types, s, RowOf(s, vs).value) == Ok(vs)
  {
    var cs := s.columnSchemas;
    forall i | 0 <= i < |vs|
      ensures Col.CellBytes(cs[i], vs[i]).Ok? &&
              Decoder(types)(cs[i], Col.CellBytes(cs[i], vs[i]).value) == Ok(vs[i])
    {
      Col.CellRoundTrip(types, cs[i], vs[i]);
    }
    RowLayout.RoundTrip(Col.CellBytes, Decoder(types), Col.ByteSize, cs, vs);
  }

  /** Every column schema's serialised form, in order. */
  function ColumnSections(cs: seq<Col.ColumnSchema>): (r: seq<seq<byte>>)
    ensures |r| == |cs| && forall i | 0 <= i < |cs| :: r[i] == Col.Bytes(cs[i])
  {
    seq(|cs|, i requires 0 <= i < |cs| => Col.Bytes(cs[i]))
  }

  /** The specification of Bytes: the row size, then every column schema,
      each in its own section. */
  function BytesOf(s: RowSchema): seq<byte>
  {
    FrameAll([IntAsBytes(s.rowSize)] + ColumnSections(s.columnSchemas))
  }

  /** RowSchema.Bytes (pkg/engine/row_schema.go:14-26): column schemas
      serialise without failing, so neither does the row schema. */
  method Bytes(s: RowSchema) returns (r: Result<seq<byte>>)
    ensures r == Ok(BytesOf(s))
  {
    var cs := s.columnSchemas;
    var secs: seq<seq<byte>> := [];
    for i := 0 to |cs|
      invariant |secs| == i && forall j | 0 <= j < i :: secs[j] == Col.Bytes(cs[j])
    {
      secs := secs + [Col.Bytes(cs[i])];
    }
    assert secs == ColumnSections(cs);
    return Ok(FrameAll([IntAsBytes(s.rowSize)] + secs));
  }

  /** The column schemas parsed from their sections, in order; the first
      that does not parse is reported by its position. */
  function LoadColumns(ps: seq<seq<byte>>, pos: nat): Result<seq<Col.ColumnSchema>>
    decreases |ps|
  {
    if ps == [] then Ok([])
    else
      match Col.Parse(ps[0])
      case Err(_) => Err(ColumnSchemaAt(pos))
      case Ok(c) =>
        var rest :- LoadColumns(ps[1..], pos + 1);
        Ok([c] + rest)
  }

  /** The specification of rowSchemaProcessor.Load: at least one section,
      the first a native int taken as the row size (it is not checked
      against the columns), each further one a column schema. */
  function Parse(payload: seq<byte>): (r: Result<RowSchema>)
    ensures ReadAllSpec(payload).Err? ==> r == Err(ReadAllSpec(payload).error)
    ensures ReadAllSpec(payload) == Ok([]) ==> r == Err(SectionCount)
    ensures r.Ok? ==>
              var ps := ReadAllSpec(payload).value;
              |ps| >= 1 && IntAsBytes(r.value.rowSize) == ps[0] &&
              LoadColumns(ps[1..], 0) == Ok(r.value.columnSchemas)
  {
    var ps :- ReadAllSpec(payload);
    if |ps| == 0 then Err(SectionCount)
    else
      var rowSize :- BytesAsInt(ps[0]);
      assert IntAsBytes(rowSize) == ps[0] by { BytesAsIntInverse(ps[0]); }
      var cols :- LoadColumns(ps[1..], 0);
      Ok(RowSchema(cols, rowSize))
  }

  function NameOf(c: Col.ColumnSchema): Str
  {
    c.Name
  }

  /** The checks New makes of the column at `i`, in order: it is defined,
      it has a name, no earlier column has that name, it has a type, and
      its default (if any) decodes and validates against it. */
  function Violation(types: Registry, cs: seq<Option<Col.ColumnSchema>>, i: nat): Option<Error>
  {
    if i >= |cs| then None
    else if cs[i].None? then Some(ColumnNotDefined(i))
    else
      var c := cs[i].value;
      if c.Name == [] then Some(MissingName(i))
      else if c.Name in Names(NameOf, cs[..i]) then Some(DuplicateName(i))
      else if c.Type == [] then Some(MissingType(i))
      else if c.Default.None? then None
      else
        match Col.LoadColumn(types, c, c.Default.value)
        case Err(e) => Some(DefaultError(i, e))
        case Ok(v) =>
          if Col.ValidateColumn(c, Some(v)).Some? then Some(DefaultError(i, Col.ValidateColumn(c, Some(v)).value))
          else None
  }

  function Checks(types: Registry, cs: seq<Option<Col.ColumnSchema>>): nat -> Option<Error>
  {
    (i: nat) => Violation(types, cs, i)
  }

  /** The specification of rowSchemaProcessor.New: the first failing check,
      or the columns with the sum of their cell widths as the row size. */
  function FromColumns(types: Registry, cs: seq<Option<Col.ColumnSchema>>): Result<RowSchema>
  {
    match FirstFrom(Checks(types, cs), |cs|, 0)
    case Some(e) => Err(e)
    case None => Ok(RowSchema(Defined(cs), RowLayout.Sum(Col.ByteSize, Defined(cs))))
  }

  /** New succeeds exactly when every column passes its checks; the schema
      then holds the columns in order and the row size is the sum of their
      cell widths. */
  lemma FromColumnsOk(types: Registry, cs: seq<Option<Col.ColumnSchema>>)
    ensures FromColumns(types, cs).Ok? <==> forall i | 0 <= i < |cs| :: Violation(types, cs, i).None?
    ensures FromColumns(types, cs).Ok? ==>
              |FromColumns(types, cs).value.columnSchemas| == |cs| &&
              (forall i | 0 <= i < |cs| :: cs[i] == Some(FromColumns(types, cs).value.columnSchemas[i])) &&
              FromColumns(types, cs).value.rowSize ==
                RowLayout.Sum(Col.ByteSize, FromColumns(types, cs).value.columnSchemas)
  {
    FirstFromNone(Checks(types, cs), |cs|, 0);
    assert forall i: nat :: Checks(types, cs)(i) == Violation(types, cs, i);
    if FromColumns(types, cs).Ok? {
      forall i | 0 <= i < |cs|
        ensures cs[i].Some?
      {
        assert Violation(types, cs, i).None?;
      }
      DefinedAll(cs);
    }
  }

  /** A rejected list is rejected for its first failing column. */
  lemma FromColumnsErr(types: Registry, cs: seq<Option<Col.ColumnSchema>>)
    requires FromColumns(types, cs).Err?
    ensures exists i | 0 <= i < |cs| ::
              Violation(types, cs, i) == Some(FromColumns(types, cs).error) &&
              forall j | 0 <= j < i :: Violation(types, cs, j).None?
  {
    FirstFromSome(Checks(types, cs), |cs|, 0);
    assert forall i: nat :: Checks(types, cs)(i) == Violation(types, cs, i);
  }

  /** A schema New accepts has named, typed columns with distinct names,
      and each default decodes to a value its column accepts. */
  lemma FromColumnsValid(types: Registry, cs: seq<Option<Col.ColumnSchema>>)
    requires FromColumns(types, cs).Ok?
    ensures var ss := FromColumns(types, cs).value.columnSchemas;
            forall i | 0 <= i < |ss| ::
              ss[i].Name != [] && ss[i].Type != [] &&
              (ss[i].Default.Some? ==>
                 Col.LoadColumn(types, ss[i], ss[i].Default.value).Ok? &&
                 Col.ValidateColumn(ss[i], Some(Col.LoadColumn(types, ss[i], ss[i].Default.value).value)).None?)
    ensures var ss := FromColumns(types, cs).value.columnSchemas;
            forall i, j | 0 <= i < j < |ss| :: ss[i].Name != ss[j].Name
  {
    FromColumnsOk(types, cs);
    var ss := FromColumns(types, cs).value.columnSchemas;
    forall i, j | 0 <= i < j < |ss|
      ensures ss[i].Name != ss[j].Name
    {
      assert Violation(types, cs, j).None?;
      assert cs[..j][i] == cs[i];
      NamesHas(NameOf, cs[..j], ss[i].Name);
    }
    forall i | 0 <= i < |ss|
      ensures ss[i].Name != [] && ss[i].Type != []
      ensures ss[i].Default.Some? ==>
                Col.LoadColumn(types, ss[i], ss[i].Default.value).Ok? &&
                Col.ValidateColumn(ss[i], Some(Col.LoadColumn(types, ss[i], ss[i].Default.value).value)).None?
    {
      assert Violation(types, cs, i).None?;
    }
  }

  /** rowSchemaProcessor (pkg/engine/row_schema_processor.go:29-32). */
  class RowSchemaProcessor {
    const columnSchemaProcessor: Col.ColumnSchemaProcessor
    const columnProcessor: EngineColumnProcessor.ColumnProcessor

    constructor(csp: Col.ColumnSchemaProcessor, cp: EngineColumnProcessor.ColumnProcessor)
      ensures columnSchemaProcessor == csp && columnProcessor == cp
    {
      columnSchemaProcessor := csp;
      columnProcessor := cp;
    }

    /** rowSchemaProcessor.Load (pkg/engine/row_schema_processor.go:34-60). */
    method Load(payload: seq<byte>) returns (r: Result<RowSchema>)
      ensures r == Parse(payload)
    {
      var ps :- ReadAll(payload);
      var n := |ps| - 1;
      if n < 0 {
        return Err(SectionCount);
      }
      var rowSize :- BytesAsInt(ps[0]);
      var cols :- LoadSections(columnSchemaProcessor, ps[1..]);
      return Ok(RowSchema(cols, rowSize));
    }

    /** rowSchemaProcessor.New (pkg/engine/row_schema_processor.go:62-100),
        with the column processor's registry. */
    method New(cs: seq<Option<Col.ColumnSchema>>) returns (r: Result<RowSchema>)
      ensures r == FromColumns(columnProcessor.types, cs)
    {
      r := NewWith(columnProcessor.types, cs);
    }
  }

  /** The column loop of rowSchemaProcessor.Load
      (pkg/engine/row_schema_processor.go:52-57) over the column sections. */
  method LoadSections(processor: Col.ColumnSchemaProcessor, ps: seq<seq<byte>>)
    returns (r: Result<seq<Col.ColumnSchema>>)
    ensures r == LoadColumns(ps, 0)
  {
    var cols: seq<Col.ColumnSchema> := [];
    LoadColumnsFrom(ps, 0);
    for i := 0 to |ps|
      invariant LoadColumns(ps, 0) == RowLayout.Prepend(cols, LoadColumns(ps[i..], i))
    {
      var c := processor.Load(ps[i]);
      LoadColumnsAt(ps, i);
      if c.Err? {
        return Err(ColumnSchemaAt(i));
      }
      RowLayout.PrependStep(cols, c.value, LoadColumns(ps[i + 1..], i + 1));
      cols := cols + [c.value];
    }
    LoadColumnsFrom(ps, |ps|);
    RowLayout.PrependDone(cols, LoadColumns(ps, 0));
    return Ok(cols);
  }

  /** From the first section the loop loads all of them; past the last
      there is nothing to load. */
  lemma LoadColumnsFrom(ps: seq<seq<byte>>, i: nat)
    requires i == 0 || i == |ps|
    ensures i == 0 ==> LoadColumns(ps, 0) == RowLayout.Prepend([], LoadColumns(ps[i..], i))
    ensures i == |ps| ==> LoadColumns(ps[i..], i) == Ok([])
  {
    assert ps[0..] == ps;
    RowLayout.PrependNothing(LoadColumns(ps, 0));
    assert ps[|ps|..] == [];
  }

  /** One step of LoadColumns at section `i`. */
  lemma LoadColumnsAt(ps: seq<seq<byte>>, i: nat)
    requires i < |ps|
    ensures Col.Parse(ps[i]).Err? ==> LoadColumns(ps[i..], i) == Err(ColumnSchemaAt(i))
    ensures Col.Parse(ps[i]).Ok? ==>
              LoadColumns(ps[i..], i) == RowLayout.Prepend([Col.Parse(ps[i]).value], LoadColumns(ps[i + 1..], i + 1))
  {
    assert ps[i..][0] == ps[i] && ps[i..][1..] == ps[i + 1..];
  }

  /** The loop of rowSchemaProcessor.New
      (pkg/engine/row_schema_processor.go:63-99) over the registry `types`. */
  method NewWith(types: Registry, cs: seq<Option<Col.ColumnSchema>>) returns (r: Result<RowSchema>)
    ensures r == FromColumns(types, cs)
  {
    var rowSize := 0;
    var cols: set<Str> := {};
    for i := 0 to |cs|
      invariant forall j: nat | j < i :: Checks(types, cs)(j).None?
      invariant cols == Names(NameOf, cs[..i])
      invariant rowSize == RowLayout.Sum(Col.ByteSize, Defined(cs[..i]))
    {
      NamesAppend(NameOf, cs, i);
      var err := CheckColumn(types, cs, i, cols);
      if err.Some? {
        FirstFromSkip(Checks(types, cs), |cs|, i);
        return Err(err.value);
      }
      assert Checks(types, cs)(i).None?;
      PassingThrough(Checks(types, cs), i);
      DefinedAppend(cs, i);
      var c := cs[i].value;
      cols := cols + {c.Name};
      RowLayout.SumAppend(Col.ByteSize, Defined(cs[..i]), c);
      rowSize := rowSize + Col.ByteSize(c);
    }
    assert cs[..|cs|] == cs;
    FirstFromNone(Checks(types, cs), |cs|, 0);
    return Ok(RowSchema(Defined(cs), rowSize));
  }

  /** The checks rowSchemaProcessor.New makes on the `i`-th column
      (pkg/engine/row_schema_processor.go:66-91), given the names of the
      columns before it: the first one that fails is the column's
      violation. */
  method CheckColumn(types: Registry, cs: seq<Option<Col.ColumnSchema>>, i: nat, cols: set<Str>)
    returns (err: Option<Error>)
    requires i < |cs| && cols == Names(NameOf, cs[..i])
    ensures err == Violation(types, cs, i)
  {
    if cs[i].None? {
      return Some(ColumnNotDefined(i));
    }
    var c := cs[i].value;
    if c.Name == [] {
      return Some(MissingName(i));
    }
    if c.Name in cols {
      return Some(DuplicateName(i));
    }
    if c.Type == [] {
      return Some(MissingType(i));
    }
    if c.Default.Some? {
      var col := Col.LoadColumn(types, c, c.Default.value);
      if col.Err? {
        return Some(DefaultError(i, col.error));
      }
      var e := Col.ValidateColumn(c, Some(col.value));
      if e.Some? {
        return Some(DefaultError(i, e.value));
      }
    }
    return None;
  }

  /** NewRowSchemaProcessor (pkg/engine/row_schema_processor.go:9-22):
      rejects a nil column schema processor, then a nil column processor. */
  method NewRowSchemaProcessor(csp: Col.ColumnSchemaProcessor?, cp: EngineColumnProcessor.ColumnProcessor?)
    returns (r: Result<RowSchemaProcessor>)
    ensures csp == null ==> r == Err(NilSchemaProcessor)
    ensures csp != null && cp == null ==> r == Err(NilProcessor)
    ensures r.Ok? <==> csp != null && cp != null
    ensures r.Ok? ==> fresh(r.value) && r.value.columnSchemaProcessor == csp && r.value.columnProcessor == cp
  {
    if csp == null {
      return Err(NilSchemaProcessor);
    }
    if cp == null {
      return Err(NilProcessor);
    }
    var p := new RowSchemaProcessor(csp, cp);
    return Ok(p);
  }

  /** The schema a column schema comes back as from its serialised form: a
      nil default reads back as an empty one. */
  function Reloaded(c: Col.ColumnSchema): Col.ColumnSchema
  {
    c.(Default := Some(Col.DefaultBytes(c)))
  }

  /** A schema whose row size fits a native int and each of whose column
      schemas fits, with its serialised form, in a section. */
  predicate Storable(s: RowSchema)
  {
    FitsSigned(s.rowSize, W) &&
    forall i | 0 <= i < |s.columnSchemas| ::
      Col.Storable(s.columnSchemas[i]) && Framable(Col.Bytes(s.columnSchemas[i]))
  }

  /** Every column schema as it comes back from its serialised form. */
  function ReloadedAll(cs: seq<Col.ColumnSchema>): (r: seq<Col.ColumnSchema>)
    ensures |r| == |cs| && forall i | 0 <= i < |cs| :: r[i] == Reloaded(cs[i])
  {
    if cs == [] then [] else [Reloaded(cs[0])] + ReloadedAll(cs[1..])
  }

  lemma {:induction false} LoadColumnsOf(cs: seq<Col.ColumnSchema>, ps: seq<seq<byte>>, pos: nat)
    requires |ps| == |cs| && forall i | 0 <= i < |cs| :: Col.Parse(ps[i]) == Ok(Reloaded(cs[i]))
    ensures LoadColumns(ps, pos) == Ok(ReloadedAll(cs))
    decreases |cs|
  {
    if cs != [] {
      assert forall i | 0 <= i < |cs| - 1 :: ps[1..][i] == ps[i + 1] && cs[1..][i] == cs[i + 1];
      LoadColumnsOf(cs[1..], ps[1..], pos + 1);
    }
  }

  /** The sections of a storable schema read back as the row size and the
      column schemas. */
  lemma SectionsOf(s: RowSchema)
    requires Storable(s)
    ensures ReadAllSpec(BytesOf(s)) == Ok([IntAsBytes(s.rowSize)] + ColumnSections(s.columnSchemas))
  {
    var xs := [IntAsBytes(s.rowSize)] + ColumnSections(s.columnSchemas);
    Pow256Values();
    assert AllFramable(xs);
    ReadAllRoundTrip(xs);
  }

  /** Loading what Bytes wrote restores the row size, the column count and
      every column's fields, a nil default reading back as an empty one. */
  lemma LoadOfBytes(s: RowSchema)
    requires Storable(s)
    ensures Parse(BytesOf(s)) == Ok(RowSchema(ReloadedAll(s.columnSchemas), s.rowSize))
  {
    var cs := s.columnSchemas;
    var secs := ColumnSections(cs);
    forall i | 0 <= i < |cs|
      ensures Col.Parse(secs[i]) == Ok(Reloaded(cs[i]))
    {
      Col.LoadOfBytes(cs[i]);
    }
    var xs := [IntAsBytes(s.rowSize)] + secs;
    SectionsOf(s);
    IntBytesRoundTrip(s.rowSize);
    assert xs[1..] == secs;
    LoadColumnsOf(cs, secs, 0);
  }
}
