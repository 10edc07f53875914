/** The row schema of pkg/data/schema.go: an ordered list of column schemas
    and the row size, the sum of their cell widths. A row is the cells of
    its values side by side; the schema itself is serialised as the row
    size followed by each column schema, every part a sized section.
    internal/grid/schema.go repeats NewRowSchema, Prepare, Row and Columns
    over the same column schema (InternalGrid). */
module DataRowSchema {
  import opened Errors
  import opened ByteSeq
  import opened Values
  import opened SysPayload
  import opened Registration
  import EngineColumnProcessor
  import Col = DataColumnSchema
  import opened ColumnChecks
  import RowLayout

  datatype RowSchema = RowSchema(columnSchemas: seq<Col.ColumnSchema>, rowSize: int)

  function NameOf(c: Col.ColumnSchema): Str
  {
    c.Name
  }

  /** The checks NewRowSchema makes of the column at `i`, in order: it is
      defined, it has a name, no earlier column has that name, it has a
      type, and its default (if any) validates against it. */
  function Violation(cs: seq<Option<Col.ColumnSchema>>, i: nat): Option<Error>
  {
    if i >= |cs| then None
    else if cs[i].None? then Some(ColumnNotDefined(i))
    else
      var c := cs[i].value;
      if c.Name == [] then Some(MissingName(i))
      else if c.Name in Names(NameOf, cs[..i]) then Some(DuplicateName(i))
      else if c.Type == NilType then Some(MissingType(i))
      else if c.Default.Some? && Col.Validate(c, c.Default).Some? then
        Some(DefaultError(i, Col.Validate(c, c.Default).value))
      else None
  }

  function Checks(cs: seq<Option<Col.ColumnSchema>>): nat -> Option<Error>
  {
    (i: nat) => Violation(cs, i)
  }

  /** The specification of NewRowSchema: the first failing check, or the
      defined columns with the sum of their cell widths as the row size. */
  function FromColumns(cs: seq<Option<Col.ColumnSchema>>): Result<RowSchema>
  {
    match FirstFrom(Checks(cs), |cs|, 0)
    case Some(e) => Err(e)
    case None => Ok(RowSchema(Defined(cs), RowLayout.Sum(Col.ByteSize, Defined(cs))))
  }

  /** NewRowSchema succeeds exactly when every column passes its checks;
      the schema then holds the columns in order and the row size is the sum
      of their cell widths. */
  lemma FromColumnsOk(cs: seq<Option<Col.ColumnSchema>>)
    ensures FromColumns(cs).Ok? <==> forall i | 0 <= i < |cs| :: Violation(cs, i).None?
    ensures FromColumns(cs).Ok? ==>
              |FromColumns(cs).value.columnSchemas| == |cs| &&
              (forall i | 0 <= i < |cs| :: cs[i] == Some(FromColumns(cs).value.columnSchemas[i])) &&
              FromColumns(cs).value.rowSize == RowLayout.Sum(Col.ByteSize, FromColumns(cs).value.columnSchemas)
  {
    FirstFromNone(Checks(cs), |cs|, 0);
    assert forall i: nat :: Checks(cs)(i) == Violation(cs, i);
    if FromColumns(cs).Ok? {
      forall i | 0 <= i < |cs|
        ensures cs[i].Some?
      {
        assert Violation(cs, i).None?;
      }
      DefinedAll(cs);
    }
  }

  /** A rejected list is rejected for its first failing column. */
  lemma FromColumnsErr(cs: seq<Option<Col.ColumnSchema>>)
    requires FromColumns(cs).Err?
    ensures exists i | 0 <= i < |cs| ::
              Violation(cs, i) == Some(FromColumns(cs).error) &&
              forall j | 0 <= j < i :: Violation(cs, j).None?
  {
    FirstFromSome(Checks(cs), |cs|, 0);
    assert forall i: nat :: Checks(cs)(i) == Violation(cs, i);
  }

  /** When the checks pass up to `i` and fail at `i`, that failure is the
      result. */
  lemma FirstAt(cs: seq<Option<Col.ColumnSchema>>, i: nat)
    requires i < |cs| && Violation(cs, i).Some?
    requires forall j | 0 <= j < i :: Violation(cs, j).None?
    ensures FromColumns(cs) == Err(Violation(cs, i).value)
  {
    FirstFromSkip(Checks(cs), |cs|, i);
  }

  /** The checks NewRowSchema makes on the `i`-th column
      (pkg/data/schema.go:41-62), given the names of the columns before
      it: the first one that fails is the column's violation. */
  method CheckColumn(cs: seq<Option<Col.ColumnSchema>>, i: nat, cols: set<Str>) returns (err: Option<Error>)
    requires i < |cs| && cols == Names(NameOf, cs[..i])
    ensures err == Violation(cs, i)
  {
    if cs[i].None? {
      return Some(ColumnNotDefined(i));
    }
    var c := cs[i].value;
    if c.Name == [] {
      return Some(MissingName(i));
    }
    if c.Name in cols {
      return Some(DuplicateName(i));
    }
    if c.Type == NilType {
      return Some(MissingType(i));
    }
    if c.Default.Some? {
      var e := Col.Validate(c, c.Default);
      if e.Some? {
        return Some(DefaultError(i, e.value));
      }
    }
    return None;
  }

  /** NewRowSchema (pkg/data/schema.go:37-71). */
  method NewRowSchema(cs: seq<Option<Col.ColumnSchema>>) returns (r: Result<RowSchema>)
    ensures r == FromColumns(cs)
  {
    var rowSize := 0;
    var cols: set<Str> := {};
    for i := 0 to |cs|
      invariant forall j: nat | j < i :: Checks(cs)(j).None?
      invariant cols == Names(NameOf, cs[..i])
      invariant rowSize == RowLayout.Sum(Col.ByteSize, Defined(cs[..i]))
    {
      assert cs[..i + 1][..i] == cs[..i];
      assert cs[..i + 1][i] == cs[i];
      var err := CheckColumn(cs, i, cols);
      if err.Some? {
        FirstFromSkip(Checks(cs), |cs|, i);
        return Err(err.value);
      }
      assert Checks(cs)(i).None?;
      PassingThrough(Checks(cs), i);
      var c := cs[i].value;
      cols := cols + {c.Name};
      RowLayout.SumAppend(Col.ByteSize, Defined(cs[..i]), c);
      rowSize := rowSize + Col.ByteSize(c);
    }
    assert cs[..|cs|] == cs;
    FirstFromNone(Checks(cs), |cs|, 0);
    return Ok(RowSchema(Defined(cs), rowSize));
  }

  /** A schema NewRowSchema accepts has named, typed columns with distinct
      names and valid defaults. */
  lemma NewRowSchemaValid(cs: seq<Option<Col.ColumnSchema>>)
    requires FromColumns(cs).Ok?
    ensures var ss := FromColumns(cs).value.columnSchemas;
            forall i | 0 <= i < |ss| ::
              ss[i].Name != [] && ss[i].Type != NilType &&
              (ss[i].Default.Some? ==> Col.Validate(ss[i], ss[i].Default).None?)
    ensures var ss := FromColumns(cs).value.columnSchemas;
            forall i, j | 0 <= i < j < |ss| :: ss[i].Name != ss[j].Name
  {
    FromColumnsOk(cs);
    var ss := FromColumns(cs).value.columnSchemas;
    forall i, j | 0 <= i < j < |ss|
      ensures ss[i].Name != ss[j].Name
    {
      assert Violation(cs, j).None?;
      assert cs[..j][i] == cs[i];
      NamesHas(NameOf, cs[..j], ss[i].Name);
    }
    forall i | 0 <= i < |ss|
      ensures ss[i].Name != [] && ss[i].Type != NilType
      ensures ss[i].Default.Some? ==> Col.Validate(ss[i], ss[i].Default).None?
    {
      assert Violation(cs, i).None?;
    }
  }

  /** A repeated name is reported at its second occurrence, unless an
      earlier column already fails. */
  lemma NewRowSchemaDuplicate(cs: seq<Option<Col.ColumnSchema>>, i: nat, j: nat)
    requires i < j < |cs| && cs[i].Some? && cs[j].Some? && cs[i].value.Name == cs[j].value.Name
    requires cs[j].value.Name != []
    requires forall k | 0 <= k < j :: Violation(cs, k).None?
    ensures FromColumns(cs) == Err(DuplicateName(j))
  {
    assert cs[..j][i] == cs[i];
    NamesHas(NameOf, cs[..j], cs[j].value.Name);
    FirstAt(cs, j);
  }

  /** The value Prepare takes for a column: the caller's, when the map has
      the column's name, else the column's default. */
  function Pick(c: Col.ColumnSchema, columns: map<Str, Option<Value>>): Option<Value>
  {
    if c.Name in columns then columns[c.Name] else c.Default
  }

  function PrepareChecks(s: RowSchema, columns: map<Str, Option<Value>>): nat -> Option<Error>
  {
    (i: nat) => if i < |s.columnSchemas| then Col.Validate(s.columnSchemas[i], Pick(s.columnSchemas[i], columns)) else None
  }

  /** The specification of Prepare: every column's value, taken from the
      map or the default, in schema order, once all of them validate; else
      the first failure. */
  function Prepared(s: RowSchema, columns: map<Str, Option<Value>>): Result<seq<Option<Value>>>
  {
    var cs := s.columnSchemas;
    match FirstFrom(PrepareChecks(s, columns), |cs|, 0)
    case Some(e) => Err(e)
    case None => Ok(seq(|cs|, i requires 0 <= i < |cs| => Pick(cs[i], columns)))
  }

  /** Prepare succeeds exactly when every column's value validates, and
      then gives each column's value in schema order; a failure is the
      first column's that does not validate. */
  lemma PreparedMeaning(s: RowSchema, columns: map<Str, Option<Value>>)
    ensures Prepared(s, columns).Ok? <==> forall i | 0 <= i < |s.columnSchemas| ::
              Col.Validate(s.columnSchemas[i], Pick(s.columnSchemas[i], columns)).None?
    ensures Prepared(s, columns).Ok? ==>
              |Prepared(s, columns).value| == |s.columnSchemas| &&
              forall i | 0 <= i < |s.columnSchemas| :: Prepared(s, columns).value[i] == Pick(s.columnSchemas[i], columns)
    ensures Prepared(s, columns).Err? ==> exists i | 0 <= i < |s.columnSchemas| ::
              Col.Validate(s.columnSchemas[i], Pick(s.columnSchemas[i], columns)) == Some(Prepared(s, columns).error) &&
              forall j | 0 <= j < i :: Col.Validate(s.columnSchemas[j], Pick(s.columnSchemas[j], columns)).None?
  {
    var n := |s.columnSchemas|;
    FirstFromNone(PrepareChecks(s, columns), n, 0);
    assert forall i | 0 <= i < n ::
      PrepareChecks(s, columns)(i) == Col.Validate(s.columnSchemas[i], Pick(s.columnSchemas[i], columns));
    if Prepared(s, columns).Err? {
      FirstFromSome(PrepareChecks(s, columns), n, 0);
    }
  }

  /** RowSchema.Prepare (pkg/data/schema.go:92-106). */
  method Prepare(s: RowSchema, columns: map<Str, Option<Value>>) returns (r: Result<seq<Option<Value>>>)
    ensures r == Prepared(s, columns)
  {
    var cs := s.columnSchemas;
    var res: seq<Option<Value>> := [];
    for i := 0 to |cs|
      invariant |res| == i
      invariant forall j | 0 <= j < i :: res[j] == Pick(cs[j], columns) && PrepareChecks(s, columns)(j).None?
    {
      var col := if cs[i].Name in columns then columns[cs[i].Name] else cs[i].Default;
      var err := Col.Validate(cs[i], col);
      if err.Some? {
        FirstFromSkip(PrepareChecks(s, columns), |cs|, i);
        return Err(err.value);
      }
      res := res + [col];
    }
    FirstFromNone(PrepareChecks(s, columns), |cs|, 0);
    assert res == seq(|cs|, i requires 0 <= i < |cs| => Pick(cs[i], columns));
    return Ok(res);
  }

  /** The specification of Row: the value count must match, then the cells
      are laid out in a zeroed buffer of the row size. */
  function RowOf(s: RowSchema, cols: seq<Option<Value>>): (r: Result<seq<byte>>)
    ensures |cols| != |s.columnSchemas| ==> r == Err(CountMismatch)
    ensures |cols| == |s.columnSchemas| && s.rowSize < 0 ==> r == Err(Panic)
    ensures r.Ok? ==> |r.value| == s.rowSize
  {
    if |cols| != |s.columnSchemas| then Err(CountMismatch)
    else if s.rowSize < 0 then Err(Panic)
    else RowLayout.EncodeAll(Col.CellBytes, Col.ByteSize, s.columnSchemas, cols, Zeros(s.rowSize), 0)
  }

  /** RowSchema.Row (pkg/data/schema.go:108-126). */
  method Row(s: RowSchema, cols: seq<Option<Value>>) returns (r: Result<seq<byte>>)
    ensures r == RowOf(s, cols)
  {
    if |cols| != |s.columnSchemas| {
      return Err(CountMismatch);
    }
    r := RowLayout.EncodeRow(Col.CellBytes, Col.ByteSize, s.columnSchemas, cols, s.rowSize);
  }

  /** The specification of Columns: the row length must be the row size,
      then each column's slice is decoded. */
  function ColumnsOf(s: RowSchema, row: seq<byte>): (r: Result<seq<Option<Value>>>)
    ensures |row| != s.rowSize ==> r == Err(RowSizeMismatch)
    ensures r.Ok? ==> |r.value| == |s.columnSchemas|
  {
    if |row| != s.rowSize then Err(RowSizeMismatch)
    else RowLayout.DecodeAll(Col.Unmarshal, Col.ByteSize, s.columnSchemas, row, 0)
  }

  /** RowSchema.Columns (pkg/data/schema.go:128-147). */
  method Columns(s: RowSchema, row: seq<byte>) returns (r: Result<seq<Option<Value>>>)
    ensures r == ColumnsOf(s, row)
  {
    if |row| != s.rowSize {
      return Err(RowSizeMismatch);
    }
    r := RowLayout.DecodeRow(Col.Unmarshal, Col.ByteSize, s.columnSchemas, row);
  }

  /** When the row size is the sum of the cell widths and every value
      encodes, the row is the cells side by side: column `i` occupies the
      bytes from the sum of the widths before it. */
  lemma RowIsCells(s: RowSchema, vs: seq<Option<Value>>)
    requires s.rowSize == RowLayout.Sum(Col.ByteSize, s.columnSchemas)
    requires |vs| == |s.columnSchemas|
    requires forall i | 0 <= i < |vs| :: Col.CellBytes(s.columnSchemas[i], vs[i]).Ok?
    ensures RowOf(s, vs).Ok?
    ensures forall i | 0 <= i < |vs| ::
              var off := RowLayout.Offset(Col.ByteSize, s.columnSchemas, i);
              0 <= off <= off + Col.ByteSize(s.columnSchemas[i]) <= s.rowSize &&
              RowOf(s, vs).value[off..off + Col.ByteSize(s.columnSchemas[i])] ==
                Col.CellBytes(s.columnSchemas[i], vs[i]).value
  {
    var cs := s.columnSchemas;
    assert RowLayout.EncodesFitted(Col.CellBytes, Col.ByteSize, cs, vs);
    RowLayout.LaidOut(Col.CellBytes, Col.ByteSize, cs, vs);
    var row := Flatten(RowLayout.Cells(Col.CellBytes, Col.ByteSize, cs, vs));
    assert RowOf(s, vs) == Ok(row);
    forall i | 0 <= i < |vs|
      ensures var off := RowLayout.Offset(Col.ByteSize, cs, i);
              0 <= off <= off + Col.ByteSize(cs[i]) <= s.rowSize &&
              row[off..off + Col.ByteSize(cs[i])] == Col.CellBytes(cs[i], vs[i]).value
    {
    }
  }

  /** Columns undoes Row, for values the cell codec gives back, under a
      schema whose row size is the sum of its cell widths (as NewRowSchema
      builds it). */
  lemma RowRoundTrip(s: RowSchema, vs: seq<Option<Value>>)
    requires s.rowSize == RowLayout.Sum(Col.ByteSize, s.columnSchemas)
    requires |vs| == |s.columnSchemas|
    requires forall i | 0 <= i < |vs| :: Col.CellRoundTrips(s.columnSchemas[i], vs[i])
    ensures RowOf(s, vs).Ok? && ColumnsOf(s, RowOf(s, vs).value) == Ok(vs)
  {
    var cs := s.columnSchemas;
    forall i | 0 <= i < |vs|
      ensures Col.CellBytes(cs[i], vs[i]).Ok? && Col.Unmarshal(cs[i], Col.CellBytes(cs[i], vs[i]).value) == Ok(vs[i])
    {
      Col.CellRoundTrip(cs[i], vs[i]);
    }
    RowLayout.RoundTrip(Col.CellBytes, Col.Unmarshal, Col.ByteSize, cs, vs);
  }

  /** The serialised column schemas, in order, or the first failure. */
  function ColumnSections(cs: seq<Col.ColumnSchema>): Result<seq<seq<byte>>>
  {
    RowLayout.Collect(Col.Bytes, cs)
  }

  /** The sections exist exactly when every column schema serialises, and
      are then those serialisations, in order. */
  lemma ColumnSectionsOk(cs: seq<Col.ColumnSchema>)
    ensures ColumnSections(cs).Ok? <==> forall i | 0 <= i < |cs| :: Col.Bytes(cs[i]).Ok?
    ensures ColumnSections(cs).Ok? ==>
              |ColumnSections(cs).value| == |cs| &&
              forall i | 0 <= i < |cs| :: Col.Bytes(cs[i]) == Ok(ColumnSections(cs).value[i])
  {
    RowLayout.CollectOk(Col.Bytes, cs);
  }

  /** The specification of Bytes: the row size, then every column schema,
      each in its own section. */
  function BytesOf(s: RowSchema): Result<seq<byte>>
  {
    var secs :- ColumnSections(s.columnSchemas);
    Ok(FrameAll([IntAsBytes(s.rowSize)] + secs))
  }

  /** RowSchema.Bytes (pkg/data/schema.go:78-90). */
  method Bytes(s: RowSchema) returns (r: Result<seq<byte>>)
    ensures r == BytesOf(s)
  {
    var secs := Sections(s.columnSchemas);
    if secs.Err? {
      return Err(secs.error);
    }
    return Ok(FrameAll([IntAsBytes(s.rowSize)] + secs.value));
  }

  /** The loop of RowSchema.Bytes: each column schema serialised in turn,
      stopping at the first failure. */
  method Sections(cs: seq<Col.ColumnSchema>) returns (r: Result<seq<seq<byte>>>)
    ensures r == ColumnSections(cs)
  {
    var secs: seq<seq<byte>> := [];
    RowLayout.CollectFrom(Col.Bytes, cs, 0);
    for i := 0 to |cs|
      invariant ColumnSections(cs) == RowLayout.Prepend(secs, ColumnSections(cs[i..]))
    {
      var b := Col.Bytes(cs[i]);
      RowLayout.CollectAt(Col.Bytes, cs, i);
      if b.Err? {
        return Err(b.error);
      }
      RowLayout.PrependStep(secs, b.value, ColumnSections(cs[i + 1..]));
      secs := secs + [b.value];
    }
    RowLayout.CollectFrom(Col.Bytes, cs, |cs|);
    RowLayout.PrependDone(secs, ColumnSections(cs));
    return Ok(secs);
  }

  /** The column schemas loaded from their sections, in order; the first
      that does not load is reported by its position. */
  function LoadColumns(types: Registry, ps: seq<seq<byte>>, pos: nat): Result<seq<Col.ColumnSchema>>
    decreases |ps|
  {
    if ps == [] then Ok([])
    else
      match Col.Load(types, ps[0])
      case Err(_) => Err(ColumnSchemaAt(pos))
      case Ok(c) =>
        var rest :- LoadColumns(types, ps[1..], pos + 1);
        Ok([c] + rest)
  }

  /** The specification of LoadRowSchemaFromBytes: at least one section,
      the first a native int taken as the row size (it is not checked
      against the columns), each further one a column schema. */
  function Load(types: Registry, payload: seq<byte>): (r: Result<RowSchema>)
    ensures ReadAllSpec(payload).Err? ==> r == Err(ReadAllSpec(payload).error)
    ensures ReadAllSpec(payload) == Ok([]) ==> r == Err(SectionCount)
    ensures r.Ok? ==>
              var ps := ReadAllSpec(payload).value;
              |ps| >= 1 && IntAsBytes(r.value.rowSize) == ps[0] &&
              LoadColumns(types, ps[1..], 0) == Ok(r.value.columnSchemas)
  {
    var ps :- ReadAllSpec(payload);
    if |ps| == 0 then Err(SectionCount)
    else
      var rowSize :- BytesAsInt(ps[0]);
      assert IntAsBytes(rowSize) == ps[0] by { BytesAsIntInverse(ps[0]); }
      var cols :- LoadColumns(types, ps[1..], 0);
      Ok(RowSchema(cols, rowSize))
  }

  /** LoadRowSchemaFromBytes (pkg/data/schema.go:9-35). */
  method LoadRowSchemaFromBytes(processor: EngineColumnProcessor.ColumnProcessor, payload: seq<byte>)
    returns (r: Result<RowSchema>)
    ensures r == Load(processor.types, payload)
  {
    var ps :- ReadAll(payload);
    var n := |ps| - 1;
    if n < 0 {
      return Err(SectionCount);
    }
    var rowSize :- BytesAsInt(ps[0]);
    var cols := LoadSections(processor, ps[1..]);
    if cols.Err? {
      return Err(cols.error);
    }
    return Ok(RowSchema(cols.value, rowSize));
  }

  /** The loop of LoadRowSchemaFromBytes (pkg/data/schema.go:27-32): each
      column section loaded in turn; the first that does not load is
      reported by its position. */
  method LoadSections(processor: EngineColumnProcessor.ColumnProcessor, ps: seq<seq<byte>>)
    returns (r: Result<seq<Col.ColumnSchema>>)
    ensures r == LoadColumns(processor.types, ps, 0)
  {
    var cols: seq<Col.ColumnSchema> := [];
    LoadColumnsFrom(processor.types, ps, 0);
    for i := 0 to |ps|
      invariant LoadColumns(processor.types, ps, 0) == RowLayout.Prepend(cols, LoadColumns(processor.types, ps[i..], i))
    {
      var c := Col.LoadColumnSchemaFromBytes(processor, ps[i]);
      LoadColumnsAt(processor.types, ps, i);
      if c.Err? {
        return Err(ColumnSchemaAt(i));
      }
      RowLayout.PrependStep(cols, c.value, LoadColumns(processor.types, ps[i + 1..], i + 1));
      cols := cols + [c.value];
    }
    LoadColumnsFrom(processor.types, ps, |ps|);
    RowLayout.PrependDone(cols, LoadColumns(processor.types, ps, 0));
    return Ok(cols);
  }

  /** From the first section the loop loads all of them; past the last
      there is nothing to load. */
  lemma LoadColumnsFrom(types: Registry, ps: seq<seq<byte>>, i: nat)
    requires i == 0 || i == |ps|
    ensures i == 0 ==> LoadColumns(types, ps, 0) == RowLayout.Prepend([], LoadColumns(types, ps[i..], i))
    ensures i == |ps| ==> LoadColumns(types, ps[i..], i) == Ok([])
  {
    assert ps[0..] == ps;
    RowLayout.PrependNothing(LoadColumns(types, ps, 0));
    assert ps[|ps|..] == [];
  }

  /** One step of LoadColumns at section `i`. */
  lemma LoadColumnsAt(types: Registry, ps: seq<seq<byte>>, i: nat)
    requires i < |ps|
    ensures Col.Load(types, ps[i]).Err? ==> LoadColumns(types, ps[i..], i) == Err(ColumnSchemaAt(i))
    ensures Col.Load(types, ps[i]).Ok? ==>
              LoadColumns(types, ps[i..], i) == RowLayout.Prepend([Col.Load(types, ps[i]).value], LoadColumns(types, ps[i + 1..], i + 1))
  {
    assert ps[i..][0] == ps[i] && ps[i..][1..] == ps[i + 1..];
  }

  /** A schema whose row size fits a native int and each of whose column
      schemas comes back from its own serialised form and fits a section. */
  predicate Storable(types: Registry, s: RowSchema)
  {
    FitsSigned(s.rowSize, W) &&
    forall i | 0 <= i < |s.columnSchemas| ::
      var c := s.columnSchemas[i];
      Col.Storable(c) && c.Type.ct.identifier in types && types[c.Type.ct.identifier] == c.Type.ct &&
      (c.Default.Some? ==> Col.CellRoundTrips(c, c.Default)) &&
      Col.Bytes(c).Ok? && Framable(Col.Bytes(c).value)
  }

  /** Sections each of which loads as its column schema load as all of
      them, in order. */
  lemma LoadColumnsOf(types: Registry, cs: seq<Col.ColumnSchema>, ps: seq<seq<byte>>)
    requires |ps| == |cs| && forall i | 0 <= i < |cs| :: Col.Load(types, ps[i]) == Ok(cs[i])
    ensures LoadColumns(types, ps, 0) == Ok(cs)
  {
    LoadColumnsOfFrom(types, cs, ps, 0);
    assert ps[0..] == ps && cs[0..] == cs;
  }

  lemma {:induction false} LoadColumnsOfFrom(types: Registry, cs: seq<Col.ColumnSchema>, ps: seq<seq<byte>>, i: nat)
    requires i <= |ps| == |cs| && forall j | 0 <= j < |cs| :: Col.Load(types, ps[j]) == Ok(cs[j])
    ensures LoadColumns(types, ps[i..], i) == Ok(cs[i..])
    decreases |cs| - i
  {
    if i == |cs| {
      assert ps[i..] == [] && cs[i..] == [];
    } else {
      LoadColumnsAt(types, ps, i);
      LoadColumnsOfFrom(types, cs, ps, i + 1);
      SuffixAt(cs, i);
    }
  }

  /** Loading what Bytes wrote gives the schema back. */
  lemma LoadOfBytes(types: Registry, s: RowSchema)
    requires Storable(types, s)
    ensures BytesOf(s).Ok? && Load(types, BytesOf(s).value) == Ok(s)
  {
    var cs := s.columnSchemas;
    forall i | 0 <= i < |cs|
      ensures Col.Load(types, Col.Bytes(cs[i]).value) == Ok(cs[i])
    {
      Col.LoadOfBytes(types, cs[i]);
    }
    ColumnSectionsOk(cs);
    var secs := ColumnSections(cs).value;
    var xs := [IntAsBytes(s.rowSize)] + secs;
    Pow256Values();
    assert AllFramable(xs);
    ReadAllRoundTrip(xs);
    IntBytesRoundTrip(s.rowSize);
    assert xs[1..] == secs;
    LoadColumnsOf(types, cs, secs);
  }
}
