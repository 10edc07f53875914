/** The row schema of pkg/engine/grid/row/schema.go and its processor in
    pkg/engine/grid/row/processor.go. A row is the cells of its columns laid
    end to end, each PayloadSize bytes wide. A column schema entry may be
    nil (None): Load leaves the entries it did not reach nil, and any method
    that touches a nil entry panics. Entries are column schema values; the
    references the Go struct shares with its caller are not modelled. */
module GridRowSchema {
  import opened Errors
  import opened ByteSeq
  import opened Values
  import opened SysPayload
  import opened Registration
  import Col = GridColumnSchema
  import GridProcessor
  import opened ColumnChecks
  import RowLayout

  type Cols = seq<Option<Col.Fields>>

  /** The cell width of an entry; a nil entry is never reached with it. */
  function Width(c: Option<Col.Fields>): int
  {
    if c.None? then 0 else Col.PayloadSize(c.value)
  }

  /** ColumnBytes through an entry: a nil entry panics. */
  function Encode(c: Option<Col.Fields>, v: Option<Value>): Result<seq<byte>>
  {
    if c.None? then Err(Panic) else Col.CellBytes(c.value, v)
  }

  /** Column through an entry, with a processor's registry. */
  function Decoder(types: Registry): (Option<Col.Fields>, seq<byte>) -> Result<Option<Value>>
  {
    (c: Option<Col.Fields>, p: seq<byte>) => if c.None? then Err(Panic) else Col.Column(types, c.value, p)
  }

  predicate AllDefined(cs: Cols)
  {
    forall i | 0 <= i < |cs| :: cs[i].Some?
  }

  /** The specification of Row: the value count must match the column
      count, then the cells are laid out in a zeroed buffer of the row size
      at running offsets. */
  function RowOf(cs: Cols, rowSize: int, vs: seq<Option<Value>>): (r: Result<seq<byte>>)
    ensures |vs| != |cs| ==> r == Err(CountMismatch)
    ensures |vs| == |cs| && rowSize < 0 ==> r == Err(Panic)
    ensures r.Ok? ==> |r.value| == rowSize
  {
    if |vs| != |cs| then Err(CountMismatch)
    else if rowSize < 0 then Err(Panic)
    else RowLayout.EncodeAll(Encode, Width, cs, vs, Zeros(rowSize), 0)
  }

  /** The specification of Columns: the row must be exactly the row size,
      then each column decodes its own slice. */
  function ColumnsOf(types: Registry, cs: Cols, rowSize: int, row: seq<byte>): (r: Result<seq<Option<Value>>>)
    ensures |row| != rowSize ==> r == Err(RowSizeMismatch)
    ensures r.Ok? ==> |r.value| == |cs|
  {
    if |row| != rowSize then Err(RowSizeMismatch)
    else RowLayout.DecodeAll(Decoder(types), Width, cs, row, 0)
  }

  /** Every entry's serialised form, in order; a nil entry panics. */
  function ColumnSections(cs: Cols): (r: Result<seq<seq<byte>>>)
    ensures r.Ok? <==> AllDefined(cs)
    ensures r.Err? ==> r.error == Panic
    ensures r.Ok? ==> |r.value| == |cs|
  {
    if !AllDefined(cs) then Err(Panic)
    else Ok(seq(|cs|, i requires 0 <= i < |cs| && cs[i].Some? => Col.Bytes(cs[i].value)))
  }

  /** The specification of Bytes: the row size as a 64-bit int, then every
      column schema, each in its own section. */
  function BytesOf(cs: Cols, rowSize: int): Result<seq<byte>>
  {
    var secs :- ColumnSections(cs);
    Ok(FrameAll([IntAsBytes(rowSize)] + secs))
  }

  /** The loop of Schema.Bytes (pkg/engine/grid/row/schema.go:17-22): each
      entry serialised in turn; a nil entry panics. */
  method Sections(cs: Cols) returns (r: Result<seq<seq<byte>>>)
    ensures r == ColumnSections(cs)
  {
    var secs: seq<seq<byte>> := [];
    for i := 0 to |cs|
      invariant |secs| == i
      invariant forall j | 0 <= j < i :: cs[j].Some? && secs[j] == Col.Bytes(cs[j].value)
    {
      if cs[i].None? {
        return Err(Panic);
      }
      secs := secs + [Col.Bytes(cs[i].value)];
    }
    SectionsOfLoop(cs, secs);
    return Ok(secs);
  }

  /** What the loop of Bytes collects is ColumnSections. */
  lemma SectionsOfLoop(cs: Cols, secs: seq<seq<byte>>)
    requires |secs| == |cs|
    requires forall j | 0 <= j < |cs| :: cs[j].Some? && secs[j] == Col.Bytes(cs[j].value)
    ensures ColumnSections(cs) == Ok(secs)
  {
    assert AllDefined(cs);
    assert secs == seq(|cs|, i requires 0 <= i < |cs| && cs[i].Some? => Col.Bytes(cs[i].value));
  }

  /** `n` nil entries: what `make([]*column.Schema, n)` holds. */
  function Nils(n: nat): (r: Cols)
    ensures |r| == n && forall i | 0 <= i < n :: r[i] == None
  {
    seq(n, _ => None)
  }

  /** The column schema a section loads into a fresh `&column.Schema{}`. */
  function LoadColumn(p: seq<byte>): (Col.Fields, Option<Error>)
  {
    Col.Loaded(Col.Zero, p)
  }

  /** What every column section loads into, in order. */
  function Loads(ps: seq<seq<byte>>): (r: seq<(Col.Fields, Option<Error>)>)
    ensures |r| == |ps|
  {
    seq(|ps|, i requires 0 <= i < |ps| => LoadColumn(ps[i]))
  }

  /** The loop of Load from column `i` on, given what each section loads
      into: a column schema is stored only when it loads; the first failure
      stops with its position. */
  function LoadColumnsFrom(rs: seq<(Col.Fields, Option<Error>)>, i: nat, acc: Cols): (Cols, Option<Error>)
    requires i <= |rs| == |acc|
    decreases |rs| - i
  {
    if i == |rs| then (acc, None)
    else if rs[i].1.Some? then (acc, Some(ColumnSchemaAt(i)))
    else LoadColumnsFrom(rs, i + 1, acc[i := Some(rs[i].0)])
  }

  /** The specification of Schema.Load: the entries, the row size and the
      error after the call. The entries are replaced by nils once the
      sections are read, the row size is assigned (zero when it does not
      load), and then the columns are filled in order. */
  function Loaded(cs: Cols, rowSize: int, payload: seq<byte>): (Cols, int, Option<Error>)
  {
    match ReadAllSpec(payload)
    case Err(e) => (cs, rowSize, Some(e))
    case Ok(ps) =>
      if |ps| == 0 then (cs, rowSize, Some(SectionCount))
      else
        match Col.LoadSize(ps[0])
        case Err(e) => (Nils(|ps| - 1), 0, Some(e))
        case Ok(size) =>
          var r := LoadColumnsFrom(Loads(ps[1..]), 0, Nils(|ps| - 1));
          (r.0, size, r.1)
  }

  /** The Go struct: its entries and its row size. */
  class Schema {
    var columnSchemas: Cols
    var rowSize: int

    constructor(cs: Cols, size: int)
      ensures columnSchemas == cs && rowSize == size
    {
      columnSchemas := cs;
      rowSize := size;
    }

    /** Schema.ByteSize (pkg/engine/grid/row/schema.go:97-99). */
    function ByteSize(): int
      reads this
    {
      rowSize
    }

    /** Schema.Bytes (pkg/engine/grid/row/schema.go:15-27). */
    method Bytes() returns (r: Result<seq<byte>>)
      ensures r == BytesOf(columnSchemas, rowSize)
    {
      var secs := Sections(columnSchemas);
      if secs.Err? {
        return Err(secs.error);
      }
      return Ok(FrameAll([IntAsBytes(rowSize)] + secs.value));
    }

    /** Schema.Load (pkg/engine/grid/row/schema.go:29-54). */
    method Load(payload: seq<byte>) returns (err: Option<Error>)
      modifies this
      ensures (columnSchemas, rowSize, err) == Loaded(old(columnSchemas), old(rowSize), payload)
    {
      var payloads := ReadAll(payload);
      if payloads.Err? {
        return Some(payloads.error);
      }
      var ps := payloads.value;
      var n := |ps| - 1;
      if n < 0 {
        return Some(SectionCount);
      }
      columnSchemas := Nils(n);
      var size := Col.LoadSize(ps[0]);
      rowSize := if size.Ok? then size.value else 0;
      if size.Err? {
        return Some(size.error);
      }
      ghost var rs := Loads(ps[1..]);
      for i := 0 to n
        invariant |columnSchemas| == n && rowSize == size.value
        invariant LoadColumnsFrom(rs, 0, Nils(n)) == LoadColumnsFrom(rs, i, columnSchemas)
      {
        assert rs[i] == LoadColumn(ps[i + 1]);
        var colSchema := new Col.Schema();
        var e := colSchema.Load(ps[i + 1]);
        if e.Some? {
          return Some(ColumnSchemaAt(i));
        }
        columnSchemas := columnSchemas[i := Some(colSchema.Value())];
      }
      return None;
    }

    /** Schema.Row (pkg/engine/grid/row/schema.go:56-74). */
    method Row(vs: seq<Option<Value>>) returns (r: Result<seq<byte>>)
      ensures r == RowOf(columnSchemas, rowSize, vs)
    {
      if |vs| != |columnSchemas| {
        return Err(CountMismatch);
      }
      r := RowLayout.EncodeRow(Encode, Width, columnSchemas, vs, rowSize);
    }

    /** Schema.Columns (pkg/engine/grid/row/schema.go:76-95). */
    method Columns(processor: GridProcessor.Processor, row: seq<byte>) returns (r: Result<seq<Option<Value>>>)
      ensures r == ColumnsOf(processor.types, columnSchemas, rowSize, row)
    {
      if |row| != rowSize {
        return Err(RowSizeMismatch);
      }
      r := RowLayout.DecodeRow(Decoder(processor.types), Width, columnSchemas, row);
    }
  }

  /** The load loop from column `i`, when every column before `k` loads
      and column `k` (if any) does not: columns `i` to `k` are filled with
      what their sections load into, the others are left as they were, and
      the error names column `k`. */
  lemma {:induction false} LoadColumnsUpTo(rs: seq<(Col.Fields, Option<Error>)>, i: nat, acc: Cols, k: nat)
    requires i <= k <= |rs| == |acc|
    requires forall j | i <= j < k :: rs[j].1.None?
    requires k < |rs| ==> rs[k].1.Some?
    ensures LoadColumnsFrom(rs, i, acc).1 == if k < |rs| then Some(ColumnSchemaAt(k)) else None
    ensures |LoadColumnsFrom(rs, i, acc).0| == |rs|
    ensures forall j | 0 <= j < |rs| ::
              LoadColumnsFrom(rs, i, acc).0[j] == if i <= j < k then Some(rs[j].0) else acc[j]
    decreases |rs| - i
  {
    if i < k {
      LoadColumnsUpTo(rs, i + 1, acc[i := Some(rs[i].0)], k);
    }
  }

  /** Once the sections are read and the row size loads, Load is its
      column loop over nil entries. */
  lemma LoadedLoop(cs: Cols, rowSize: int, payload: seq<byte>, ps: seq<seq<byte>>)
    requires ReadAllSpec(payload) == Ok(ps) && |ps| >= 1 && Col.LoadSize(ps[0]).Ok?
    ensures var r := LoadColumnsFrom(Loads(ps[1..]), 0, Nils(|ps| - 1));
            Loaded(cs, rowSize, payload) == (r.0, Col.LoadSize(ps[0]).value, r.1)
  {
  }

  /** What Load leaves behind once the row size has loaded: one entry per
      column section, filled up to the first section that does not load
      into a column schema and nil from there on, and that position as the
      error. */
  lemma LoadUpTo(cs: Cols, rowSize: int, payload: seq<byte>, ps: seq<seq<byte>>, k: nat)
    requires ReadAllSpec(payload) == Ok(ps) && |ps| >= 1 && Col.LoadSize(ps[0]).Ok?
    requires k < |ps|
    requires forall j | 1 <= j <= k :: LoadColumn(ps[j]).1.None?
    requires k + 1 < |ps| ==> LoadColumn(ps[k + 1]).1.Some?
    ensures var r := Loaded(cs, rowSize, payload);
            r.2 == (if k + 1 < |ps| then Some(ColumnSchemaAt(k)) else None) &&
            IntAsBytes(r.1) == ps[0] && |r.0| == |ps| - 1 &&
            forall j | 0 <= j < |ps| - 1 :: r.0[j] == if j < k then Some(LoadColumn(ps[j + 1]).0) else None
  {
    var rs := Loads(ps[1..]);
    forall j | 0 <= j < |rs|
      ensures rs[j] == LoadColumn(ps[j + 1])
    {
      assert ps[1..][j] == ps[j + 1];
    }
    LoadColumnsUpTo(rs, 0, Nils(|ps| - 1), k);
    LoadedLoop(cs, rowSize, payload, ps);
  }

  /** The column schema a section written by Bytes loads into. */
  function ReloadedAll(cs: Cols): (r: Cols)
    requires AllDefined(cs)
    ensures |r| == |cs| && forall i | 0 <= i < |cs| :: r[i] == Some(Col.Reloaded(cs[i].value))
  {
    seq(|cs|, i requires 0 <= i < |cs| => Some(Col.Reloaded(cs[i].value)))
  }

  /** A row schema Bytes can write and Load read back: no nil entry, a
      64-bit row size, and column schemas that are storable, valid and fit
      in a section. */
  predicate Storable(cs: Cols, rowSize: int)
  {
    AllDefined(cs) && FitsSigned(rowSize, W) &&
    forall i | 0 <= i < |cs| ::
      Col.Storable(cs[i].value) && Col.Validate(cs[i].value).None? && Framable(Col.Bytes(cs[i].value))
  }

  /** The sections of a storable schema read back as the row size and the
      column schemas. */
  lemma SectionsOf(cs: Cols, rowSize: int)
    requires Storable(cs, rowSize)
    ensures BytesOf(cs, rowSize).Ok?
    ensures ReadAllSpec(BytesOf(cs, rowSize).value) == Ok([IntAsBytes(rowSize)] + ColumnSections(cs).value)
  {
    var xs := [IntAsBytes(rowSize)] + ColumnSections(cs).value;
    Pow256Values();
    assert AllFramable(xs);
    ReadAllRoundTrip(xs);
  }

  /** Every section Bytes wrote for a storable schema loads into its
      column schema. */
  lemma SectionsLoad(cs: Cols, rowSize: int)
    requires Storable(cs, rowSize)
    ensures forall j | 0 <= j < |cs| ::
              Loads(ColumnSections(cs).value)[j] == (Col.Reloaded(cs[j].value), Col.Validate(cs[j].value))
  {
    var secs := ColumnSections(cs).value;
    forall j | 0 <= j < |cs|
      ensures Loads(secs)[j] == (Col.Reloaded(cs[j].value), Col.Validate(cs[j].value))
    {
      Col.LoadOfBytes(Col.Zero, cs[j].value);
    }
  }

  /** Loading what Bytes wrote, into any receiver, restores the row size
      and every column schema (a nil default as an empty one). */
  lemma LoadOfBytes(old_cs: Cols, old_size: int, cs: Cols, rowSize: int)
    requires Storable(cs, rowSize)
    ensures BytesOf(cs, rowSize).Ok?
    ensures Loaded(old_cs, old_size, BytesOf(cs, rowSize).value) == (ReloadedAll(cs), rowSize, None)
  {
    var secs := ColumnSections(cs).value;
    var ps := [IntAsBytes(rowSize)] + secs;
    SectionsOf(cs, rowSize);
    IntBytesRoundTrip(rowSize);
    assert Col.LoadSize(ps[0]) == Ok(rowSize);
    assert ps[1..] == secs;
    SectionsLoad(cs, rowSize);
    var rs := Loads(secs);
    LoadColumnsUpTo(rs, 0, Nils(|cs|), |cs|);
    LoadedLoop(old_cs, old_size, BytesOf(cs, rowSize).value, ps);
    assert LoadColumnsFrom(rs, 0, Nils(|cs|)).0 == ReloadedAll(cs);
  }

  /** When the row size is the sum of the cell widths and every value
      encodes, column `i` occupies the bytes from the sum of the widths
      before it. */
  lemma RowIsCells(cs: Cols, rowSize: int, vs: seq<Option<Value>>)
    requires rowSize == RowLayout.Sum(Width, cs)
    requires |vs| == |cs|
    requires forall i | 0 <= i < |vs| :: Encode(cs[i], vs[i]).Ok? && |Encode(cs[i], vs[i]).value| == Width(cs[i])
    ensures RowOf(cs, rowSize, vs).Ok?
    ensures forall i | 0 <= i < |vs| ::
              var off := RowLayout.Offset(Width, cs, i);
              0 <= off <= off + Width(cs[i]) <= rowSize &&
              RowOf(cs, rowSize, vs).value[off..off + Width(cs[i])] == Encode(cs[i], vs[i]).value
  {
    RowLayout.LaidOut(Encode, Width, cs, vs);
  }

  /** Columns undoes Row for values the cells give back, under a schema
      whose row size is the sum of its cell widths. */
  lemma RowRoundTrip(types: Registry, cs: Cols, rowSize: int, vs: seq<Option<Value>>)
    requires rowSize == RowLayout.Sum(Width, cs)
    requires |vs| == |cs| && AllDefined(cs)
    requires forall i | 0 <= i < |vs| :: Col.CellRoundTrips(types, cs[i].value, vs[i])
    ensures RowOf(cs, rowSize, vs).Ok? && ColumnsOf(types, cs, rowSize, RowOf(cs, rowSize, vs).value) == Ok(vs)
  {
    forall i | 0 <= i < |vs|
      ensures Encode(cs[i], vs[i]).Ok? && |Encode(cs[i], vs[i]).value| == Width(cs[i])
      ensures Decoder(types)(cs[i], Encode(cs[i], vs[i]).value) == Ok(vs[i])
    {
      Col.CellRoundTrip(types, cs[i].value, vs[i]);
    }
    RowLayout.RoundTrip(Encode, Decoder(types), Width, cs, vs);
  }

  /** The value Prepare takes for a column: the caller's, when the map has
      the column's name; else the default, decoded by Column, when there is
      one; else nil. */
  function Pick(types: Registry, c: Col.Fields, columns: map<Str, Option<Value>>): Result<Option<Value>>
  {
    if c.Name in columns then Ok(columns[c.Name])
    else if c.Default.Some? then Col.Column(types, c, c.Default.value)
    else Ok(None)
  }

  /** What Prepare finds wrong with an entry: it is nil, its default does
      not decode, or its value does not validate. */
  function PrepareCheck(types: Registry, c: Option<Col.Fields>, columns: map<Str, Option<Value>>): Option<Error>
  {
    if c.None? then Some(Panic)
    else
      match Pick(types, c.value, columns)
      case Err(e) => Some(e)
      case Ok(v) => Col.ValidateColumn(c.value, v)
  }

  function PrepareChecks(types: Registry, cs: Cols, columns: map<Str, Option<Value>>): nat -> Option<Error>
  {
    (i: nat) => if i < |cs| then PrepareCheck(types, cs[i], columns) else None
  }

  /** The specification of Prepare: the first failing column, or every
      column's value in schema order. */
  function Prepared(types: Registry, cs: Cols, columns: map<Str, Option<Value>>): Result<seq<Option<Value>>>
  {
    match FirstFrom(PrepareChecks(types, cs, columns), |cs|, 0)
    case Some(e) => Err(e)
    case None =>
      FirstFromNone(PrepareChecks(types, cs, columns), |cs|, 0);
      assert forall i | 0 <= i < |cs| :: PrepareChecks(types, cs, columns)(i) == PrepareCheck(types, cs[i], columns);
      Ok(seq(|cs|, i requires 0 <= i < |cs| && cs[i].Some? && Pick(types, cs[i].value, columns).Ok? =>
                     Pick(types, cs[i].value, columns).value))
  }

  /** Prepare succeeds exactly when every entry is defined and its value is
      found (a default decodes) and validates; it then gives one value per
      column in schema order, and a failure is that of the first failing
      column. */
  lemma PreparedMeaning(types: Registry, cs: Cols, columns: map<Str, Option<Value>>)
    ensures Prepared(types, cs, columns).Ok? <==> forall i | 0 <= i < |cs| ::
              cs[i].Some? && Pick(types, cs[i].value, columns).Ok? &&
              Col.ValidateColumn(cs[i].value, Pick(types, cs[i].value, columns).value).None?
    ensures Prepared(types, cs, columns).Ok? ==>
              |Prepared(types, cs, columns).value| == |cs| &&
              forall i | 0 <= i < |cs| ::
                cs[i].Some? && Pick(types, cs[i].value, columns) == Ok(Prepared(types, cs, columns).value[i])
    ensures Prepared(types, cs, columns).Err? ==> exists i | 0 <= i < |cs| ::
              PrepareCheck(types, cs[i], columns) == Some(Prepared(types, cs, columns).error) &&
              forall j | 0 <= j < i :: PrepareCheck(types, cs[j], columns).None?
  {
    FirstFromNone(PrepareChecks(types, cs, columns), |cs|, 0);
    assert forall i | 0 <= i < |cs| :: PrepareChecks(types, cs, columns)(i) == PrepareCheck(types, cs[i], columns);
    if Prepared(types, cs, columns).Err? {
      FirstFromSome(PrepareChecks(types, cs, columns), |cs|, 0);
    }
  }

  function NameOf(c: Col.Fields): Str
  {
    c.Name
  }

  /** The checks New makes of the entry at `i`: it is defined, and no
      earlier entry has its name. Names may be empty and types missing. */
  function Violation(cs: Cols, i: nat): Option<Error>
  {
    if i >= |cs| then None
    else if cs[i].None? then Some(ColumnNotDefined(i))
    else if cs[i].value.Name in Names(NameOf, cs[..i]) then Some(DuplicateName(i))
    else None
  }

  function Checks(cs: Cols): nat -> Option<Error>
  {
    (i: nat) => Violation(cs, i)
  }

  /** The specification of New's outcome: the first failing entry, or the
      row size, the sum of the cells' widths. */
  function NewRowSize(cs: Cols): Result<int>
  {
    match FirstFrom(Checks(cs), |cs|, 0)
    case Some(e) => Err(e)
    case None => Ok(RowLayout.Sum(Width, cs))
  }

  /** New succeeds exactly when every entry is defined and the names are
      distinct; a failure is that of the first failing entry. */
  lemma NewRowSizeMeaning(cs: Cols)
    ensures NewRowSize(cs).Ok? <==> AllDefined(cs) && forall i, j | 0 <= i < j < |cs| :: cs[i].value.Name != cs[j].value.Name
    ensures NewRowSize(cs).Err? ==> exists i | 0 <= i < |cs| ::
              Violation(cs, i) == Some(NewRowSize(cs).error) && forall j | 0 <= j < i :: Violation(cs, j).None?
  {
    FirstFromNone(Checks(cs), |cs|, 0);
    assert forall i: nat :: Checks(cs)(i) == Violation(cs, i);
    if NewRowSize(cs).Ok? {
      forall i | 0 <= i < |cs|
        ensures cs[i].Some?
      {
        assert Violation(cs, i).None?;
      }
      forall i, j | 0 <= i < j < |cs|
        ensures cs[i].value.Name != cs[j].value.Name
      {
        assert Violation(cs, j).None?;
        assert cs[..j][i] == cs[i];
        NamesHas(NameOf, cs[..j], cs[i].value.Name);
      }
    } else {
      FirstFromSome(Checks(cs), |cs|, 0);
      if AllDefined(cs) && forall i, j | 0 <= i < j < |cs| :: cs[i].value.Name != cs[j].value.Name {
        forall i | 0 <= i < |cs|
          ensures Violation(cs, i).None?
        {
          NamesHas(NameOf, cs[..i], cs[i].value.Name);
        }
        assert false;
      }
    }
  }

  /** processor (pkg/engine/grid/row/processor.go:24-26). */
  class Processor {
    const columnProcessor: GridProcessor.Processor

    constructor(cp: GridProcessor.Processor)
      ensures columnProcessor == cp
    {
      columnProcessor := cp;
    }

    /** processor.Prepare (pkg/engine/grid/row/processor.go:28-47). */
    method Prepare(schema: Schema, columns: map<Str, Option<Value>>) returns (r: Result<seq<Option<Value>>>)
      ensures r == Prepared(columnProcessor.types, schema.columnSchemas, columns)
    {
      var types := columnProcessor.types;
      var cs := schema.columnSchemas;
      var res: seq<Option<Value>> := [];
      for i := 0 to |cs|
        invariant |res| == i
        invariant forall j | 0 <= j < i ::
                    cs[j].Some? && Pick(types, cs[j].value, columns) == Ok(res[j]) &&
                    PrepareChecks(types, cs, columns)(j).None?
      {
        if cs[i].None? {
          FirstFromSkip(PrepareChecks(types, cs, columns), |cs|, i);
          return Err(Panic);
        }
        var c := cs[i].value;
        var col := if c.Name in columns then columns[c.Name] else None;
        if c.Name !in columns && c.Default.Some? {
          var v := Col.Column(types, c, c.Default.value);
          if v.Err? {
            FirstFromSkip(PrepareChecks(types, cs, columns), |cs|, i);
            return Err(v.error);
          }
          col := v.value;
        }
        var err := Col.ValidateColumn(c, col);
        if err.Some? {
          FirstFromSkip(PrepareChecks(types, cs, columns), |cs|, i);
          return Err(err.value);
        }
        res := res + [col];
      }
      FirstFromNone(PrepareChecks(types, cs, columns), |cs|, 0);
      assert res == seq(|cs|, i requires 0 <= i < |cs| && cs[i].Some? && Pick(types, cs[i].value, columns).Ok? =>
                                Pick(types, cs[i].value, columns).value);
      return Ok(res);
    }

    /** processor.New (pkg/engine/grid/row/processor.go:49-67): the schema
        keeps the given entries. */
    method New(cs: Cols) returns (r: Result<Schema>)
      ensures r.Err? <==> NewRowSize(cs).Err?
      ensures r.Err? ==> r.error == NewRowSize(cs).error
      ensures r.Ok? ==> fresh(r.value) && r.value.columnSchemas == cs && r.value.rowSize == NewRowSize(cs).value
    {
      var rowSize := 0;
      var cols: set<Str> := {};
      for i := 0 to |cs|
        invariant forall j | 0 <= j < i :: Violation(cs, j).None?
        invariant cols == Names(NameOf, cs[..i])
        invariant rowSize == RowLayout.Sum(Width, cs[..i])
      {
        NamesAppend(NameOf, cs, i);
        if cs[i].None? {
          FirstFromSkip(Checks(cs), |cs|, i);
          return Err(ColumnNotDefined(i));
        }
        var c := cs[i].value;
        if c.Name in cols {
          FirstFromSkip(Checks(cs), |cs|, i);
          return Err(DuplicateName(i));
        }
        cols := cols + {c.Name};
        assert cs[..i + 1] == cs[..i] + [cs[i]];
        RowLayout.SumAppend(Width, cs[..i], cs[i]);
        rowSize := rowSize + Col.PayloadSize(c);
      }
      assert cs[..|cs|] == cs;
      FirstFromNone(Checks(cs), |cs|, 0);
      var s := new Schema(cs, rowSize);
      return Ok(s);
    }
  }

  /** NewProcessor (pkg/engine/grid/row/processor.go:14-22): rejects a nil
      column processor. */
  method NewProcessor(cp: GridProcessor.Processor?) returns (r: Result<Processor>)
    ensures cp == null <==> r == Err(NilProcessor)
    ensures r.Ok? ==> fresh(r.value) && r.value.columnProcessor == cp
  {
    if cp == null {
      return Err(NilProcessor);
    }
    var p := new Processor(cp);
    return Ok(p);
  }

  /** A schema New accepts holds column schemas Row and Columns agree on:
      its row size is the sum of the cell widths, so every value a cell
      gives back survives a row. */
  lemma NewRowRoundTrip(types: Registry, cs: Cols, vs: seq<Option<Value>>)
    requires NewRowSize(cs).Ok? && |vs| == |cs|
    requires forall i | 0 <= i < |vs| :: cs[i].Some? && Col.CellRoundTrips(types, cs[i].value, vs[i])
    ensures var size := NewRowSize(cs).value;
            RowOf(cs, size, vs).Ok? && ColumnsOf(types, cs, size, RowOf(cs, size, vs).value) == Ok(vs)
  {
    RowRoundTrip(types, cs, NewRowSize(cs).value, vs);
  }
}
