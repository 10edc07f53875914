/** Rows of the older name-keyed generation (internal/table): a row schema
    is a list of column schemas, a row maps column names to values, and a
    row's bytes are one sized section per schema column, each holding the
    column's own marshalled section or nothing for nil. The host int width
    `w` is a parameter, as in LegacyPayload. */
module TableRow {
  import opened Errors
  import opened ByteSeq
  import opened LegacyPayload
  import opened LegacyColumnTypes
  import opened TableColumn
  import opened ColumnChecks

  type RowSchema = seq<ColumnSchema>
  type RowValue = map<Str, Value>

  /** Find (internal/table/row_schema.go:62-70): the position of the first
      column schema with the given name. */
  function Find(s: RowSchema, name: Str): (r: Result<nat>)
    ensures r.Err? <==> forall i | 0 <= i < |s| :: s[i].Name != name
    ensures r.Err? ==> r.error == NotFound
    ensures r.Ok? ==> (r.value < |s| && s[r.value].Name == name &&
                       forall j | 0 <= j < r.value :: s[j].Name != name)
  {
    if |s| == 0 then Err(NotFound)
    else if s[0].Name == name then Ok(0)
    else
      var r :- Find(s[1..], name);
      Ok(r + 1)
  }

  /** The name-keyed map of the first `n` columns, the `i`-th holding
      `vals[i]`; a later column overwrites an earlier one of the same
      name. */
  function Named(s: RowSchema, vals: seq<Value>, n: nat): RowValue
    requires n <= |s| == |vals|
  {
    if n == 0 then map[] else Named(s, vals, n - 1)[s[n - 1].Name := vals[n - 1]]
  }

  /** The map has exactly the names of the first `n` columns. */
  lemma {:induction false} NamedKeys(s: RowSchema, vals: seq<Value>, n: nat)
    requires n <= |s| == |vals|
    ensures forall k :: k in Named(s, vals, n) <==> exists i | 0 <= i < n :: s[i].Name == k
  {
    if n > 0 {
      NamedKeys(s, vals, n - 1);
      forall k | k in Named(s, vals, n) ensures exists i | 0 <= i < n :: s[i].Name == k {
        if k != s[n - 1].Name {
          assert k in Named(s, vals, n - 1);
          var i :| 0 <= i < n - 1 && s[i].Name == k;
        }
      }
    }
  }

  /** A name not repeated later among the first `n` columns holds its
      column's value. */
  lemma {:induction false} NamedValues(s: RowSchema, vals: seq<Value>, n: nat)
    requires n <= |s| == |vals|
    ensures forall i | 0 <= i < n :: (forall j | i < j < n :: s[j].Name != s[i].Name) ==>
              s[i].Name in Named(s, vals, n) && Named(s, vals, n)[s[i].Name] == vals[i]
  {
    if n > 0 {
      NamedValues(s, vals, n - 1);
      forall i | 0 <= i < n - 1 && (forall j | i < j < n :: s[j].Name != s[i].Name)
        ensures s[i].Name in Named(s, vals, n) && Named(s, vals, n)[s[i].Name] == vals[i]
      {
        assert s[n - 1].Name != s[i].Name;
      }
    }
  }

  predicate DistinctNames(s: RowSchema)
  {
    forall i, j | 0 <= i < j < |s| :: s[i].Name != s[j].Name
  }

  /** With distinct names the map holds one entry per column. */
  lemma {:induction false} NamedSize(s: RowSchema, vals: seq<Value>, n: nat)
    requires n <= |s| == |vals| && DistinctNames(s)
    ensures |Named(s, vals, n)| == n
  {
    if n > 0 {
      NamedSize(s, vals, n - 1);
      NamedKeys(s, vals, n - 1);
    }
  }

  /** The value sanitize takes for a column: the input's, else the
      column's default. */
  function Pick(c: ColumnSchema, columns: RowValue): Value
  {
    if c.Name in columns then columns[c.Name] else c.Default
  }

  function Picked(s: RowSchema, columns: RowValue): (r: seq<Value>)
    ensures |r| == |s|
  {
    seq(|s|, i requires 0 <= i < |s| => Pick(s[i], columns))
  }

  /** The validation of column `i`'s chosen value. */
  function SanitizeCheck(s: RowSchema, columns: RowValue): nat -> Option<Error>
  {
    (i: nat) => if i < |s| then Validate(s[i], Pick(s[i], columns)) else None
  }

  /** What sanitize returns: the first failing validation, or the map of
      every schema column's chosen value. */
  function Sanitized(s: RowSchema, columns: RowValue): Result<RowValue>
  {
    match FirstFrom(SanitizeCheck(s, columns), |s|, 0)
    case Some(e) => Err(e)
    case None => Ok(Named(s, Picked(s, columns), |s|))
  }

  /** sanitize (internal/table/row_schema.go:73-88). */
  method Sanitize(s: RowSchema, columns: RowValue) returns (r: Result<RowValue>)
    ensures r == Sanitized(s, columns)
  {
    var res: RowValue := map[];
    for i := 0 to |s|
      invariant forall j: nat | j < i :: SanitizeCheck(s, columns)(j).None?
      invariant res == Named(s, Picked(s, columns), i)
    {
      var col := if s[i].Name in columns then columns[s[i].Name] else s[i].Default;
      var err := Validate(s[i], col);
      if err.Some? {
        assert SanitizeCheck(s, columns)(i) == err;
        FirstFromSkip(SanitizeCheck(s, columns), |s|, i);
        return Err(err.value);
      }
      res := res[s[i].Name := col];
    }
    FirstFromSkip(SanitizeCheck(s, columns), |s|, |s|);
    return Ok(res);
  }

  /** sanitize succeeds exactly when every column's chosen value passes its
      schema, and a failure is that of the first column that fails. */
  lemma SanitizedChecks(s: RowSchema, columns: RowValue)
    ensures Sanitized(s, columns).Ok? <==>
              forall i | 0 <= i < |s| :: Validate(s[i], Pick(s[i], columns)).None?
    ensures Sanitized(s, columns).Err? ==>
              exists i | 0 <= i < |s| :: Validate(s[i], Pick(s[i], columns)) == Some(Sanitized(s, columns).error) &&
                forall j | 0 <= j < i :: Validate(s[j], Pick(s[j], columns)).None?
  {
    var check := SanitizeCheck(s, columns);
    assert forall i: nat | i < |s| :: check(i) == Validate(s[i], Pick(s[i], columns));
    FirstFromNone(check, |s|, 0);
    if FirstFrom(check, |s|, 0).Some? {
      FirstFromSome(check, |s|, 0);
    }
  }

  /** sanitize's map has exactly the schema's names, so input keys outside
      the schema are dropped, and each column (the last of a repeated name)
      holds its input value or its default. */
  lemma SanitizedColumns(s: RowSchema, columns: RowValue)
    requires Sanitized(s, columns).Ok?
    ensures forall k :: k in Sanitized(s, columns).value <==> exists i | 0 <= i < |s| :: s[i].Name == k
    ensures forall i | 0 <= i < |s| :: (forall j | i < j < |s| :: s[j].Name != s[i].Name) ==>
              s[i].Name in Sanitized(s, columns).value &&
              Sanitized(s, columns).value[s[i].Name] == Pick(s[i], columns)
  {
    NamedKeys(s, Picked(s, columns), |s|);
    NamedValues(s, Picked(s, columns), |s|);
  }

  /** A row of the older generation (internal/table/row.go:12-15); the
      mutex is not modelled. */
  class Row {
    var value: RowValue

    constructor(v: RowValue)
      ensures value == v
    {
      value := v;
    }

    /** Set (internal/table/row.go:17-31). */
    method Set(schema: RowSchema, name: Str, col: Value) returns (err: Option<Error>)
      modifies this
      ensures err == SetOutcome(schema, name, col)
      ensures err.Some? ==> value == old(value)
      ensures err.None? ==> value == old(value)[name := col]
    {
      var found := Find(schema, name);
      if found.Err? {
        return Some(found.error);
      }
      var e := Validate(schema[found.value], col);
      if e.Some? {
        return e;
      }
      value := value[name := col];
      return None;
    }

    /** Get (internal/table/row.go:33-43). */
    method Get(name: Str) returns (r: Result<Value>)
      ensures name in value ==> r == Ok(value[name])
      ensures name !in value ==> r == Err(ColumnMissing)
    {
      if name !in value {
        return Err(ColumnMissing);
      }
      return Ok(value[name]);
    }

    /** Bytes (internal/table/row.go:45-70). */
    method Bytes(w: nat, schema: RowSchema) returns (r: Result<seq<byte>>)
      ensures r == RowBytes(w, schema, value, 0)
    {
      var res: seq<byte> := [];
      match RowBytes(w, schema, value, 0) {
        case Ok(b) => assert [] + b == b;
        case Err(_) =>
      }
      for i := 0 to |schema|
        invariant RowBytes(w, schema, value, 0) == Prefixed(res, RowBytes(w, schema, value, i))
      {
        var col := if schema[i].Name in value then value[schema[i].Name] else None;
        var colBytes: seq<byte> := [];
        if col.Some? {
          var m := MarshalValue(w, col.value);
          if m.Err? {
            return Err(m.error);
          }
          colBytes := m.value;
        }
        assert CellBody(w, schema[i], value) == Ok(colBytes);
        var colPayload := New(w, colBytes);
        if colPayload.Err? {
          return Err(colPayload.error);
        }
        match RowBytes(w, schema, value, i + 1) {
          case Ok(b) => assert res + (colPayload.value + b) == (res + colPayload.value) + b;
          case Err(_) =>
        }
        res := res + colPayload.value;
      }
      assert res + [] == res;
      return Ok(res);
    }
  }

  /** What Set reports: an unknown name, else the first column of that
      name's validation. */
  function SetOutcome(schema: RowSchema, name: Str, col: Value): (r: Option<Error>)
    ensures r == Some(NotFound) <== forall i | 0 <= i < |schema| :: schema[i].Name != name
    ensures r.None? <==> exists i | 0 <= i < |schema| ::
              (schema[i].Name == name && (forall j | 0 <= j < i :: schema[j].Name != name) &&
               Validate(schema[i], col).None?)
  {
    match Find(schema, name)
    case Err(e) => Some(e)
    case Ok(i) => Validate(schema[i], col)
  }

  /** The value a row holds for a column: nil when absent. */
  function Stored(c: ColumnSchema, v: RowValue): Value
  {
    if c.Name in v then v[c.Name] else None
  }

  /** The body of a column's section: nothing for nil, else the value's
      marshalled section. */
  function CellBody(w: nat, c: ColumnSchema, v: RowValue): Result<seq<byte>>
  {
    match Stored(c, v)
    case None => Ok([])
    case Some(x) => MarshalValue(w, x)
  }

  /** The bytes of columns `i` onwards, or the first failure among them. */
  function RowBytes(w: nat, s: RowSchema, v: RowValue, i: nat): (r: Result<seq<byte>>)
    ensures KnownWidth(w) ==> r.Ok?
    decreases |s| - i
  {
    if i >= |s| then Ok([])
    else
      var body :- CellBody(w, s[i], v);
      var section :- Framed(w, body);
      var rest :- RowBytes(w, s, v, i + 1);
      Ok(section + rest)
  }

  function Prefixed(prefix: seq<byte>, r: Result<seq<byte>>): Result<seq<byte>>
  {
    match r
    case Ok(b) => Ok(prefix + b)
    case Err(e) => Err(e)
  }

  /** The framed sections of a row, one per schema column in schema order. */
  function Sections(w: nat, s: RowSchema, v: RowValue): (r: seq<seq<byte>>)
    requires KnownWidth(w)
    ensures |r| == |s|
  {
    seq(|s|, i requires 0 <= i < |s| => Frame(w, CellBody(w, s[i], v).value))
  }

  /** At a known width a row's bytes are its sections in schema order, each
      holding nothing exactly for a nil or absent value; at any other width
      a schema with columns fails. */
  lemma {:induction false} RowBytesSections(w: nat, s: RowSchema, v: RowValue, i: nat)
    requires i <= |s|
    ensures KnownWidth(w) ==> RowBytes(w, s, v, i) == Ok(Flatten(Sections(w, s, v)[i..]))
    ensures KnownWidth(w) ==> forall j | 0 <= j < |s| ::
              (|Sections(w, s, v)[j]| == w <==> Stored(s[j], v).None?)
    ensures !KnownWidth(w) && i < |s| ==> RowBytes(w, s, v, i) == Err(UnknownIntWidth)
    decreases |s| - i
  {
    if i < |s| {
      RowBytesSections(w, s, v, i + 1);
      if KnownWidth(w) {
        assert Sections(w, s, v)[i..][1..] == Sections(w, s, v)[i + 1..];
      }
    }
    if KnownWidth(w) {
      forall j | 0 <= j < |s| ensures |Sections(w, s, v)[j]| == w <==> Stored(s[j], v).None? {
        if Stored(s[j], v).Some? {
          assert |CellBody(w, s[j], v).value| > 0;
        }
      }
    }
  }

  /** The value a loaded row holds for column `i`. */
  function LoadedCol(w: nat, c: ColumnSchema, body: seq<byte>): Result<Value>
  {
    if |body| == 0 then Ok(None)
    else
      var col :- ColumnFromType(w, c.Type, body);
      Ok(Some(col))
  }

  /** What LoadRow builds from `p` once `columns` are filled: each section
      goes to the schema column at the position given by the number of
      names filled so far. */
  function LoadRowFrom(w: nat, s: RowSchema, p: seq<byte>, columns: RowValue): Result<RowValue>
    decreases |p|
  {
    if |p| == 0 then Ok(columns)
    else
      var (body, len) :- Read(w, p);
      if |columns| >= |s| then Err(Panic)
      else
        var col :- LoadedCol(w, s[|columns|], body);
        LoadRowFrom(w, s, p[len..], columns[s[|columns|].Name := col])
  }

  /** LoadRow (internal/table/row_schema.go:17-44). */
  method LoadRow(w: nat, s: RowSchema, rowPayload: seq<byte>) returns (r: Result<Row>)
    ensures LoadRowFrom(w, s, rowPayload, map[]).Err? ==>
              r == Err(LoadRowFrom(w, s, rowPayload, map[]).error)
    ensures LoadRowFrom(w, s, rowPayload, map[]).Ok? ==>
              r.Ok? && fresh(r.value) && r.value.value == LoadRowFrom(w, s, rowPayload, map[]).value
  {
    var columns: RowValue := map[];
    var p := rowPayload;
    while |p| != 0
      invariant LoadRowFrom(w, s, rowPayload, map[]) == LoadRowFrom(w, s, p, columns)
      decreases |p|
    {
      var read := Read(w, p);
      if read.Err? {
        return Err(read.error);
      }
      var (colPayload, colPayloadLen) := read.value;
      if |columns| >= |s| {
        return Err(Panic);
      }
      var colSchema := s[|columns|];
      var col: Value := None;
      if |colPayload| != 0 {
        var c := ColumnFromType(w, colSchema.Type, colPayload);
        if c.Err? {
          return Err(c.error);
        }
        col := Some(c.value);
      }
      columns := columns[colSchema.Name := col];
      p := p[colPayloadLen..];
    }
    var row := new Row(columns);
    return Ok(row);
  }

  /** Row (internal/table/row_schema.go:49-59): a fresh row holding the
      sanitized map. */
  method NewRow(s: RowSchema, columns: RowValue) returns (r: Result<Row>)
    ensures Sanitized(s, columns).Err? ==> r == Err(Sanitized(s, columns).error)
    ensures Sanitized(s, columns).Ok? ==>
              r.Ok? && fresh(r.value) && r.value.value == Sanitized(s, columns).value
  {
    var val := Sanitize(s, columns);
    if val.Err? {
      return Err(val.error);
    }
    var row := new Row(val.value);
    return Ok(row);
  }

  /** A row whose every value is of its column's type and survives its
      codec. */
  predicate Storable(w: nat, s: RowSchema, v: RowValue)
  {
    KnownWidth(w) && DistinctNames(s) &&
    forall i | 0 <= i < |s| :: Stored(s[i], v).Some? ==>
      TypeOf(Stored(s[i], v).value) == s[i].Type && RoundTrips(w, Stored(s[i], v).value)
  }

  /** The value a row holds for each schema column. */
  function StoredAll(s: RowSchema, v: RowValue): (r: seq<Value>)
    ensures |r| == |s|
  {
    seq(|s|, i requires 0 <= i < |s| => Stored(s[i], v))
  }

  /** The map LoadRow gives back for a row's bytes: every schema name, with
      nil for a column the row does not hold. */
  function Reloaded(s: RowSchema, v: RowValue): RowValue
  {
    Named(s, StoredAll(s, v), |s|)
  }

  /** Loading one column's section fills that column and moves past it. */
  lemma LoadStep(w: nat, s: RowSchema, v: RowValue, i: nat, rest: seq<byte>)
    requires Storable(w, s, v) && i < |s|
    requires Framable(w, Frame(w, CellBody(w, s[i], v).value) + rest)
    ensures LoadRowFrom(w, s, Frame(w, CellBody(w, s[i], v).value) + rest, Named(s, StoredAll(s, v), i)) ==
            LoadRowFrom(w, s, rest, Named(s, StoredAll(s, v), i + 1))
  {
    var body := CellBody(w, s[i], v).value;
    var p := Frame(w, body) + rest;
    ReadOfFrame(w, body, rest);
    NamedSize(s, StoredAll(s, v), i);
    if Stored(s[i], v).Some? {
      ColumnFromMarshal(w, s[i].Type, Stored(s[i], v).value, []);
      assert body + [] == body;
    }
    assert LoadedCol(w, s[i], body) == Ok(StoredAll(s, v)[i]);
    DropPrefix(Frame(w, body), rest);
  }

  /** Loading a row's sections fills every column and leaves what follows. */
  lemma {:induction false} LoadSections(w: nat, s: RowSchema, v: RowValue, i: nat, rest: seq<byte>)
    requires Storable(w, s, v) && i <= |s|
    requires Framable(w, Flatten(Sections(w, s, v)[i..]) + rest)
    ensures LoadRowFrom(w, s, Flatten(Sections(w, s, v)[i..]) + rest, Named(s, StoredAll(s, v), i)) ==
            LoadRowFrom(w, s, rest, Reloaded(s, v))
    decreases |s| - i
  {
    var secs := Sections(w, s, v);
    if i < |s| {
      var body := CellBody(w, s[i], v).value;
      var tail := Flatten(secs[i + 1..]);
      assert secs[i..][1..] == secs[i + 1..];
      assert Flatten(secs[i..]) == Frame(w, body) + tail;
      ConcatAssoc(Frame(w, body), tail, rest);
      LoadStep(w, s, v, i, tail + rest);
      LoadSections(w, s, v, i + 1, rest);
    } else {
      assert Flatten(secs[i..]) + rest == rest;
    }
  }

  /** LoadRow gives back every column of a row built from its schema:
      absent values come back as nil, and the bytes need only fit one
      section. */
  lemma LoadRowOfBytes(w: nat, s: RowSchema, v: RowValue)
    requires Storable(w, s, v)
    requires Framable(w, RowBytes(w, s, v, 0).value)
    ensures LoadRowFrom(w, s, RowBytes(w, s, v, 0).value, map[]) == Ok(Reloaded(s, v))
  {
    RowBytesSections(w, s, v, 0);
    assert Sections(w, s, v)[0..] == Sections(w, s, v);
    assert RowBytes(w, s, v, 0).value + [] == RowBytes(w, s, v, 0).value;
    LoadSections(w, s, v, 0, []);
  }

  /** One section more than the schema has columns panics: the position
      of the next column schema is not checked. */
  lemma LoadRowExtraSection(w: nat, s: RowSchema, v: RowValue, extra: seq<byte>)
    requires Storable(w, s, v)
    requires Framable(w, RowBytes(w, s, v, 0).value + Frame(w, extra))
    ensures LoadRowFrom(w, s, RowBytes(w, s, v, 0).value + Frame(w, extra), map[]) == Err(Panic)
  {
    RowBytesSections(w, s, v, 0);
    assert Sections(w, s, v)[0..] == Sections(w, s, v);
    LoadSections(w, s, v, 0, Frame(w, extra));
    NamedSize(s, StoredAll(s, v), |s|);
    assert Frame(w, extra) + [] == Frame(w, extra);
    ReadOfFrame(w, extra, []);
  }
}
