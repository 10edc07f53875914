/** The in-memory table of the older generation (internal/table/table.go):
    a name, a row schema and a list of rows. Its bytes are one outer sized
    section holding one sized section per row, in order. The host int
    width `w` is a parameter, as in LegacyPayload. */
module MemTable {
  import opened Errors
  import opened ByteSeq
  import opened LegacyPayload
  import opened TableRow

  /** The maps the rows hold, in order. */
  function ValuesOf(rows: seq<Row>): (r: seq<RowValue>)
    reads rows
    ensures |r| == |rows| && forall i | 0 <= i < |rows| :: r[i] == rows[i].value
  {
    seq(|rows|, i requires 0 <= i < |rows| reads rows => rows[i].value)
  }

  /** The sections of rows `i` onwards, or the first failure among them. */
  function RowsBody(w: nat, s: RowSchema, vals: seq<RowValue>, i: nat): Result<seq<byte>>
    decreases |vals| - i
  {
    if i >= |vals| then Ok([])
    else
      var rowBytes :- RowBytes(w, s, vals[i], 0);
      var section :- Framed(w, rowBytes);
      var rest :- RowsBody(w, s, vals, i + 1);
      Ok(section + rest)
  }

  /** What Table.Bytes returns for rows holding `vals`. */
  function TableBytes(w: nat, s: RowSchema, vals: seq<RowValue>): Result<seq<byte>>
  {
    var body :- RowsBody(w, s, vals, 0);
    Framed(w, body)
  }

  /** What the load loop builds from the body of the outer section. */
  function LoadRowsFrom(w: nat, s: RowSchema, p: seq<byte>): Result<seq<RowValue>>
    decreases |p|
  {
    if |p| == 0 then Ok([])
    else
      var (rowPayload, len) :- Read(w, p);
      var row :- LoadRowFrom(w, s, rowPayload, map[]);
      var rest :- LoadRowsFrom(w, s, p[len..]);
      Ok([row] + rest)
  }

  /** What Table.Load reads from a table's bytes: the rows of the outer
      section's body; bytes after the outer section are ignored. */
  function LoadTable(w: nat, s: RowSchema, p: seq<byte>): Result<seq<RowValue>>
  {
    var (rowsPayload, _) :- Read(w, p);
    LoadRowsFrom(w, s, rowsPayload)
  }

  function PrefixedRows(prefix: seq<RowValue>, r: Result<seq<RowValue>>): Result<seq<RowValue>>
  {
    match r
    case Ok(rows) => Ok(prefix + rows)
    case Err(e) => Err(e)
  }

  /** internal/table/table.go:11-16; the mutex is not modelled. */
  class Table {
    var Name: Str
    var RowSchema: RowSchema
    var Rows: seq<Row>

    constructor(name: Str, schema: RowSchema, rows: seq<Row>)
      ensures Name == name && RowSchema == schema && Rows == rows
    {
      Name := name;
      RowSchema := schema;
      Rows := rows;
    }

    /** Bytes (internal/table/table.go:18-37). */
    method Bytes(w: nat) returns (r: Result<seq<byte>>)
      ensures r == TableBytes(w, RowSchema, ValuesOf(Rows))
    {
      var rows, schema := Rows, RowSchema;
      ghost var vals := ValuesOf(rows);
      var bytes: seq<byte> := [];
      PrefixedNothing(RowsBody(w, schema, vals, 0));
      for i := 0 to |rows|
        invariant RowsBody(w, schema, vals, 0) == Prefixed(bytes, RowsBody(w, schema, vals, i))
      {
        var rowBytes := rows[i].Bytes(w, schema);
        if rowBytes.Err? {
          return Err(rowBytes.error);
        }
        var rowPayload := New(w, rowBytes.value);
        if rowPayload.Err? {
          return Err(rowPayload.error);
        }
        BodyStep(w, schema, vals, i, bytes, rowPayload.value);
        bytes := bytes + rowPayload.value;
      }
      assert bytes + [] == bytes;
      r := New(w, bytes);
    }

    /** Append (internal/table/table.go:39-43). */
    method Append(row: Row)
      modifies this
      ensures Rows == old(Rows) + [row]
      ensures Name == old(Name) && RowSchema == old(RowSchema)
    {
      Rows := Rows + [row];
    }

    /** Get (internal/table/table.go:45-53): only a position past the end
        is refused; the end itself and a negative position are out of
        range for the index. */
    method Get(i: int) returns (r: Result<Row>)
      ensures 0 <= i < |Rows| ==> r == Ok(Rows[i])
      ensures i > |Rows| ==> r == Err(InvalidRowId)
      ensures i < 0 || i == |Rows| ==> r == Err(Panic)
    {
      if i > |Rows| {
        return Err(InvalidRowId);
      }
      if i < 0 || i == |Rows| {
        return Err(Panic);
      }
      return Ok(Rows[i]);
    }

    /** Update (internal/table/table.go:55-64), with the same check as
        Get. */
    method Update(i: int, row: Row) returns (err: Option<Error>)
      modifies this
      ensures 0 <= i < |old(Rows)| ==> err == None && Rows == old(Rows)[i := row]
      ensures i > |old(Rows)| ==> err == Some(InvalidRowId) && Rows == old(Rows)
      ensures i < 0 || i == |old(Rows)| ==> err == Some(Panic) && Rows == old(Rows)
      ensures Name == old(Name) && RowSchema == old(RowSchema)
    {
      if i > |Rows| {
        return Some(InvalidRowId);
      }
      if i < 0 || i == |Rows| {
        return Some(Panic);
      }
      Rows := Rows[i := row];
      return None;
    }

    /** Load (internal/table/table.go:66-93): the rows are replaced only
        once every row has loaded. */
    method Load(w: nat, tablePayload: seq<byte>) returns (err: Option<Error>)
      modifies this
      ensures LoadTable(w, RowSchema, tablePayload).Err? ==>
                err == Some(LoadTable(w, RowSchema, tablePayload).error) && Rows == old(Rows)
      ensures LoadTable(w, RowSchema, tablePayload).Ok? ==>
                err == None && ValuesOf(Rows) == LoadTable(w, RowSchema, tablePayload).value &&
                forall i | 0 <= i < |Rows| :: fresh(Rows[i])
      ensures Name == old(Name) && RowSchema == old(RowSchema)
    {
      var schema := RowSchema;
      var outer := Read(w, tablePayload);
      if outer.Err? {
        return Some(outer.error);
      }
      var rows := ReadRows(w, schema, outer.value.0);
      if rows.Err? {
        return Some(rows.error);
      }
      Rows := rows.value;
      return None;
    }
  }

  /** The row loop of Load (internal/table/table.go:72-86): every row
      section of the payload loaded into a fresh row, in order, or the
      first failure. */
  method ReadRows(w: nat, schema: RowSchema, rowsPayload: seq<byte>) returns (r: Result<seq<Row>>)
    ensures LoadRowsFrom(w, schema, rowsPayload).Err? ==> r == Err(LoadRowsFrom(w, schema, rowsPayload).error)
    ensures LoadRowsFrom(w, schema, rowsPayload).Ok? ==>
              r.Ok? && ValuesOf(r.value) == LoadRowsFrom(w, schema, rowsPayload).value &&
              forall i | 0 <= i < |r.value| :: fresh(r.value[i])
  {
    var p := rowsPayload;
    var rows: seq<Row> := [];
    ghost var vals: seq<RowValue> := [];
    PrefixedNoRows(LoadRowsFrom(w, schema, p));
    while |p| != 0
      invariant LoadRowsFrom(w, schema, rowsPayload) == PrefixedRows(vals, LoadRowsFrom(w, schema, p))
      invariant ValuesOf(rows) == vals
      invariant forall i | 0 <= i < |rows| :: fresh(rows[i])
      decreases |p|
    {
      RowsStep(w, schema, p, vals);
      var read := Read(w, p);
      if read.Err? {
        return Err(read.error);
      }
      var (rowPayload, rowPayloadLen) := read.value;
      var row := LoadRow(w, schema, rowPayload);
      if row.Err? {
        return Err(row.error);
      }
      ValuesOfAppend(rows, row.value);
      rows := rows + [row.value];
      vals := vals + [row.value.value];
      p := p[rowPayloadLen..];
    }
    assert vals + [] == vals;
    return Ok(rows);
  }

  lemma ValuesOfAppend(rows: seq<Row>, row: Row)
    ensures ValuesOf(rows + [row]) == ValuesOf(rows) + [row.value]
  {
  }

  lemma PrefixedNothing(r: Result<seq<byte>>)
    ensures Prefixed([], r) == r
  {
    if r.Ok? {
      assert [] + r.value == r.value;
    }
  }

  lemma PrefixedNoRows(r: Result<seq<RowValue>>)
    ensures PrefixedRows([], r) == r
  {
    if r.Ok? {
      assert [] + r.value == r.value;
    }
  }

  /** One more row's section moves into the prefix. */
  lemma BodyStep(w: nat, s: RowSchema, vals: seq<RowValue>, i: nat, prefix: seq<byte>, section: seq<byte>)
    requires i < |vals| && RowBytes(w, s, vals[i], 0).Ok?
    requires Framed(w, RowBytes(w, s, vals[i], 0).value) == Ok(section)
    ensures Prefixed(prefix, RowsBody(w, s, vals, i)) == Prefixed(prefix + section, RowsBody(w, s, vals, i + 1))
  {
    match RowsBody(w, s, vals, i + 1) {
      case Ok(b) => assert prefix + (section + b) == (prefix + section) + b;
      case Err(_) =>
    }
  }

  /** The first row section decides the load: a framing or row error is
      reported, and a loaded row moves into the prefix. */
  lemma RowsStep(w: nat, s: RowSchema, p: seq<byte>, prefix: seq<RowValue>)
    requires |p| != 0
    ensures Read(w, p).Err? ==> PrefixedRows(prefix, LoadRowsFrom(w, s, p)) == Err(Read(w, p).error)
    ensures Read(w, p).Ok? && LoadRowFrom(w, s, Read(w, p).value.0, map[]).Err? ==>
              PrefixedRows(prefix, LoadRowsFrom(w, s, p)) == Err(LoadRowFrom(w, s, Read(w, p).value.0, map[]).error)
    ensures Read(w, p).Ok? && LoadRowFrom(w, s, Read(w, p).value.0, map[]).Ok? ==>
              PrefixedRows(prefix, LoadRowsFrom(w, s, p)) ==
              PrefixedRows(prefix + [LoadRowFrom(w, s, Read(w, p).value.0, map[]).value],
                           LoadRowsFrom(w, s, p[Read(w, p).value.1..]))
  {
    if Read(w, p).Ok? && LoadRowFrom(w, s, Read(w, p).value.0, map[]).Ok? {
      var row := LoadRowFrom(w, s, Read(w, p).value.0, map[]).value;
      match LoadRowsFrom(w, s, p[Read(w, p).value.1..]) {
        case Ok(b) => assert prefix + ([row] + b) == (prefix + [row]) + b;
        case Err(_) =>
      }
    }
  }

  /** The framed rows of a table, one per row in order. */
  function RowSections(w: nat, s: RowSchema, vals: seq<RowValue>): (r: seq<seq<byte>>)
    requires KnownWidth(w)
    ensures |r| == |vals|
  {
    seq(|vals|, i requires 0 <= i < |vals| => Frame(w, RowBytes(w, s, vals[i], 0).value))
  }

  /** At a known width a table's bytes are one outer section holding each
      row's bytes in a section of its own, in order. */
  lemma {:induction false} RowsBodySections(w: nat, s: RowSchema, vals: seq<RowValue>, i: nat)
    requires KnownWidth(w) && i <= |vals|
    ensures RowsBody(w, s, vals, i) == Ok(Flatten(RowSections(w, s, vals)[i..]))
    decreases |vals| - i
  {
    if i < |vals| {
      RowsBodySections(w, s, vals, i + 1);
      assert RowSections(w, s, vals)[i..][1..] == RowSections(w, s, vals)[i + 1..];
    }
  }

  lemma TableBytesLayout(w: nat, s: RowSchema, vals: seq<RowValue>)
    requires KnownWidth(w)
    ensures TableBytes(w, s, vals) == Ok(Frame(w, Flatten(RowSections(w, s, vals))))
  {
    RowsBodySections(w, s, vals, 0);
    assert RowSections(w, s, vals)[0..] == RowSections(w, s, vals);
  }

  /** The rows Load gives back for rows holding `vals`. */
  function ReloadedRows(s: RowSchema, vals: seq<RowValue>): (r: seq<RowValue>)
    ensures |r| == |vals|
  {
    seq(|vals|, i requires 0 <= i < |vals| => Reloaded(s, vals[i]))
  }

  /** Each of a list of byte strings in a section of its own. */
  function FramedAll(w: nat, bodies: seq<seq<byte>>): (r: seq<seq<byte>>)
    ensures |r| == |bodies|
  {
    seq(|bodies|, k requires 0 <= k < |bodies| => Frame(w, bodies[k]))
  }

  /** Consecutive row sections load as their rows, in order. */
  lemma {:induction false} LoadFramedRows(w: nat, s: RowSchema, bodies: seq<seq<byte>>, rows: seq<RowValue>, i: nat)
    requires KnownWidth(w) && i <= |bodies| == |rows|
    requires forall k | 0 <= k < |bodies| :: LoadRowFrom(w, s, bodies[k], map[]) == Ok(rows[k])
    requires Framable(w, Flatten(FramedAll(w, bodies)[i..]))
    ensures LoadRowsFrom(w, s, Flatten(FramedAll(w, bodies)[i..])) == Ok(rows[i..])
    decreases |bodies| - i
  {
    var secs := FramedAll(w, bodies);
    if i < |bodies| {
      var rest := Flatten(secs[i + 1..]);
      FlattenAt(secs, i);
      LoadRowSection(w, s, bodies[i], rest, rows[i]);
      LoadFramedRows(w, s, bodies, rows, i + 1);
      SuffixAt(rows, i);
    }
  }

  /** A row's section is loaded as that row, followed by what comes after. */
  lemma LoadRowSection(w: nat, s: RowSchema, rowBytes: seq<byte>, rest: seq<byte>, row: RowValue)
    requires KnownWidth(w) && Framable(w, Frame(w, rowBytes) + rest)
    requires LoadRowFrom(w, s, rowBytes, map[]) == Ok(row)
    ensures LoadRowsFrom(w, s, Frame(w, rowBytes) + rest) == PrefixedRows([row], LoadRowsFrom(w, s, rest))
  {
    ReadOfFrame(w, rowBytes, rest);
    DropPrefix(Frame(w, rowBytes), rest);
  }

  /** Load gives back the table's rows from its bytes: as many rows, in
      order, each holding every schema column, with nil where the row held
      nothing. The rows' sections together need only fit one section. */
  lemma LoadOfBytes(w: nat, s: RowSchema, vals: seq<RowValue>)
    requires KnownWidth(w)
    requires forall k | 0 <= k < |vals| :: Storable(w, s, vals[k])
    requires Framable(w, Flatten(RowSections(w, s, vals)))
    ensures TableBytes(w, s, vals).Ok? &&
            LoadTable(w, s, TableBytes(w, s, vals).value) == Ok(ReloadedRows(s, vals))
  {
    var bodies := RowBodies(w, s, vals);
    AllRowsLoadBack(w, s, vals);
    var body := Flatten(RowSections(w, s, vals));
    TableBytesLayout(w, s, vals);
    assert Frame(w, body) + [] == Frame(w, body);
    ReadOfFrame(w, body, []);
    assert FramedAll(w, bodies)[0..] == FramedAll(w, bodies);
    LoadFramedRows(w, s, bodies, ReloadedRows(s, vals), 0);
  }

  /** The bytes of each row, in order. */
  function RowBodies(w: nat, s: RowSchema, vals: seq<RowValue>): (r: seq<seq<byte>>)
    requires KnownWidth(w)
    ensures |r| == |vals|
  {
    seq(|vals|, k requires 0 <= k < |vals| => RowBytes(w, s, vals[k], 0).value)
  }

  lemma AllRowsLoadBack(w: nat, s: RowSchema, vals: seq<RowValue>)
    requires KnownWidth(w)
    requires forall k | 0 <= k < |vals| :: Storable(w, s, vals[k])
    requires Framable(w, Flatten(RowSections(w, s, vals)))
    ensures FramedAll(w, RowBodies(w, s, vals)) == RowSections(w, s, vals)
    ensures forall k | 0 <= k < |vals| ::
              LoadRowFrom(w, s, RowBodies(w, s, vals)[k], map[]) == Ok(ReloadedRows(s, vals)[k])
  {
    forall k | 0 <= k < |vals|
      ensures LoadRowFrom(w, s, RowBodies(w, s, vals)[k], map[]) == Ok(ReloadedRows(s, vals)[k])
    {
      RowLoadsBack(w, s, vals, k);
    }
  }

  /** Each row of a table whose sections fit loads back from its bytes. */
  lemma RowLoadsBack(w: nat, s: RowSchema, vals: seq<RowValue>, k: nat)
    requires KnownWidth(w) && k < |vals| && Storable(w, s, vals[k])
    requires Framable(w, Flatten(RowSections(w, s, vals)))
    ensures LoadRowFrom(w, s, RowBytes(w, s, vals[k], 0).value, map[]) == Ok(Reloaded(s, vals[k]))
  {
    FlattenShorter(RowSections(w, s, vals), k);
    LoadRowOfBytes(w, s, vals[k]);
  }

  /** No part is longer than the whole. */
  lemma {:induction false} FlattenShorter(ss: seq<seq<byte>>, k: nat)
    requires k < |ss|
    ensures |ss[k]| <= |Flatten(ss)|
  {
    if k > 0 {
      FlattenShorter(ss[1..], k - 1);
    }
  }
}
