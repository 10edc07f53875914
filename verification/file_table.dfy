/** File-backed tables of the grid generation (pkg/engine/structure/table.go
    and pkg/engine/table/table.go). Both run the same row arithmetic over a
    data file and a schema file, but they name and reach those files
    differently. pkg/engine/table names them `<name>.data` and
    `<name>.schema` and opens them as given. pkg/engine/structure names them
    `data.bin` and `schema.bin` inside the table's directory for reads at an
    offset and for writes. Its storage's Info and ReadAll
    (pkg/engine/storage/read.go:25-31), however, take the bare file name, so
    TotalRows and load reach `data.bin` and `schema.bin` in the process's
    working directory. Those two files are parameters of TotalRows and Load
    here; they are the table's own files only when the table's directory is
    the working directory. Each file is modelled as its byte contents. The two
    storage primitives the table uses, a range read and a write at an offset,
    follow the operating system's ReadAt and WriteAt. */
module FileTable {
  import opened Errors
  import opened ByteSeq
  import GridRowSchema

  /** ReadPartials for one partial (pkg/storage/read.go:28-44): the buffer
      of length to - from is allocated first, which panics when negative;
      a negative start is refused; an empty read succeeds wherever it
      starts; a read that does not fit the file reports the end of file. */
  function ReadRange(data: seq<byte>, from: int, to: int): (r: Result<seq<byte>>)
    ensures r.Ok? <==> from <= to && 0 <= from && (from == to || to <= |data|)
    ensures r.Ok? ==> |r.value| == to - from
    ensures r.Ok? && from < to ==> r.value == data[from..to]
    ensures to < from ==> r == Err(Panic)
    ensures from <= to && from < 0 ==> r == Err(NegativeOffset)
  {
    if to - from < 0 then Err(Panic)
    else if from < 0 then Err(NegativeOffset)
    else if to - from == 0 then Ok([])
    else if to > |data| then Err(ReadPastEnd)
    else Ok(data[from..to])
  }

  /** The file after writing `r` at `off`, past the end when off > |data|:
      the gap is zero-filled and the bytes after the write are kept. */
  function Patched(data: seq<byte>, off: nat, r: seq<byte>): (p: seq<byte>)
    ensures |p| == if off + |r| > |data| then off + |r| else |data|
    ensures p[off..off + |r|] == r
    ensures forall i | 0 <= i < |p| && !(off <= i < off + |r|) ::
              p[i] == if i < |data| then data[i] else 0
  {
    var padded := if off > |data| then data + Zeros(off - |data|) else data;
    padded[..off] + r + (if off + |r| < |data| then data[off + |r|..] else [])
  }

  /** Offset (pkg/storage/write.go:53-65): WriteAt refuses a negative
      offset, and writing nothing leaves the file as it was even past its
      end. */
  function WrittenAt(data: seq<byte>, off: int, r: seq<byte>): (w: Result<seq<byte>>)
    ensures w.Err? <==> off < 0
    ensures w.Err? ==> w.error == NegativeOffset
    ensures w.Ok? && |r| == 0 ==> w.value == data
    ensures w.Ok? && |r| > 0 ==> w.value == Patched(data, off, r)
  {
    if off < 0 then Err(NegativeOffset)
    else if |r| == 0 then Ok(data)
    else Ok(Patched(data, off, r))
  }

  /** Go's int64 division of a file size by a non-zero row size, which
      truncates toward zero. */
  function Quotient(size: nat, d: int): (q: int)
    requires d != 0
    ensures d > 0 ==> q * d <= size < q * d + d
    ensures d < 0 ==> q == -(size / -d)
  {
    if d > 0 then size / d else -(size / -d)
  }

  /** TotalRows: the data file's size divided by the row size; a zero row
      size is an integer division by zero. */
  function RowCount(size: nat, rowSize: int): (r: Result<int>)
    ensures r.Err? <==> rowSize == 0
    ensures r.Err? ==> r.error == Panic
    ensures rowSize > 0 ==> r.Ok? && r.value >= 0 && r.value * rowSize <= size < (r.value + 1) * rowSize
  {
    if rowSize == 0 then Err(Panic) else Ok(Quotient(size, rowSize))
  }

  /** Row: rows are numbered from 1; row `id` is the range
      [rowSize * (id - 1), rowSize * id) of the data file. */
  function RowAt(data: seq<byte>, rowSize: int, id: int): Result<seq<byte>>
  {
    if id < 1 then Err(InvalidRowId)
    else ReadRange(data, rowSize * (id - 1), rowSize * id)
  }

  /** Set: row `id` is written over the data file at its row's offset. */
  function SetAt(data: seq<byte>, rowSize: int, id: int, r: seq<byte>): Result<seq<byte>>
  {
    if id < 1 then Err(InvalidRowId)
    else WrittenAt(data, rowSize * (id - 1), r)
  }

  /** The Go struct with its two files. Go's schema field is nil until
      load or the constructor of a new table sets it; here it is always
      set. */
  class Table {
    const name: Str
    var schema: GridRowSchema.Schema
    var schemaFile: seq<byte>
    var dataFile: seq<byte>

    constructor(name: Str, schema: GridRowSchema.Schema, schemaFile: seq<byte>, dataFile: seq<byte>)
      ensures this.name == name && this.schema == schema
      ensures this.schemaFile == schemaFile && this.dataFile == dataFile
    {
      this.name := name;
      this.schema := schema;
      this.schemaFile := schemaFile;
      this.dataFile := dataFile;
    }

    /** TotalRows (pkg/engine/structure/table.go:37-44): the size of the
      data file that Info stats, `statted`, divided by the row size. Info
      takes the bare file name, so `statted` is the working directory's
      `data.bin`, which is `dataFile` only for a table kept in the working
      directory. */
    method TotalRows(statted: seq<byte>) returns (r: Result<int>)
      ensures r == RowCount(|statted|, schema.rowSize)
    {
      var rowSize := schema.ByteSize();
      if rowSize == 0 {
        return Err(Panic);
      }
      return Ok(Quotient(|statted|, rowSize));
    }

    /** Row (pkg/engine/structure/table.go:50-66). */
    method Row(id: int) returns (r: Result<seq<byte>>)
      ensures r == RowAt(dataFile, schema.rowSize, id)
    {
      if id < 1 {
        return Err(InvalidRowId);
      }
      var rowSize := schema.ByteSize();
      r := ReadRange(dataFile, rowSize * (id - 1), rowSize * id);
    }

    /** Set (pkg/engine/structure/table.go:68-76): on failure the data file
      is left as it was. */
    method Set(id: int, r: seq<byte>) returns (err: Option<Error>)
      modifies this
      ensures var w := SetAt(old(dataFile), schema.rowSize, id, r);
              (w.Err? ==> err == Some(w.error) && dataFile == old(dataFile)) &&
              (w.Ok? ==> err.None? && dataFile == w.value)
      ensures schema == old(schema) && schemaFile == old(schemaFile)
    {
      if id < 1 {
        return Some(InvalidRowId);
      }
      var w := WrittenAt(dataFile, schema.ByteSize() * (id - 1), r);
      if w.Err? {
        return Some(w.error);
      }
      dataFile := w.value;
      return None;
    }

    /** Append (pkg/engine/structure/table.go:78-83). */
    method Append(r: seq<byte>)
      modifies this
      ensures dataFile == old(dataFile) + r
      ensures schema == old(schema) && schemaFile == old(schemaFile)
    {
      dataFile := dataFile + r;
    }

    /** load (pkg/engine/structure/table.go:95-107): a fresh empty schema is
      installed before it loads the schema payload ReadAll returns, `read`,
      so it stays in place when loading fails. ReadAll takes the bare file
      name, so `read` is the working directory's `schema.bin`, which is
      `schemaFile` only for a table kept in the working directory. */
    method Load(read: seq<byte>) returns (err: Option<Error>)
      modifies this
      ensures fresh(schema)
      ensures (schema.columnSchemas, schema.rowSize, err) == GridRowSchema.Loaded([], 0, read)
      ensures schemaFile == old(schemaFile) && dataFile == old(dataFile)
    {
      var s := new GridRowSchema.Schema([], 0);
      schema := s;
      err := s.Load(read);
    }

    /** create (pkg/engine/structure/table.go:109-121): the schema file
      receives the schema's bytes and the data file is emptied; a schema
      that cannot be written leaves both files alone. */
    method Create() returns (err: Option<Error>)
      modifies this
      ensures var b := GridRowSchema.BytesOf(schema.columnSchemas, schema.rowSize);
              (b.Err? ==> err == Some(b.error) && schemaFile == old(schemaFile) && dataFile == old(dataFile)) &&
              (b.Ok? ==> err.None? && schemaFile == b.value && dataFile == [])
      ensures schema == old(schema)
      ensures unchanged(schema)
    {
      var b := schema.Bytes();
      if b.Err? {
        return Some(b.error);
      }
      schemaFile := b.value;
      dataFile := [];
      return None;
    }
  }

  /** A row lies in the file exactly when its range does: with a positive
      row size, row `id` reads back as its `rowSize` bytes when
      rowSize * id <= |data| and fails otherwise. */
  lemma RowAtMeaning(data: seq<byte>, rowSize: int, id: int)
    requires rowSize > 0
    ensures RowAt(data, rowSize, id).Ok? <==> 1 <= id && rowSize * id <= |data|
    ensures RowAt(data, rowSize, id).Ok? ==>
              RowAt(data, rowSize, id).value == data[rowSize * (id - 1)..rowSize * id]
    ensures id < 1 ==> RowAt(data, rowSize, id) == Err(InvalidRowId)
  {
    if id >= 1 {
      assert rowSize * id == rowSize * (id - 1) + rowSize;
    }
  }

  /** Appending a row to a file of whole rows adds one to the row count of
      that file, and the new last row reads back as the appended bytes. The
      count is TotalRows' only when TotalRows stats the file appended to:
      always in pkg/engine/table, and in pkg/engine/structure only for a
      table kept in the working directory. */
  lemma AppendThenRow(data: seq<byte>, rowSize: int, r: seq<byte>)
    requires rowSize > 0 && |r| == rowSize && |data| % rowSize == 0
    ensures RowCount(|data + r|, rowSize) == Ok(|data| / rowSize + 1)
    ensures RowAt(data + r, rowSize, |data| / rowSize + 1) == Ok(r)
  {
    var n := |data| / rowSize;
    assert |data| == rowSize * n;
    assert |data + r| == rowSize * (n + 1);
    DivOfMultiple(n + 1, rowSize);
    assert rowSize * (n + 1 - 1) == |data|;
    assert (data + r)[|data|..|data + r|] == r;
  }

  /** (k * d) / d == k */
  lemma DivOfMultiple(k: nat, d: int)
    requires d > 0
    ensures (d * k) / d == k
  {
    DivModUnique(d * k, d, k, 0);
  }

  /** A row that was set reads back as the bytes written, wherever it lies;
      the write fails only for row numbers below 1. */
  lemma SetThenRow(data: seq<byte>, rowSize: int, id: int, r: seq<byte>)
    requires rowSize > 0 && |r| == rowSize
    ensures SetAt(data, rowSize, id, r).Ok? <==> id >= 1
    ensures id >= 1 ==> RowAt(SetAt(data, rowSize, id, r).value, rowSize, id) == Ok(r)
  {
    if id >= 1 {
      var off := rowSize * (id - 1);
      assert rowSize * id == off + rowSize;
      var p := SetAt(data, rowSize, id, r).value;
      assert p == Patched(data, off, r);
      assert p[off..off + |r|] == r;
    }
  }

  /** The bytes of a patched file outside the written range, and before
      the old end, are the old ones. */
  lemma PatchedOutside(data: seq<byte>, off: nat, r: seq<byte>, from: nat, to: nat)
    requires from <= to <= |data| && (to <= off || off + |r| <= from)
    ensures Patched(data, off, r)[from..to] == data[from..to]
  {
    var p := Patched(data, off, r);
    assert forall i | from <= i < to :: p[i] == data[i];
  }

  /** The bytes of the gap between the old end and the write are zeros. */
  lemma PatchedGap(data: seq<byte>, off: nat, r: seq<byte>, from: nat, to: nat)
    requires |data| <= from <= to <= off
    ensures Patched(data, off, r)[from..to] == Zeros(to - from)
  {
    var p := Patched(data, off, r);
    assert forall i | from <= i < to :: p[i] == 0;
  }

  /** Rows `a` < `b` occupy disjoint ranges, the first ending where the
      second may begin at the earliest. */
  lemma {:induction false} RowsApart(rowSize: int, a: int, b: int)
    requires rowSize > 0 && 1 <= a < b
    ensures rowSize * a <= rowSize * (b - 1)
    decreases b - a
  {
    if a + 1 < b {
      RowsApart(rowSize, a, b - 1);
      RowEnd(rowSize, b - 1);
    }
  }

  /** Row `id` ends one row size after it starts. */
  lemma RowEnd(rowSize: int, id: int)
    ensures rowSize * (id - 1) + rowSize == rowSize * id
  {
  }

  /** Setting one row leaves every other row of the file as it read
      before. */
  lemma SetKeepsOtherRows(data: seq<byte>, rowSize: int, id: int, other: int, r: seq<byte>)
    requires rowSize > 0 && |r| == rowSize && id >= 1 && other >= 1 && id != other
    requires rowSize * other <= |data|
    ensures RowAt(SetAt(data, rowSize, id, r).value, rowSize, other) == RowAt(data, rowSize, other)
  {
    var off := rowSize * (id - 1);
    var from := rowSize * (other - 1);
    var to := rowSize * other;
    assert to == from + rowSize && off + rowSize == rowSize * id;
    if other < id {
      RowsApart(rowSize, other, id);
    } else {
      RowsApart(rowSize, id, other);
    }
    PatchedOutside(data, off, r, from, to);
  }

  /** Setting a row inside the file keeps its size and so its row count;
      setting one past the end grows the file to end at that row, and every
      row of the gap reads back as zeros. */
  lemma SetSize(data: seq<byte>, rowSize: int, id: int, r: seq<byte>)
    requires rowSize > 0 && |r| == rowSize && id >= 1
    ensures rowSize * id <= |data| ==> |SetAt(data, rowSize, id, r).value| == |data|
    ensures rowSize * id > |data| ==> |SetAt(data, rowSize, id, r).value| == rowSize * id
    ensures forall k | 1 <= k && |data| <= rowSize * (k - 1) && k < id ::
              RowAt(SetAt(data, rowSize, id, r).value, rowSize, k) == Ok(Zeros(rowSize))
  {
    RowEnd(rowSize, id);
    forall k | 1 <= k && |data| <= rowSize * (k - 1) && k < id
      ensures RowAt(SetAt(data, rowSize, id, r).value, rowSize, k) == Ok(Zeros(rowSize))
    {
      SetGapRow(data, rowSize, id, r, k);
    }
  }

  /** A row between the old end of the file and the row being set reads
      back as zeros. */
  lemma SetGapRow(data: seq<byte>, rowSize: int, id: int, r: seq<byte>, k: int)
    requires rowSize > 0 && |r| == rowSize && 1 <= k < id && |data| <= rowSize * (k - 1)
    ensures RowAt(SetAt(data, rowSize, id, r).value, rowSize, k) == Ok(Zeros(rowSize))
  {
    var off := rowSize * (id - 1);
    var from := rowSize * (k - 1);
    RowEnd(rowSize, k);
    RowsApart(rowSize, k, id);
    PatchedGap(data, off, r, from, from + rowSize);
  }

  /** A freshly created table has no rows whatever its row size, unless the
      row size is zero. */
  lemma CreatedIsEmpty(rowSize: int)
    requires rowSize != 0
    ensures RowCount(0, rowSize) == Ok(0)
    ensures forall id :: RowAt([], rowSize, id).Err?
  {
    forall id ensures RowAt([], rowSize, id).Err? {
      if id >= 1 {
        assert rowSize * id - rowSize * (id - 1) == rowSize;
      }
    }
  }
}
