/** The always-flagged cell layout shared by the column schemas of pkg/data,
    pkg/engine and internal/grid: a cell is `columnSize + 1` bytes, the first
    of which is 0x00 for a null and 0xFF otherwise, followed by the value's
    codec output. Each generation validates differently; the validation
    outcome is a parameter here. */
module FlagCell {
  import opened Errors
  import opened ByteSeq
  import opened Values
  import opened ColumnCodec

  /** The cell width: one flag byte more than the column size. */
  function Width(columnSize: int): int
  {
    columnSize + 1
  }

  /** The cell a schema's Marshal returns: the buffer is allocated first (a
      negative width panics), then validation runs, a null gives the zeroed
      buffer, and a value gets the 0xFF flag and its codec output copied
      after it. */
  function Encode(columnSize: int, nullable: bool, check: Option<Error>, v: Option<Value>): (r: Result<seq<byte>>)
    ensures Width(columnSize) < 0 ==> r == Err(Panic)
    ensures Width(columnSize) >= 0 && check.Some? ==> r == Err(check.value)
    ensures r.Ok? ==> check.None? && |r.value| == Width(columnSize)
    ensures r.Ok? && v.None? ==> nullable && r.value == Zeros(Width(columnSize))
    ensures r.Ok? && v.Some? ==>
              |r.value| > 0 && r.value[0] == 0xFF && MarshalValue(v.value, columnSize) == Ok(r.value[1..])
    ensures Width(columnSize) >= 1 && check.None? && v.Some? && MarshalValue(v.value, columnSize).Err? ==>
              r == Err(MarshalValue(v.value, columnSize).error)
  {
    if Width(columnSize) < 0 then Err(Panic)
    else if check.Some? then Err(check.value)
    else if v.None? && nullable then Ok(Zeros(Width(columnSize)))
    else if Width(columnSize) == 0 || v.None? then Err(Panic)
    else
      var bytes :- MarshalValue(v.value, columnSize);
      assert Fit(bytes, columnSize) == bytes;
      Ok([0xFF] + Fit(bytes, columnSize))
  }

  /** The shared body of ColumnSchema.Marshal (pkg/data/column_schema.go:87-104),
      ColumnSchema.ColumnBytes (pkg/engine/column_schema.go:37-55) and
      ColumnSchema.Marshal (internal/grid/column_schema.go:36-51). */
  method Marshal(columnSize: int, nullable: bool, check: Option<Error>, v: Option<Value>)
    returns (r: Result<seq<byte>>)
    ensures r == Encode(columnSize, nullable, check, v)
  {
    if Width(columnSize) < 0 {
      return Err(Panic);
    }
    var res := new byte[Width(columnSize)](_ => 0);
    if check.Some? {
      return Err(check.value);
    }
    if v.None? && nullable {
      assert res[..] == Zeros(Width(columnSize));
      return Ok(res[..]);
    }
    if res.Length == 0 || v.None? {
      return Err(Panic);
    }
    res[0] := 0xFF;
    var bytes :- MarshalValue(v.value, columnSize);
    var n := if |bytes| < res.Length - 1 then |bytes| else res.Length - 1;
    forall i | 1 <= i <= n {
      res[i] := bytes[i - 1];
    }
    assert res[..] == [0xFF] + Fit(bytes, columnSize);
    return Ok(res[..]);
  }

  /** The first stage of every cell decoder: the width check, then the
      flag. A null comes back as None, a value as the bytes after the flag;
      a null flag on a not-nullable column is corrupt. */
  function Body(columnSize: int, nullable: bool, payload: seq<byte>): (r: Result<Option<seq<byte>>>)
    ensures |payload| != Width(columnSize) ==> r == Err(CellSizeMismatch)
    ensures |payload| == Width(columnSize) == 0 ==> r == Err(Panic)
    ensures r == Ok(None) <==> |payload| == Width(columnSize) > 0 && payload[0] == 0 && nullable
    ensures r == Err(NullInNotNullable) <==> |payload| == Width(columnSize) > 0 && payload[0] == 0 && !nullable
    ensures |payload| == Width(columnSize) > 0 && payload[0] != 0 ==> r == Ok(Some(payload[1..]))
  {
    if |payload| != Width(columnSize) then Err(CellSizeMismatch)
    else if |payload| == 0 then Err(Panic)
    else if payload[0] == 0 then
      (if nullable then Ok(None) else Err(NullInNotNullable))
    else Ok(Some(payload[1..]))
  }

  /** Reading the flag of an encoded cell: a null comes back as None and a
      value as exactly its codec output. */
  lemma BodyOfEncode(columnSize: int, nullable: bool, v: Option<Value>)
    requires columnSize >= 0 && Encode(columnSize, nullable, None, v).Ok?
    ensures Body(columnSize, nullable, Encode(columnSize, nullable, None, v).value) ==
              if v.None? then Ok(None) else Ok(Some(MarshalValue(v.value, columnSize).value))
  {
  }
}
