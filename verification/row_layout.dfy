/** The row layout every row schema generation uses: the cells of a row are
    copied into a zeroed buffer of the schema's row size at running offsets,
    and a row is decoded by slicing it at the same offsets. The cell codec
    and the cell width of a column schema are parameters. */
module RowLayout {
  import opened Errors
  import opened ByteSeq

  /** The total width of a list of column schemas. */
  function Sum<S>(width: S -> int, cs: seq<S>): int
    decreases |cs|
  {
    if cs == [] then 0 else width(cs[0]) + Sum(width, cs[1..])
  }

  /** Adding a column at the end adds its width. */
  lemma {:induction false} SumAppend<S>(width: S -> int, cs: seq<S>, c: S)
    ensures Sum(width, cs + [c]) == Sum(width, cs) + width(c)
    decreases |cs|
  {
    if cs == [] {
      assert ([] + [c])[1..] == [];
    } else {
      assert (cs + [c])[1..] == cs[1..] + [c];
      SumAppend(width, cs[1..], c);
    }
  }

  /** Go's copy(buf[start:], cell): the slice expression panics when `start`
      is outside the buffer, and the copy stops at the end of the buffer. */
  function Paint(buf: seq<byte>, start: int, cell: seq<byte>): (r: Result<seq<byte>>)
    ensures r.Err? <==> start < 0 || start > |buf|
    ensures r.Err? ==> r.error == Panic
    ensures r.Ok? ==> |r.value| == |buf|
    ensures r.Ok? ==> forall k | 0 <= k < |buf| ::
              r.value[k] == if start <= k < start + |cell| then cell[k - start] else buf[k]
  {
    if start < 0 || start > |buf| then Err(Panic)
    else
      var n := if |cell| < |buf| - start then |cell| else |buf| - start;
      Ok(buf[..start] + cell[..n] + buf[start + n..])
  }

  /** Row assembly from `start` on: each value's cell, painted at the
      running offset; the first failure ends it. */
  function EncodeAll<S, V>(encode: (S, V) -> Result<seq<byte>>, width: S -> int,
                           cs: seq<S>, vs: seq<V>, buf: seq<byte>, start: int): (r: Result<seq<byte>>)
    requires |cs| == |vs|
    ensures r.Ok? ==> |r.value| == |buf|
    decreases |cs|
  {
    if cs == [] then Ok(buf)
    else
      var cell :- encode(cs[0], vs[0]);
      var next :- Paint(buf, start, cell);
      EncodeAll(encode, width, cs[1..], vs[1..], next, start + width(cs[0]))
  }

  /** Go's row[start:end]. */
  function Cut(row: seq<byte>, start: int, end: int): (r: Result<seq<byte>>)
    ensures r.Ok? <==> 0 <= start <= end <= |row|
    ensures r.Err? ==> r.error == Panic
    ensures r.Ok? ==> r.value == row[start..end]
  {
    if 0 <= start <= end <= |row| then Ok(row[start..end]) else Err(Panic)
  }

  /** Row decoding from `start` on: each column's slice at the running
      offset, decoded in order; the first failure ends it. */
  function DecodeAll<S, V>(decode: (S, seq<byte>) -> Result<V>, width: S -> int,
                           cs: seq<S>, row: seq<byte>, start: int): (r: Result<seq<V>>)
    ensures r.Ok? ==> |r.value| == |cs|
    decreases |cs|
  {
    if cs == [] then Ok([])
    else
      var end := start + width(cs[0]);
      var piece :- Cut(row, start, end);
      var v :- decode(cs[0], piece);
      var rest :- DecodeAll(decode, width, cs[1..], row, end);
      Ok([v] + rest)
  }

  function Prepend<V>(xs: seq<V>, r: Result<seq<V>>): Result<seq<V>>
  {
    if r.Ok? then Ok(xs + r.value) else r
  }

  /** Every element mapped by `f`, in order, or the first failure. */
  function Collect<S, V>(f: S -> Result<V>, cs: seq<S>): Result<seq<V>>
    decreases |cs|
  {
    if cs == [] then Ok([])
    else
      var v :- f(cs[0]);
      var rest :- Collect(f, cs[1..]);
      Ok([v] + rest)
  }

  /** Collect succeeds exactly when `f` succeeds on every element, and
      then holds those results in order. */
  lemma {:induction false} CollectOk<S, V>(f: S -> Result<V>, cs: seq<S>)
    ensures Collect(f, cs).Ok? <==> forall i | 0 <= i < |cs| :: f(cs[i]).Ok?
    ensures Collect(f, cs).Ok? ==>
              |Collect(f, cs).value| == |cs| && forall i | 0 <= i < |cs| :: f(cs[i]) == Ok(Collect(f, cs).value[i])
    decreases |cs|
  {
    if cs != [] {
      assert forall i | 1 <= i < |cs| :: cs[1..][i - 1] == cs[i];
      CollectOk(f, cs[1..]);
    }
  }

  /** One step of Collect at element `i`. */
  lemma CollectAt<S, V>(f: S -> Result<V>, cs: seq<S>, i: nat)
    requires i < |cs|
    ensures f(cs[i]).Err? ==> Collect(f, cs[i..]) == Err(f(cs[i]).error)
    ensures f(cs[i]).Ok? ==> Collect(f, cs[i..]) == Prepend([f(cs[i]).value], Collect(f, cs[i + 1..]))
  {
    assert cs[i..][0] == cs[i] && cs[i..][1..] == cs[i + 1..];
  }

  /** From the first element Collect maps all of them; past the last
      there is nothing left. */
  lemma CollectFrom<S, V>(f: S -> Result<V>, cs: seq<S>, i: nat)
    requires i == 0 || i == |cs|
    ensures i == 0 ==> Collect(f, cs) == Prepend([], Collect(f, cs[i..]))
    ensures i == |cs| ==> Collect(f, cs[i..]) == Ok([])
  {
    assert cs[0..] == cs;
    PrependNothing(Collect(f, cs));
    assert cs[|cs|..] == [];
  }

  lemma PrependNothing<V>(r: Result<seq<V>>)
    ensures Prepend([], r) == r
  {
    if r.Ok? {
      assert [] + r.value == r.value;
    }
  }

  lemma PrependDone<V>(xs: seq<V>, r: Result<seq<V>>)
    requires r == Prepend(xs, Ok([]))
    ensures r == Ok(xs)
  {
    assert xs + [] == xs;
  }

  /** Moving one element from the front of the rest to the prefix. */
  lemma PrependStep<V>(xs: seq<V>, x: V, r: Result<seq<V>>)
    ensures Prepend(xs, Prepend([x], r)) == Prepend(xs + [x], r)
  {
    if r.Ok? {
      assert xs + ([x] + r.value) == (xs + [x]) + r.value;
    }
  }

  /** The loop of every Row method: a zeroed buffer of `rowSize` bytes (a
      negative size panics), each cell copied in at the running offset. */
  method EncodeRow<S, V>(encode: (S, V) -> Result<seq<byte>>, width: S -> int,
                         cs: seq<S>, vs: seq<V>, rowSize: int) returns (r: Result<seq<byte>>)
    requires |cs| == |vs|
    ensures rowSize < 0 ==> r == Err(Panic)
    ensures rowSize >= 0 ==> r == EncodeAll(encode, width, cs, vs, Zeros(rowSize), 0)
  {
    if rowSize < 0 {
      return Err(Panic);
    }
    var row := new byte[rowSize](_ => 0);
    assert row[..] == Zeros(rowSize);
    var byteStart := 0;
    var i := 0;
    while i < |cs|
      invariant 0 <= i <= |cs|
      invariant EncodeAll(encode, width, cs, vs, Zeros(rowSize), 0) ==
                EncodeAll(encode, width, cs[i..], vs[i..], row[..], byteStart)
    {
      assert cs[i..][1..] == cs[i + 1..] && vs[i..][1..] == vs[i + 1..];
      var cell := encode(cs[i], vs[i]);
      if cell.Err? {
        return Err(cell.error);
      }
      var bytes := cell.value;
      if byteStart < 0 || byteStart > row.Length {
        return Err(Panic);
      }
      var before := row[..];
      var n := if |bytes| < row.Length - byteStart then |bytes| else row.Length - byteStart;
      forall k | byteStart <= k < byteStart + n {
        row[k] := bytes[k - byteStart];
      }
      assert row[..] == Paint(before, byteStart, bytes).value;
      byteStart := byteStart + width(cs[i]);
      i := i + 1;
    }
    return Ok(row[..]);
  }

  /** The loop of every Columns method: each column's slice at the running
      offset, decoded and appended in order. */
  method DecodeRow<S, V>(decode: (S, seq<byte>) -> Result<V>, width: S -> int,
                         cs: seq<S>, row: seq<byte>) returns (r: Result<seq<V>>)
    ensures r == DecodeAll(decode, width, cs, row, 0)
  {
    var res: seq<V> := [];
    var startAt := 0;
    var endAt := 0;
    var i := 0;
    if DecodeAll(decode, width, cs, row, 0).Ok? {
      assert res + DecodeAll(decode, width, cs, row, 0).value == DecodeAll(decode, width, cs, row, 0).value;
    }
    while i < |cs|
      invariant 0 <= i <= |cs| && startAt == endAt
      invariant DecodeAll(decode, width, cs, row, 0) == Prepend(res, DecodeAll(decode, width, cs[i..], row, startAt))
    {
      assert cs[i..][1..] == cs[i + 1..];
      endAt := endAt + width(cs[i]);
      var piece := Cut(row, startAt, endAt);
      if piece.Err? {
        return Err(piece.error);
      }
      var col := decode(cs[i], piece.value);
      if col.Err? {
        return Err(col.error);
      }
      var rest := DecodeAll(decode, width, cs[i + 1..], row, endAt);
      if rest.Ok? {
        assert res + ([col.value] + rest.value) == (res + [col.value]) + rest.value;
      }
      res := res + [col.value];
      startAt := startAt + width(cs[i]);
      i := i + 1;
    }
    assert cs[i..] == [];
    assert res + [] == res;
    return Ok(res);
  }

  /** Cells of the widths their schemas declare. */
  predicate Fitted<S>(width: S -> int, cs: seq<S>, cells: seq<seq<byte>>)
  {
    |cells| == |cs| && forall i | 0 <= i < |cs| :: |cells[i]| == width(cs[i])
  }

  lemma {:induction false} SumOfFitted<S>(width: S -> int, cs: seq<S>, cells: seq<seq<byte>>)
    requires Fitted(width, cs, cells)
    ensures Sum(width, cs) == |Flatten(cells)|
    decreases |cs|
  {
    if cs != [] {
      assert Fitted(width, cs[1..], cells[1..]) by {
        forall i | 0 <= i < |cs| - 1
          ensures |cells[1..][i]| == width(cs[1..][i])
        {
          assert cells[1..][i] == cells[i + 1] && cs[1..][i] == cs[i + 1];
        }
      }
      SumOfFitted(width, cs[1..], cells[1..]);
    }
  }

  lemma FittedTail<S>(width: S -> int, cs: seq<S>, cells: seq<seq<byte>>)
    requires cs != [] && Fitted(width, cs, cells)
    ensures Fitted(width, cs[1..], cells[1..])
  {
    forall i | 0 <= i < |cs| - 1
      ensures |cells[1..][i]| == width(cs[1..][i])
    {
      assert cells[1..][i] == cells[i + 1] && cs[1..][i] == cs[i + 1];
    }
  }

  /** When every cell encodes to its declared width, the row is the
      concatenation of the cells, written over the buffer from `start`. */
  lemma {:induction false} EncodeAllFlat<S, V>(encode: (S, V) -> Result<seq<byte>>, width: S -> int,
                                             cs: seq<S>, vs: seq<V>, cells: seq<seq<byte>>,
                                             buf: seq<byte>, start: int)
    requires |cs| == |vs| && Fitted(width, cs, cells)
    requires forall i | 0 <= i < |cs| :: encode(cs[i], vs[i]) == Ok(cells[i])
    requires 0 <= start && start + |Flatten(cells)| <= |buf|
    ensures EncodeAll(encode, width, cs, vs, buf, start) ==
              Ok(buf[..start] + Flatten(cells) + buf[start + |Flatten(cells)|..])
    decreases |cs|
  {
    var total := |Flatten(cells)|;
    if cs == [] {
      assert buf[..start] + [] + buf[start..] == buf;
    } else {
      var cell := cells[0];
      var rest := Flatten(cells[1..]);
      assert Flatten(cells) == cell + rest;
      var next := buf[..start] + cell + buf[start + |cell|..];
      assert cell[..|cell|] == cell;
      assert Paint(buf, start, cell) == Ok(next);
      FittedTail(width, cs, cells);
      forall i | 0 <= i < |cs| - 1
        ensures encode(cs[1..][i], vs[1..][i]) == Ok(cells[1..][i])
      {
        assert cs[1..][i] == cs[i + 1] && vs[1..][i] == vs[i + 1] && cells[1..][i] == cells[i + 1];
      }
      var s1 := start + |cell|;
      EncodeAllFlat(encode, width, cs[1..], vs[1..], cells[1..], next, s1);
      assert next[..s1] == buf[..start] + cell;
      assert next[s1 + |rest|..] == buf[start + total..];
      ConcatAssoc(buf[..start], cell, rest);
    }
  }

  /** Decoding a row built from cells of the declared widths slices each
      cell back out and decodes it. */
  lemma {:induction false} DecodeAllFlat<S, V>(decode: (S, seq<byte>) -> Result<V>, width: S -> int,
                                             cs: seq<S>, vs: seq<V>, cells: seq<seq<byte>>,
                                             prefix: seq<byte>, suffix: seq<byte>)
    requires |cs| == |vs| && Fitted(width, cs, cells)
    requires forall i | 0 <= i < |cs| :: decode(cs[i], cells[i]) == Ok(vs[i])
    ensures DecodeAll(decode, width, cs, prefix + Flatten(cells) + suffix, |prefix|) == Ok(vs)
    decreases |cs|
  {
    var row := prefix + Flatten(cells) + suffix;
    if cs != [] {
      var cell := cells[0];
      var rest := Flatten(cells[1..]);
      assert Flatten(cells) == cell + rest;
      assert row[|prefix|..|prefix| + |cell|] == cell;
      FittedTail(width, cs, cells);
      forall i | 0 <= i < |cs| - 1
        ensures decode(cs[1..][i], cells[1..][i]) == Ok(vs[1..][i])
      {
        assert cs[1..][i] == cs[i + 1] && vs[1..][i] == vs[i + 1] && cells[1..][i] == cells[i + 1];
      }
      DecodeAllFlat(decode, width, cs[1..], vs[1..], cells[1..], prefix + cell, suffix);
      ConcatAssoc(prefix, cell, rest);
      assert row == (prefix + cell) + rest + suffix;
      assert [vs[0]] + vs[1..] == vs;
    }
  }

  /** The offset of column `i`: the widths of the columns before it. */
  function Offset<S>(width: S -> int, cs: seq<S>, i: nat): int
    requires i <= |cs|
  {
    Sum(width, cs[..i])
  }

  /** In the concatenation of fitted cells, column `i` occupies exactly
      [Offset(i), Offset(i) + width(i)). */
  lemma {:induction false} CellAtOffset<S>(width: S -> int, cs: seq<S>, cells: seq<seq<byte>>, i: nat)
    requires Fitted(width, cs, cells) && i < |cs|
    ensures 0 <= Offset(width, cs, i) && Offset(width, cs, i) + width(cs[i]) <= |Flatten(cells)|
    ensures Flatten(cells)[Offset(width, cs, i)..Offset(width, cs, i) + width(cs[i])] == cells[i]
    decreases i
  {
    assert Flatten(cells) == cells[0] + Flatten(cells[1..]);
    FittedTail(width, cs, cells);
    SumOfFitted(width, cs[1..], cells[1..]);
    if i == 0 {
      assert cs[..0] == [];
    } else {
      CellAtOffset(width, cs[1..], cells[1..], i - 1);
      assert cs[..i][1..] == cs[1..][..i - 1];
      assert cs[..i][0] == cs[0];
      assert Offset(width, cs, i) == width(cs[0]) + Offset(width, cs[1..], i - 1);
      assert cells[1..][i - 1] == cells[i] && cs[1..][i - 1] == cs[i];
    }
  }

  /** Cells that encode to their declared widths. */
  predicate EncodesFitted<S, V>(encode: (S, V) -> Result<seq<byte>>, width: S -> int, cs: seq<S>, vs: seq<V>)
  {
    |cs| == |vs| &&
    forall i | 0 <= i < |cs| :: encode(cs[i], vs[i]).Ok? && |encode(cs[i], vs[i]).value| == width(cs[i])
  }

  /** The cells of a list of values that all encode. */
  function Cells<S, V>(encode: (S, V) -> Result<seq<byte>>, width: S -> int, cs: seq<S>, vs: seq<V>): (r: seq<seq<byte>>)
    requires EncodesFitted(encode, width, cs, vs)
    ensures Fitted(width, cs, r)
    ensures forall i | 0 <= i < |cs| :: encode(cs[i], vs[i]) == Ok(r[i])
  {
    seq(|cs|, i requires 0 <= i < |cs| => encode(cs[i], vs[i]).value)
  }

  /** When every value encodes to its declared width, a row of the summed
      width is the cells side by side, column `i` starting at the sum of
      the widths before it. */
  lemma LaidOut<S, V>(encode: (S, V) -> Result<seq<byte>>, width: S -> int, cs: seq<S>, vs: seq<V>)
    requires EncodesFitted(encode, width, cs, vs)
    ensures Sum(width, cs) == |Flatten(Cells(encode, width, cs, vs))|
    ensures EncodeAll(encode, width, cs, vs, Zeros(Sum(width, cs)), 0) == Ok(Flatten(Cells(encode, width, cs, vs)))
    ensures forall i | 0 <= i < |cs| ::
              0 <= Offset(width, cs, i) && Offset(width, cs, i) + width(cs[i]) <= Sum(width, cs) &&
              Flatten(Cells(encode, width, cs, vs))[Offset(width, cs, i)..Offset(width, cs, i) + width(cs[i])] ==
                encode(cs[i], vs[i]).value
  {
    var cells := Cells(encode, width, cs, vs);
    SumOfFitted(width, cs, cells);
    var n := Sum(width, cs);
    var buf := Zeros(n);
    EncodeAllFlat(encode, width, cs, vs, cells, buf, 0);
    assert buf[..0] + Flatten(cells) + buf[n..] == Flatten(cells);
    forall i | 0 <= i < |cs|
      ensures 0 <= Offset(width, cs, i) && Offset(width, cs, i) + width(cs[i]) <= n
      ensures Flatten(cells)[Offset(width, cs, i)..Offset(width, cs, i) + width(cs[i])] == cells[i]
    {
      CellAtOffset(width, cs, cells, i);
    }
  }

  /** Decoding undoes encoding, row-wise, when it does so cell by cell. */
  lemma RoundTrip<S, V>(encode: (S, V) -> Result<seq<byte>>, decode: (S, seq<byte>) -> Result<V>,
                        width: S -> int, cs: seq<S>, vs: seq<V>)
    requires EncodesFitted(encode, width, cs, vs)
    requires forall i | 0 <= i < |cs| :: decode(cs[i], encode(cs[i], vs[i]).value) == Ok(vs[i])
    ensures Sum(width, cs) >= 0
    ensures EncodeAll(encode, width, cs, vs, Zeros(Sum(width, cs)), 0).Ok?
    ensures DecodeAll(decode, width, cs, EncodeAll(encode, width, cs, vs, Zeros(Sum(width, cs)), 0).value, 0) == Ok(vs)
  {
    var cells := Cells(encode, width, cs, vs);
    LaidOut(encode, width, cs, vs);
    DecodeAllFlat(decode, width, cs, vs, cells, [], []);
    assert [] + Flatten(cells) + [] == Flatten(cells);
  }
}
