/** The fixed-width integer column codec of pkg/column_types/int_column.go:
    2, 4 or 8 little-endian bytes with range checks. */
module IntColumn {
  import opened Errors
  import opened ByteSeq
  import opened Values

  const MinInt16: int := -0x8000
  const MaxInt16: int := 0x7FFF
  const MinInt32: int := -0x8000_0000
  const MaxInt32: int := 0x7FFF_FFFF

  predicate SupportedSize(size: int)
  {
    size == 2 || size == 4 || size == 8
  }

  /** The value fits the signed range the size admits. */
  predicate InRange(i: int, size: int)
  {
    (size == 2 ==> MinInt16 <= i <= MaxInt16) && (size == 4 ==> MinInt32 <= i <= MaxInt32)
  }

  /** What Marshal returns: the allocation of a negative size panics; an
      admitted value is written as `size` little-endian two's-complement
      bytes (the 64-bit range check never fails for a Go int). */
  function Encoding(i: Int64, size: int): (r: Result<seq<byte>>)
    ensures r == Err(Panic) <==> size < 0
    ensures r == Err(UnsupportedSize) <==> size >= 0 && !SupportedSize(size)
    ensures r == Err(OutOfRange) <==> SupportedSize(size) && !InRange(i, size)
    ensures r.Ok? ==> |r.value| == size && FromLE(r.value) == i % Pow256(size)
  {
    if size < 0 then Err(Panic)
    else if !SupportedSize(size) then Err(UnsupportedSize)
    else if !InRange(i, size) then Err(OutOfRange)
    else
      assert FromLE(LE(i, size)) == i % Pow256(size) by { FromLEOfLE(i, size); }
      Ok(LE(i, size))
  }

  /** Writes `n` into the whole of `buf` as little-endian bytes
      (binary.LittleEndian.PutUintN after a conversion to that width). */
  method PutLE(buf: array<byte>, n: int)
    modifies buf
    ensures buf[..] == LE(n, buf.Length)
  {
    var b := LE(n, buf.Length);
    forall k | 0 <= k < buf.Length {
      buf[k] := b[k];
    }
  }

  /** Int.Marshal (pkg/column_types/int_column.go:25-52). */
  method Marshal(i: Int64, size: int) returns (r: Result<seq<byte>>)
    ensures r == Encoding(i, size)
  {
    if size < 0 {
      return Err(Panic);
    }
    var res := new byte[size](_ => 0);
    if size == 2 {
      if i < MinInt16 || i > MaxInt16 {
        return Err(OutOfRange);
      }
      PutLE(res, i);
      return Ok(res[..]);
    }
    if size == 4 {
      if i < MinInt32 || i > MaxInt32 {
        return Err(OutOfRange);
      }
      PutLE(res, i);
      return Ok(res[..]);
    }
    if size == 8 {
      PutLE(res, i);
      return Ok(res[..]);
    }
    return Err(UnsupportedSize);
  }

  /** Int.Unmarshal (pkg/column_types/int_column.go:54-72): the length is
      checked first; 2 and 4 bytes are zero-extended, 8 bytes are read as a
      signed 64-bit number. */
  function Unmarshal(size: int, payload: seq<byte>): (r: Result<Value>)
    ensures r == Err(PayloadSizeMismatch) <==> |payload| != size
    ensures r == Err(UnsupportedSize) <==> |payload| == size && !SupportedSize(size)
    ensures r.Ok? ==> r.value.IntValue? && LE(r.value.i, size) == payload
    ensures r.Ok? && size != 8 ==> 0 <= r.value.i < Pow256(size)
  {
    if |payload| != size then Err(PayloadSizeMismatch)
    else if size == 2 || size == 4 then
      Pow256Values();
      LEOfFromLE(payload);
      Ok(IntValue(FromLE(payload)))
    else if size == 8 then
      Pow256Values();
      SignedIsSameBytes(payload);
      Ok(IntValue(Signed(FromLE(payload), 8)))
    else Err(UnsupportedSize)
  }

  /** Within the signed range, a non-negative number comes back unchanged at
      sizes 2 and 4. */
  lemma RoundTripNonNegative(i: Int64, size: int)
    requires (size == 2 || size == 4) && 0 <= i && InRange(i, size)
    ensures Unmarshal(size, Encoding(i, size).value) == Ok(IntValue(i))
  {
    Pow256Values();
    UnsignedOfLE(i, size);
  }

  /** A negative number comes back shifted by 2^(8*size) at sizes 2 and 4,
      because the decoder zero-extends. */
  lemma NegativeComesBackShifted(i: Int64, size: int)
    requires (size == 2 || size == 4) && i < 0 && InRange(i, size)
    ensures Unmarshal(size, Encoding(i, size).value) == Ok(IntValue(i + Pow256(size)))
  {
    Pow256Values();
    FromLEOfLE(i, size);
    DivModUnique(i, Pow256(size), -1, i + Pow256(size));
  }

  /** At size 8 every Go int comes back unchanged. */
  lemma RoundTripWide(i: Int64)
    ensures Unmarshal(8, Encoding(i, 8).value) == Ok(IntValue(i))
  {
    Pow256Values();
    SignedOfLE(i, 8);
  }
}
