/** The padded text column codec of pkg/column_types/varchar_column.go; the
    same code is internal/column_types/varchar_column.go:19-34. */
module VarcharColumn {
  import opened Errors
  import opened ByteSeq
  import opened Values

  /** Varchar.Marshal: the text's bytes zero-padded to `size`, or an error
      when they are longer than `size`. */
  function Marshal(s: Str, size: int): (r: Result<seq<byte>>)
    ensures r.Err? <==> |s| > size
    ensures r.Err? ==> r.error == ExceedsMaxSize
    ensures r.Ok? ==> |r.value| == size && r.value[..|s|] == s
    ensures r.Ok? ==> forall k | |s| <= k < size :: r.value[k] == 0
  {
    if |s| > size then Err(ExceedsMaxSize) else Ok(Pad(s, size))
  }

  /** Varchar.Unmarshal: rejects bytes that are not UTF-8, otherwise removes
      every trailing zero byte. The length is not checked. */
  function Unmarshal(size: int, payload: seq<byte>): (r: Result<Value>)
    ensures r.Err? <==> !ValidUtf8(payload)
    ensures r.Err? ==> r.error == InvalidUtf8
    ensures r.Ok? ==> r.value.VarcharValue? && |r.value.s| <= |payload| && r.value.s == payload[..|r.value.s|]
    ensures r.Ok? ==> r.value.s == [] || r.value.s[|r.value.s| - 1] != 0
    ensures r.Ok? ==> forall k | |r.value.s| <= k < |payload| :: payload[k] == 0
  {
    if !ValidUtf8(payload) then Err(InvalidUtf8) else Ok(VarcharValue(StripZeros(payload)))
  }

  /** Text that is UTF-8, fits `size` and does not end in a zero byte comes
      back unchanged. */
  lemma RoundTrip(s: Str, size: int)
    requires ValidUtf8(s) && |s| <= size && (s == [] || s[|s| - 1] != 0)
    ensures Marshal(s, size).Ok? && Unmarshal(size, Marshal(s, size).value) == Ok(VarcharValue(s))
  {
    ValidUtf8Pad(s, size);
    StripPad(s, size);
  }

  /** A trailing zero byte is lost: the round trip fails for such text. */
  lemma TrailingZeroLost(s: Str, size: int)
    requires ValidUtf8(s) && |s| <= size && s != [] && s[|s| - 1] == 0
    ensures Unmarshal(size, Marshal(s, size).value) != Ok(VarcharValue(s))
  {
  }
}
