/** The older column codecs of internal/column_types: a native-width `Int`
    and a length-framed `Str`, both wrapped in a pkg/payload section. The
    host's int width `w` is a parameter, as in LegacyPayload. */
module LegacyColumnTypes {
  import opened Errors
  import opened ByteSeq
  import opened LegacyPayload

  /** A non-nil value of the older generation. */
  datatype LegacyValue = LegacyInt(i: int) | LegacyStr(s: Str)

  /** The TypeName of each value: "int" and "string". */
  function TypeName(v: LegacyValue): (r: Str)
    ensures r != []
  {
    match v
    case LegacyInt(_) => Ascii("int")
    case LegacyStr(_) => Ascii("string")
  }

  /** What Int.Marshal returns: the number as `w` little-endian bytes in one
      section, or an error for an unknown width. */
  function IntEncoding(w: nat, i: int): (r: Result<seq<byte>>)
    ensures r.Ok? <==> KnownWidth(w)
    ensures r.Ok? ==> |r.value| == 2 * w && r.value[w..] == LE(i, w)
  {
    if KnownWidth(w) then Framed(w, LE(i, w)) else Err(UnknownIntWidth)
  }

  /** Int.Marshal (internal/column_types/int_column.go:21-39). */
  method IntMarshal(w: nat, i: int) returns (r: Result<seq<byte>>)
    ensures r == IntEncoding(w, i)
  {
    var res := new byte[w](_ => 0);
    if w == 2 || w == 4 || w == 8 {
      var b := LE(i, w);
      forall k | 0 <= k < w {
        res[k] := b[k];
      }
      assert res[..] == b;
      r := New(w, res[..]);
      return;
    }
    return Err(UnknownIntWidth);
  }

  /** Int.Unmarshal (internal/column_types/int_column.go:41-65): reads one
      section whose body must be exactly `w` bytes, read as a signed native
      int. */
  function IntUnmarshal(w: nat, p: seq<byte>): (r: Result<LegacyValue>)
    ensures Read(w, p).Err? ==> r == Read(w, p).PropagateFailure()
    ensures Read(w, p).Ok? && |Read(w, p).value.0| != w ==> r == Err(PayloadSizeMismatch)
    ensures r.Ok? ==> KnownWidth(w) && r.value.LegacyInt? && FitsSigned(r.value.i, w)
    ensures r.Ok? ==> LE(r.value.i, w) == Read(w, p).value.0
  {
    var (body, _) :- Read(w, p);
    if |body| != w then Err(PayloadSizeMismatch)
    else
      SignedIsSameBytes(body);
      Ok(LegacyInt(Signed(FromLE(body), w)))
  }

  /** A native int comes back unchanged. */
  lemma IntRoundTrip(w: nat, i: int, rest: seq<byte>)
    requires KnownWidth(w) && FitsSigned(i, w)
    ensures IntUnmarshal(w, IntEncoding(w, i).value + rest) == Ok(LegacyInt(i))
  {
    Pow256Values();
    ReadOfFrame(w, LE(i, w), rest);
    SignedOfLE(i, w);
  }

  /** What Str.Marshal returns (internal/column_types/str_column.go:32-34): the
      text's bytes in one section. */
  function StrMarshal(w: nat, s: Str): (r: Result<seq<byte>>)
    ensures r.Ok? <==> KnownWidth(w)
    ensures r.Ok? ==> |r.value| == w + |s| && r.value[w..] == s
  {
    Framed(w, s)
  }

  /** Str.Unmarshal (internal/column_types/str_column.go:18-30): the body of
      one section, which must be UTF-8. */
  function StrUnmarshal(w: nat, p: seq<byte>): (r: Result<LegacyValue>)
    ensures Read(w, p).Err? ==> r == Read(w, p).PropagateFailure()
    ensures Read(w, p).Ok? ==> (r.Ok? <==> ValidUtf8(Read(w, p).value.0))
    ensures r.Ok? ==> r == Ok(LegacyStr(Read(w, p).value.0))
  {
    var (body, _) :- Read(w, p);
    if !ValidUtf8(body) then Err(InvalidUtf8) else Ok(LegacyStr(body))
  }

  /** UTF-8 text that fits a section comes back unchanged. */
  lemma StrRoundTrip(w: nat, s: Str, rest: seq<byte>)
    requires KnownWidth(w) && Framable(w, s) && ValidUtf8(s)
    ensures StrUnmarshal(w, StrMarshal(w, s).value + rest) == Ok(LegacyStr(s))
  {
    ReadOfFrame(w, s, rest);
  }

  /** Marshal of either value (the Column interface's Marshal()). */
  function MarshalValue(w: nat, v: LegacyValue): (r: Result<seq<byte>>)
    ensures r.Ok? <==> KnownWidth(w)
  {
    match v
    case LegacyInt(i) => IntEncoding(w, i)
    case LegacyStr(s) => StrMarshal(w, s)
  }

  /** Unmarshal through the type of `like`. */
  function UnmarshalLike(w: nat, like: LegacyValue, p: seq<byte>): (r: Result<LegacyValue>)
    ensures r.Ok? ==> r.value.LegacyInt? == like.LegacyInt?
  {
    match like
    case LegacyInt(_) => IntUnmarshal(w, p)
    case LegacyStr(_) => StrUnmarshal(w, p)
  }

  /** The values that come back unchanged at width `w`. */
  predicate RoundTrips(w: nat, v: LegacyValue)
  {
    KnownWidth(w) &&
    match v
    case LegacyInt(i) => FitsSigned(i, w)
    case LegacyStr(s) => Framable(w, s) && ValidUtf8(s)
  }

  lemma ValueRoundTrip(w: nat, v: LegacyValue, rest: seq<byte>)
    requires RoundTrips(w, v)
    ensures UnmarshalLike(w, v, MarshalValue(w, v).value + rest) == Ok(v)
  {
    match v
    case LegacyInt(i) => IntRoundTrip(w, i, rest);
    case LegacyStr(s) => StrRoundTrip(w, s, rest);
  }
}
