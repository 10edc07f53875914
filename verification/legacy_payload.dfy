/** The older sized-payload framing of pkg/payload. The host's int width `w`
    is a parameter: the code handles widths 2, 4 and 8 and reports any other
    width as an error, converting the prefix to a native int of `w` bytes.
    A Go int is 4 or 8 bytes, so the width-2 branches are kept only as the
    code writes them; no host reaches them. */
module LegacyPayload {
  import opened Errors
  import opened ByteSeq

  /** The widths the code knows how to encode. */
  predicate KnownWidth(w: nat)
  {
    w == 2 || w == 4 || w == 8
  }

  /** Payload.Size (pkg/payload/payload.go:13-29): the first `w` bytes as an
      unsigned little-endian number, converted to a native int. */
  function Size(w: nat, p: seq<byte>): (r: Result<int>)
    ensures r == Err(NoSize) <==> |p| < w
    ensures r == Err(UnknownIntWidth) <==> |p| >= w && !KnownWidth(w)
    ensures r.Ok? ==> FitsSigned(r.value, w) && LE(r.value, w) == p[..w]
  {
    if |p| < w then Err(NoSize)
    else if KnownWidth(w) then
      var n := Signed(FromLE(p[..w]), w);
      assert FitsSigned(n, w) && LE(n, w) == p[..w] by { SignedIsSameBytes(p[..w]); }
      Ok(n)
    else Err(UnknownIntWidth)
  }

  /** Payload.Read (pkg/payload/payload.go:31-43): the first section's body and
      the number of bytes it occupies. A negative size panics in the slice
      expression. */
  function Read(w: nat, p: seq<byte>): (r: Result<(seq<byte>, int)>)
    ensures r.Ok? ==> r.value.1 == w + |r.value.0| <= |p| && r.value.0 == p[w..r.value.1]
    ensures r.Ok? ==> LE(|r.value.0|, w) == p[..w]
    ensures Size(w, p).Err? ==> r == Size(w, p).PropagateFailure()
    ensures r == Err(SizeExceedsPayload) <==> Size(w, p).Ok? && |p| < w + Size(w, p).value
  {
    var size :- Size(w, p);
    var total := w + size;
    if |p| < total then Err(SizeExceedsPayload)
    else if size < 0 then Err(Panic)
    else Ok((p[w..total], total))
  }

  /** The framed form of `b` at width `w`: the length truncated to `w` bytes,
      then `b`. */
  function Frame(w: nat, b: seq<byte>): (r: seq<byte>)
    ensures |r| == w + |b| && r[w..] == b && r[..w] == LE(|b|, w)
  {
    LE(|b|, w) + b
  }

  /** What New returns: the frame at a known width, an error otherwise. */
  function Framed(w: nat, b: seq<byte>): (r: Result<seq<byte>>)
    ensures r.Ok? <==> KnownWidth(w)
    ensures r.Err? ==> r.error == UnknownIntWidth
  {
    if KnownWidth(w) then Ok(Frame(w, b)) else Err(UnknownIntWidth)
  }

  /** New (pkg/payload/payload.go:45-64): copies the body after `w` reserved
      bytes, then writes the truncated length into them; fails for a width
      the code does not know. */
  method New(w: nat, bytes: seq<byte>) returns (r: Result<seq<byte>>)
    ensures r == Framed(w, bytes)
  {
    var size := |bytes|;
    var res := new byte[w + size](_ => 0);
    forall i | w <= i < w + size {
      res[i] := bytes[i - w];
    }
    if KnownWidth(w) {
      var prefix := LE(size, w);
      forall i | 0 <= i < w {
        res[i] := prefix[i];
      }
      assert res[..] == Frame(w, bytes);
      return Ok(res[..]);
    }
    return Err(UnknownIntWidth);
  }

  /** A body whose length fits the signed width: the ones New can frame so
      that Read gives them back. */
  predicate Framable(w: nat, b: seq<byte>)
  {
    |b| < Pow256(w) / 2
  }

  /** Read undoes New at every known width, whatever follows the section. */
  lemma ReadOfFrame(w: nat, b: seq<byte>, rest: seq<byte>)
    requires KnownWidth(w) && Framable(w, b)
    ensures Read(w, Frame(w, b) + rest) == Ok((b, w + |b|))
  {
    var p := Frame(w, b) + rest;
    DropPrefix(Frame(w, b), rest);
    assert p[..w] == LE(|b|, w);
    SignedOfLE(|b|, w);
    assert p[w..w + |b|] == b;
  }

  /** Every successful Read consumed exactly one framed section. */
  lemma FrameOfRead(w: nat, p: seq<byte>)
    requires Read(w, p).Ok?
    ensures Frame(w, Read(w, p).value.0) == p[..Read(w, p).value.1]
  {
    var (body, total) := Read(w, p).value;
    assert p[..total] == p[..w] + body;
  }
}
