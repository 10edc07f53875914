/** Sized-payload framing of pkg/sys: every serialised section is a W-byte
    little-endian length prefix followed by that many body bytes. */
module SysPayload {
  import opened Errors
  import opened ByteSeq

  /** IntAsBytes: a native int as W little-endian bytes. */
  function IntAsBytes(i: int): (r: seq<byte>)
    ensures |r| == W
  {
    LE(i, W)
  }

  /** BytesAsInt: exactly W little-endian bytes read as a signed native int. */
  function BytesAsInt(b: seq<byte>): (r: Result<int>)
    ensures r.Ok? <==> |b| == W
  {
    if |b| != W then Err(BadIntBytes) else Ok(Signed(FromLE(b), W))
  }

  /** Every W bytes are the encoding of the native int they decode to. */
  lemma BytesAsIntInverse(b: seq<byte>)
    requires |b| == W
    ensures FitsSigned(BytesAsInt(b).value, W) && IntAsBytes(BytesAsInt(b).value) == b
  {
    SignedIsSameBytes(b);
  }

  /** Reading back a native int written by IntAsBytes. */
  lemma IntBytesRoundTrip(i: int)
    requires FitsSigned(i, W)
    ensures BytesAsInt(IntAsBytes(i)) == Ok(i)
  {
    SignedOfLE(i, W);
  }

  /** BoolAsBytes: one byte, 1 for true and 0 for false. */
  function BoolAsBytes(b: bool): (r: seq<byte>)
    ensures |r| == 1
  {
    if b then [1] else [0]
  }

  /** BytesAsBool: exactly one byte, true when it is not zero. */
  function BytesAsBool(s: seq<byte>): (r: Result<bool>)
    ensures r.Ok? <==> |s| == 1
    ensures r.Ok? ==> (r.value <==> s[0] != 0)
  {
    if |s| != 1 then Err(BadBoolBytes) else Ok(s[0] != 0)
  }

  /** A body whose length a native int can hold. */
  predicate Framable(b: seq<byte>)
  {
    |b| < Pow256(W) / 2
  }

  /** The framed form of `b`: what New returns. */
  function Frame(b: seq<byte>): (r: seq<byte>)
    ensures |r| == W + |b| && r[W..] == b
  {
    IntAsBytes(|b|) + b
  }

  /** Size: the length prefix of a payload (pkg/sys/payload.go:7-13). */
  function Size(p: seq<byte>): (r: Result<int>)
    ensures r.Err? <==> |p| < W
    ensures r.Ok? ==> r == BytesAsInt(p[..W])
  {
    if |p| < W then Err(NoSize) else BytesAsInt(p[..W])
  }

  /** Read: the body of the first section of `p` and the number of bytes the
      section occupies (pkg/sys/payload.go:15-25). A negative length prefix
      makes the Go slice expression panic. */
  function Read(p: seq<byte>): (r: Result<(seq<byte>, int)>)
    ensures r.Ok? ==> W <= r.value.1 <= |p| && r.value.1 == W + |r.value.0|
    ensures r.Ok? ==> r.value.0 == p[W..r.value.1]
    ensures r == Err(NoSize) <==> |p| < W
    ensures r == Err(SizeExceedsPayload) <==> |p| >= W && W + Size(p).value > |p|
  {
    var size :- Size(p);
    var total := W + size;
    if |p| < total then Err(SizeExceedsPayload)
    else if size < 0 then Err(Panic)
    else Ok((p[W..total], total))
  }

  /** The specification of ReadAll: the bodies of consecutive sections that
      exactly cover `p`, or the first framing error. */
  function ReadAllSpec(p: seq<byte>): (r: Result<seq<seq<byte>>>)
    decreases |p|
  {
    if p == [] then Ok([])
    else
      var (body, consumed) :- Read(p);
      var rest :- ReadAllSpec(p[consumed..]);
      Ok([body] + rest)
  }

  lemma ReadAllStep(p: seq<byte>)
    requires p != [] && Read(p).Ok?
    ensures ReadAllSpec(p) == Prepend([Read(p).value.0], ReadAllSpec(p[Read(p).value.1..]))
  {
  }

  function Prepend(xs: seq<seq<byte>>, r: Result<seq<seq<byte>>>): Result<seq<seq<byte>>>
  {
    if r.Ok? then Ok(xs + r.value) else r
  }

  /** ReadAll: splits a payload into consecutive sections (pkg/sys/payload.go:27-39). */
  method ReadAll(payload: seq<byte>) returns (r: Result<seq<seq<byte>>>)
    ensures r == ReadAllSpec(payload)
  {
    var p := payload;
    var res: seq<seq<byte>> := [];
    if ReadAllSpec(p).Ok? {
      assert res + ReadAllSpec(p).value == ReadAllSpec(p).value;
    }
    while |p| != 0
      invariant ReadAllSpec(payload) == Prepend(res, ReadAllSpec(p))
      decreases |p|
    {
      var read := Read(p);
      if read.Err? {
        return Err(read.error);
      }
      var (bytes, consumed) := read.value;
      ReadAllStep(p);
      if ReadAllSpec(p[consumed..]).Ok? {
        assert res + ([bytes] + ReadAllSpec(p[consumed..]).value)
          == (res + [bytes]) + ReadAllSpec(p[consumed..]).value;
      }
      p := p[consumed..];
      res := res + [bytes];
    }
    assert res + [] == res;
    return Ok(res);
  }

  /** New: a fresh buffer holding the length prefix and a copy of `bytes`
      (pkg/sys/payload.go:41-47). */
  method New(bytes: seq<byte>) returns (r: seq<byte>)
    ensures r == Frame(bytes)
  {
    var size := |bytes|;
    var res := new byte[W + size](_ => 0);
    var prefix := IntAsBytes(size);
    forall i | 0 <= i < W {
      res[i] := prefix[i];
    }
    forall i | W <= i < W + size {
      res[i] := bytes[i - W];
    }
    r := res[..];
  }

  /** Size reads only the first W bytes: anything after them is ignored. */
  lemma SizeIgnoresTrailing(p: seq<byte>, extra: seq<byte>)
    requires |p| >= W
    ensures Size(p + extra) == Size(p)
  {
    assert (p + extra)[..W] == p[..W];
  }

  /** The size of a framed body is its length. */
  lemma SizeOfFrame(b: seq<byte>, rest: seq<byte>)
    requires Framable(b)
    ensures Size(Frame(b) + rest) == Ok(|b|)
  {
    assert (Frame(b) + rest)[..W] == IntAsBytes(|b|);
    IntBytesRoundTrip(|b|);
  }

  /** Read undoes New, whatever follows the section. */
  lemma ReadOfFrame(b: seq<byte>, rest: seq<byte>)
    requires Framable(b)
    ensures Read(Frame(b) + rest) == Ok((b, W + |b|))
  {
    SizeOfFrame(b, rest);
    assert (Frame(b) + rest)[W..W + |b|] == b;
  }

  /** The concatenated frames of a list of bodies. */
  function FrameAll(xs: seq<seq<byte>>): (r: seq<byte>)
  {
    if xs == [] then [] else Frame(xs[0]) + FrameAll(xs[1..])
  }

  predicate AllFramable(xs: seq<seq<byte>>)
  {
    forall i | 0 <= i < |xs| :: Framable(xs[i])
  }

  /** ReadAll reads back every framed section, then continues with what
      follows; so ReadAll(FrameAll(xs)) == xs, and a malformed tail makes the
      whole call fail. */
  lemma {:induction false} ReadAllOfFrames(xs: seq<seq<byte>>, rest: seq<byte>)
    requires AllFramable(xs)
    ensures ReadAllSpec(FrameAll(xs) + rest) == Prepend(xs, ReadAllSpec(rest))
  {
    var r := ReadAllSpec(rest);
    if xs == [] {
      assert FrameAll(xs) + rest == rest;
      if r.Ok? {
        assert xs + r.value == r.value;
      }
    } else {
      var tail := FrameAll(xs[1..]) + rest;
      var p := FrameAll(xs) + rest;
      ConcatAssoc(Frame(xs[0]), FrameAll(xs[1..]), rest);
      ReadOfFrame(xs[0], tail);
      DropPrefix(Frame(xs[0]), tail);
      ReadAllOfFrames(xs[1..], rest);
      ReadAllStep(p);
      if r.Ok? {
        ConcatAssoc([xs[0]], xs[1..], r.value);
        assert [xs[0]] + xs[1..] == xs;
      }
    }
  }

  lemma ReadAllRoundTrip(xs: seq<seq<byte>>)
    requires AllFramable(xs)
    ensures ReadAllSpec(FrameAll(xs)) == Ok(xs)
  {
    ReadAllOfFrames(xs, []);
    assert FrameAll(xs) + [] == FrameAll(xs);
    assert xs + [] == xs;
  }

  /** Every section a successful ReadAll returns was framed in the input:
      the input is exactly the frames of the returned bodies. */
  lemma {:induction false} ReadAllCovers(p: seq<byte>)
    requires ReadAllSpec(p).Ok?
    ensures FrameAll(ReadAllSpec(p).value) == p
    decreases |p|
  {
    if p != [] {
      var (body, consumed) := Read(p).value;
      ReadAllStep(p);
      var ys := ReadAllSpec(p[consumed..]).value;
      ReadAllCovers(p[consumed..]);
      FrameAllCons(body, ys);
      FrameOfRead(p);
      assert p == p[..consumed] + p[consumed..];
    }
  }

  lemma FrameAllCons(b: seq<byte>, ys: seq<seq<byte>>)
    ensures FrameAll([b] + ys) == Frame(b) + FrameAll(ys)
  {
    assert ([b] + ys)[1..] == ys;
  }

  /** The bytes a successful Read consumed are the frame of the body it returned. */
  lemma FrameOfRead(p: seq<byte>)
    requires Read(p).Ok?
    ensures Frame(Read(p).value.0) == p[..Read(p).value.1]
  {
    var (body, consumed) := Read(p).value;
    BytesAsIntInverse(p[..W]);
    assert p[..consumed] == p[..W] + body;
  }
}
