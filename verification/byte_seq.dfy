/** Byte-level vocabulary: bytes, Go byte strings, little-endian integers of a
    given width, zero padding, UTF-8 well-formedness and concatenation. These
    stand for the helpers of the `sys` package (IntAsBytes, BytesAsInt,
    AddPadding, RemovePadding, ConcatSlices) and for `encoding/binary` and
    `unicode/utf8`. */
module ByteSeq {

  type byte = b: int | 0 <= b < 0x100

  /** A Go string is a sequence of bytes. */
  type Str = seq<byte>

  /** The width in bytes of the host's `int`, fixed at 64 bits. */
  const W: nat := 8

  function Pow256(w: nat): (p: int)
    ensures p >= 1
  {
    if w == 0 then 1 else 256 * Pow256(w - 1)
  }

  lemma Pow256Values()
    ensures Pow256(1) == 0x100 && Pow256(2) == 0x1_0000 && Pow256(4) == 0x1_0000_0000
    ensures Pow256(8) == 0x1_0000_0000_0000_0000
  {
    assert Pow256(1) == 256;
    assert Pow256(2) == 256 * 256;
    assert Pow256(3) == 256 * 0x1_0000;
    assert Pow256(4) == 256 * 0x100_0000;
    assert Pow256(5) == 256 * 0x1_0000_0000;
    assert Pow256(6) == 256 * 0x100_0000_0000;
    assert Pow256(7) == 256 * 0x1_0000_0000_0000;
  }

  /** The `w` low-order bytes of `n` in two's complement, least significant
      first (what binary.LittleEndian.PutUintN writes after a conversion to
      an unsigned type of that width). */
  function LE(n: int, w: nat): (r: seq<byte>)
    ensures |r| == w
    decreases w
  {
    if w == 0 then [] else [n % 256] + LE(n / 256, w - 1)
  }

  /** The unsigned value of little-endian bytes (binary.LittleEndian.UintN). */
  function FromLE(s: seq<byte>): (n: int)
    ensures 0 <= n < Pow256(|s|)
  {
    if s == [] then 0 else s[0] + 256 * FromLE(s[1..])
  }

  /** Reinterprets the unsigned `w`-byte value `u` as a signed integer of the
      same width (a Go conversion from uintN to intN). */
  function Signed(u: int, w: nat): int
  {
    if u >= Pow256(w) / 2 then u - Pow256(w) else u
  }

  /** The range of a signed integer of `w` bytes. */
  predicate FitsSigned(i: int, w: nat)
  {
    -(Pow256(w) / 2) <= i < Pow256(w) / 2
  }

  /** Euclidean division is unique. */
  lemma DivModUnique(n: int, d: int, q: int, r: int)
    requires d > 0 && n == d * q + r && 0 <= r < d
    ensures n / d == q && n % d == r
  {
    var q', r' := n / d, n % d;
    assert n == d * q' + r';
    var k := q - q';
    assert d * k == d * q - d * q';
    assert d * k == r' - r;
  }

  lemma ModSplit(n: int, p: int)
    requires p >= 1
    ensures n % (256 * p) == n % 256 + 256 * ((n / 256) % p)
  {
    var q, r := n / 256, n % 256;
    var a, b := q / p, q % p;
    assert q == p * a + b;
    assert n == 256 * q + r;
    assert n == (256 * p) * a + (256 * b + r) by {
      assert 256 * q == 256 * (p * a) + 256 * b;
      assert 256 * (p * a) == (256 * p) * a;
    }
    assert 0 <= 256 * b + r < 256 * p by {
      assert b <= p - 1;
      assert 256 * b <= 256 * (p - 1);
    }
    DivModUnique(n, 256 * p, a, 256 * b + r);
  }

  /** Decoding the little-endian bytes of `n` gives `n` reduced modulo the width. */
  lemma {:induction false} FromLEOfLE(n: int, w: nat)
    ensures FromLE(LE(n, w)) == n % Pow256(w)
    decreases w
  {
    if w > 0 {
      var s := LE(n, w);
      assert s[1..] == LE(n / 256, w - 1);
      FromLEOfLE(n / 256, w - 1);
      ModSplit(n, Pow256(w - 1));
    }
  }

  /** Reading back a value written at a width it fits in gives the value. */
  lemma SignedOfLE(i: int, w: nat)
    requires w >= 1 && FitsSigned(i, w)
    ensures Signed(FromLE(LE(i, w)), w) == i
  {
    FromLEOfLE(i, w);
    var p := Pow256(w);
    assert p == 256 * Pow256(w - 1);
    if i >= 0 {
      DivModUnique(i, p, 0, i);
    } else {
      DivModUnique(i, p, -1, i + p);
    }
  }

  /** Reading back a non-negative value that fits the width unsigned gives the value. */
  lemma UnsignedOfLE(i: int, w: nat)
    requires 0 <= i < Pow256(w)
    ensures FromLE(LE(i, w)) == i
  {
    FromLEOfLE(i, w);
    DivModUnique(i, Pow256(w), 0, i);
  }

  /** A width-`w` LE encoding depends only on the value modulo 256^w. */
  lemma {:induction false} LEOfFromLE(s: seq<byte>)
    ensures LE(FromLE(s), |s|) == s
  {
    if s != [] {
      var n := FromLE(s);
      DivModUnique(n, 256, FromLE(s[1..]), s[0]);
      LEOfFromLE(s[1..]);
    }
  }

  /** Every `w` bytes are the encoding, at width `w`, of the signed number
      they decode to. */
  lemma SignedIsSameBytes(b: seq<byte>)
    requires |b| >= 1
    ensures FitsSigned(Signed(FromLE(b), |b|), |b|)
    ensures LE(Signed(FromLE(b), |b|), |b|) == b
  {
    var u, w := FromLE(b), |b|;
    SignedFits(u, w);
    SignedSameLE(u, w);
    LEOfFromLE(b);
  }

  lemma SignedSameLE(u: int, w: nat)
    requires w >= 1
    ensures LE(Signed(u, w), w) == LE(u, w)
  {
    if u >= Pow256(w) / 2 {
      LEShift(u, w);
    }
  }

  lemma SignedFits(u: int, w: nat)
    requires w >= 1 && 0 <= u < Pow256(w)
    ensures FitsSigned(Signed(u, w), w)
  {
    var p, q := Pow256(w), Pow256(w - 1);
    assert p == 256 * q;
    assert p / 2 == 128 * q;
  }

  /** Little-endian bytes of a given width do not change by one full turn. */
  lemma {:induction false} LEShift(n: int, w: nat)
    requires w >= 1
    ensures LE(n - Pow256(w), w) == LE(n, w)
    decreases w
  {
    var p' := Pow256(w - 1);
    DivModUnique(n - 256 * p', 256, n / 256 - p', n % 256);
    if w >= 2 {
      LEShift(n / 256, w - 1);
    }
  }

  function Zeros(n: nat): (r: seq<byte>)
    ensures |r| == n && forall i | 0 <= i < n :: r[i] == 0
  {
    seq(n, _ => 0)
  }

  /** AddPadding: zero bytes appended up to `size`. */
  function Pad(s: seq<byte>, size: nat): (r: seq<byte>)
    requires |s| <= size
    ensures |r| == size && r[..|s|] == s
    ensures forall i | |s| <= i < size :: r[i] == 0
  {
    s + Zeros(size - |s|)
  }

  /** RemovePadding: every trailing zero byte removed. */
  function StripZeros(s: seq<byte>): (r: seq<byte>)
    ensures |r| <= |s| && r == s[..|r|]
    ensures r == [] || r[|r| - 1] != 0
    ensures forall i | |r| <= i < |s| :: s[i] == 0
  {
    if s == [] || s[|s| - 1] != 0 then s else StripZeros(s[..|s| - 1])
  }

  /** Stripping the padding of a padded string that does not end in 0x00
      gives the string back. */
  lemma {:induction false} StripPad(s: seq<byte>, size: nat)
    requires |s| <= size && (s == [] || s[|s| - 1] != 0)
    ensures StripZeros(Pad(s, size)) == s
  {
    if size > |s| {
      var p := Pad(s, size);
      assert p[..|p| - 1] == Pad(s, size - 1);
      StripPad(s, size - 1);
    } else {
      assert Pad(s, size) == s;
    }
  }

  /** What Go's copy(dst, src) leaves in a fresh zeroed buffer of length
      `n`: `src` truncated or zero-filled to exactly `n` bytes. */
  function Fit(src: seq<byte>, n: nat): (r: seq<byte>)
    ensures |r| == n
    ensures forall i | 0 <= i < n :: r[i] == (if i < |src| then src[i] else 0)
  {
    if |src| >= n then src[..n] else src + Zeros(n - |src|)
  }

  lemma ConcatAssoc<T>(a: seq<T>, b: seq<T>, c: seq<T>)
    ensures (a + b) + c == a + (b + c)
  {
  }

  lemma DropPrefix<T>(a: seq<T>, b: seq<T>)
    ensures (a + b)[|a|..] == b && (a + b)[..|a|] == a
  {
  }

  function Flatten(ss: seq<seq<byte>>): (r: seq<byte>)
  {
    if ss == [] then [] else ss[0] + Flatten(ss[1..])
  }

  /** A suffix is its first element followed by the next suffix. */
  lemma SuffixAt<T>(s: seq<T>, i: nat)
    requires i < |s|
    ensures s[i..] == [s[i]] + s[i + 1..]
  {
  }

  /** Flattening from the `i`-th piece on starts with that piece. */
  lemma FlattenAt(ss: seq<seq<byte>>, i: nat)
    requires i < |ss|
    ensures Flatten(ss[i..]) == ss[i] + Flatten(ss[i + 1..])
  {
    assert ss[i..][1..] == ss[i + 1..];
  }

  lemma {:induction false} FlattenAppend(ss: seq<seq<byte>>, s: seq<byte>)
    ensures Flatten(ss + [s]) == Flatten(ss) + s
  {
    if ss != [] {
      assert (ss + [s])[1..] == ss[1..] + [s];
      FlattenAppend(ss[1..], s);
    } else {
      assert Flatten([s]) == s + Flatten([]);
    }
  }

  /** The bytes of an ASCII literal. */
  function Ascii(s: string): (r: Str)
    requires forall i | 0 <= i < |s| :: s[i] as int < 0x80
    ensures |r| == |s|
  {
    if s == [] then [] else [s[0] as int] + Ascii(s[1..])
  }

  predicate IsCont(b: byte) { 0x80 <= b < 0xC0 }

  /** Length of the well-formed UTF-8 sequence at the start of `s`, or 0 when
      none starts there (RFC 3629: no overlong forms, no surrogates, nothing
      above U+10FFFF), as Go's utf8.Valid decides. */
  function LeadLength(s: seq<byte>): (n: nat)
    requires |s| > 0
    ensures n <= 4 && n <= |s|
  {
    var b := s[0];
    if b < 0x80 then 1
    else if 0xC2 <= b < 0xE0 then
      (if |s| >= 2 && IsCont(s[1]) then 2 else 0)
    else if 0xE0 <= b < 0xF0 then
      (if |s| >= 3 && IsCont(s[1]) && IsCont(s[2])
          && (b != 0xE0 || s[1] >= 0xA0) && (b != 0xED || s[1] < 0xA0)
       then 3 else 0)
    else if 0xF0 <= b < 0xF5 then
      (if |s| >= 4 && IsCont(s[1]) && IsCont(s[2]) && IsCont(s[3])
          && (b != 0xF0 || s[1] >= 0x90) && (b != 0xF4 || s[1] < 0x90)
       then 4 else 0)
    else 0
  }

  predicate ValidUtf8(s: seq<byte>)
    decreases |s|
  {
    s == [] || (LeadLength(s) > 0 && ValidUtf8(s[LeadLength(s)..]))
  }

  lemma LeadLengthPrefix(a: seq<byte>, b: seq<byte>)
    requires |a| > 0 && LeadLength(a) > 0
    ensures LeadLength(a + b) == LeadLength(a)
  {
    var ab := a + b;
    assert ab[0] == a[0];
    if |a| >= 2 { assert ab[1] == a[1]; }
    if |a| >= 3 { assert ab[2] == a[2]; }
    if |a| >= 4 { assert ab[3] == a[3]; }
  }

  /** Well-formed UTF-8 is closed under concatenation. */
  lemma {:induction false} ValidUtf8Concat(a: seq<byte>, b: seq<byte>)
    requires ValidUtf8(a) && ValidUtf8(b)
    ensures ValidUtf8(a + b)
  {
    if a == [] {
      assert a + b == b;
    } else {
      var n := LeadLength(a);
      LeadLengthPrefix(a, b);
      assert (a + b)[n..] == a[n..] + b;
      ValidUtf8Concat(a[n..], b);
    }
  }

  /** Zero bytes are well-formed UTF-8 (each is the character U+0000). */
  lemma {:induction false} ValidUtf8Zeros(n: nat)
    ensures ValidUtf8(Zeros(n))
  {
    if n > 0 {
      assert Zeros(n)[1..] == Zeros(n - 1);
      ValidUtf8Zeros(n - 1);
    }
  }

  lemma ValidUtf8Pad(s: seq<byte>, size: nat)
    requires |s| <= size && ValidUtf8(s)
    ensures ValidUtf8(Pad(s, size))
  {
    ValidUtf8Zeros(size - |s|);
    ValidUtf8Concat(s, Zeros(size - |s|));
  }
}
