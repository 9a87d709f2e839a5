/** Byte strings: big-endian integers, decimal text, and the splitting lemmas the
    wire formats rely on. Strings are kept as their UTF-8 bytes. */
module Bytes {
  type Byte = x: int | 0 <= x < 256
  type Str = seq<Byte>

  const U32: nat := 0x1_0000_0000
  const U64: nat := 0x1_0000_0000_0000_0000

  type u32 = x: int | 0 <= x < U32
  type u64 = x: int | 0 <= x < U64

  /** Machine addition: a sum of two 64-bit (32-bit) values, wrapped around. */
  function Wrap64(n: nat): u64
    requires n < 2 * U64
  {
    if n < U64 then n else n - U64
  }

  function Wrap32(n: nat): u32
    requires n < 2 * U32
  {
    if n < U32 then n else n - U32
  }

  const COLON: Byte := 58

  predicate IsAscii(s: string) {
    forall i | 0 <= i < |s| :: s[i] as int < 128
  }

  /** White space to JavaScript, in trimming, in patterns and in reading numbers. */
  predicate IsSpace(c: char) {
    || '\t' <= c <= '\r' || c == ' ' || c == '\U{A0}' || c == '\U{1680}' || '\U{2000}' <= c <= '\U{200A}'
    || c == '\U{2028}' || c == '\U{2029}' || c == '\U{202F}' || c == '\U{205F}' || c == '\U{3000}' || c == '\U{FEFF}'
  }

  /** The characters listed one by one. */
  lemma {:induction false} WhiteSpaceWrittenOut(c: char)
    ensures IsSpace(c) <==>
            c in {'\t', '\n', '\U{B}', '\U{C}', '\r', ' ', '\U{A0}', '\U{1680}', '\U{2000}', '\U{2001}', '\U{2002}',
                  '\U{2003}', '\U{2004}', '\U{2005}', '\U{2006}', '\U{2007}', '\U{2008}', '\U{2009}', '\U{200A}',
                  '\U{2028}', '\U{2029}', '\U{202F}', '\U{205F}', '\U{3000}', '\U{FEFF}'}
  {
  }

  /** The bytes of an ASCII label. */
  function Ascii(s: string): (b: Str)
    requires IsAscii(s)
    ensures |b| == |s|
    ensures forall i | 0 <= i < |s| :: b[i] == s[i] as int
  {
    seq(|s|, i requires 0 <= i < |s| => s[i] as int)
  }

  function Repeated(b: Byte, n: nat): (s: Str)
    ensures |s| == n && forall i | 0 <= i < n :: s[i] == b
  {
    seq(n, _ => b)
  }

  // ---- big-endian integers -------------------------------------------------

  function Pow256(w: nat): (p: nat)
    ensures p > 0
  {
    if w == 0 then 1 else 256 * Pow256(w - 1)
  }

  lemma Widths()
    ensures Pow256(4) == U32 && Pow256(8) == U64
  {
    assert Pow256(2) == 65536;
    assert Pow256(4) == U32;
    assert Pow256(6) == 65536 * U32;
  }

  /** The low `w` bytes of `n`, most significant first. */
  function BigEndian(n: nat, w: nat): (s: Str)
    ensures |s| == w
  {
    if w == 0 then [] else BigEndian(n / 256, w - 1) + [n % 256]
  }

  function FromBigEndian(s: Str): (n: nat)
    ensures n < Pow256(|s|)
  {
    if s == [] then 0 else FromBigEndian(s[..|s| - 1]) * 256 + s[|s| - 1]
  }

  lemma {:induction false} DecodeEncode(n: nat, w: nat)
    requires n < Pow256(w)
    ensures FromBigEndian(BigEndian(n, w)) == n
  {
    if w == 0 {
    } else {
      var (s, q) := (BigEndian(n, w), n / 256);
      assert n == q * 256 + n % 256;
      assert q < Pow256(w - 1);
      DecodeEncode(q, w - 1);
      assert s[..|s| - 1] == BigEndian(q, w - 1);
    }
  }

  lemma {:induction false} EncodeDecode(s: Str)
    ensures BigEndian(FromBigEndian(s), |s|) == s
  {
    if s == [] {
    } else {
      EncodeDecode(s[..|s| - 1]);
      assert s == s[..|s| - 1] + [s[|s| - 1]];
    }
  }

  /** The first byte is the most significant. */
  lemma {:induction false} MostSignificantFirst(b: Byte, s: Str)
    ensures FromBigEndian([b] + s) == b * Pow256(|s|) + FromBigEndian(s)
  {
    if s == [] {
      assert ([b] + s)[..0] == [];
    } else {
      var n := |s| - 1;
      MostSignificantFirst(b, s[..n]);
      assert ([b] + s)[..n + 1] == [b] + s[..n];
      assert b * Pow256(n) * 256 == b * Pow256(n + 1);
    }
  }

  lemma {:induction false} ZeroBytes(w: nat)
    ensures BigEndian(0, w) == Repeated(0, w)
  {
    if w == 0 {
    } else {
      ZeroBytes(w - 1);
    }
  }

  /** A number below 2^16 has its two bytes last, after zeros. */
  lemma {:induction false} TwoByteNumber(hi: Byte, lo: Byte, w: nat)
    ensures BigEndian(256 * hi + lo, w + 2) == Repeated(0, w) + [hi, lo]
  {
    assert BigEndian(256 * hi + lo, w + 2) == BigEndian(hi, w + 1) + [lo];
    assert BigEndian(hi, w + 1) == BigEndian(0, w) + [hi];
    ZeroBytes(w);
  }

  lemma BigEndianInjective(m: nat, n: nat, w: nat)
    requires m < Pow256(w) && n < Pow256(w)
    ensures BigEndian(m, w) == BigEndian(n, w) <==> m == n
  {
    DecodeEncode(m, w);
    DecodeEncode(n, w);
  }

  lemma U64Bytes(m: u64, n: u64)
    ensures BigEndian(m, 8) == BigEndian(n, 8) <==> m == n
  {
    Widths();
    BigEndianInjective(m, n, 8);
  }

  lemma U32Bytes(m: u32, n: u32)
    ensures BigEndian(m, 4) == BigEndian(n, 4) <==> m == n
  {
    Widths();
    BigEndianInjective(m, n, 4);
  }

  // ---- decimal text --------------------------------------------------------

  predicate IsDigits(s: Str) {
    forall i | 0 <= i < |s| :: 48 <= s[i] <= 57
  }

  function Decimal(n: nat): (s: Str)
    ensures |s| > 0 && IsDigits(s)
  {
    if n < 10 then [48 + n] else Decimal(n / 10) + [48 + n % 10]
  }

  function FromDecimal(s: Str): int {
    if s == [] then 0 else FromDecimal(s[..|s| - 1]) * 10 + s[|s| - 1] - 48
  }

  lemma {:induction false} DecimalRoundTrip(n: nat)
    ensures FromDecimal(Decimal(n)) == n
  {
    var s := Decimal(n);
    if n < 10 {
      assert s[..|s| - 1] == [];
    } else {
      assert s[..|s| - 1] == Decimal(n / 10);
      DecimalRoundTrip(n / 10);
    }
  }

  // ---- splitting -----------------------------------------------------------

  /** A text is cut in one way only at its last colon. */
  lemma LastColonSplits(a: Str, x: Str, b: Str, y: Str)
    requires COLON !in x && COLON !in y
    requires a + [COLON] + x == b + [COLON] + y
    ensures a == b && x == y
  {
    var l, r := a + [COLON] + x, b + [COLON] + y;
    assert l[|a|] == COLON && forall i | |a| < i < |l| :: l[i] == x[i - |a| - 1];
    assert r[|b|] == COLON && forall i | |b| < i < |r| :: r[i] == y[i - |b| - 1];
    assert a == l[..|a|] == r[..|b|] == b;
    assert x == l[|a| + 1..] == r[|b| + 1..] == y;
  }

  /** Suffixes of equal length make concatenation injective. */
  lemma FixedSuffixSplits<T>(a: seq<T>, x: seq<T>, b: seq<T>, y: seq<T>)
    requires |x| == |y|
    ensures a + x == b + y <==> a == b && x == y
  {
    if a + x == b + y {
      assert a == (a + x)[..|a|] == (b + y)[..|b|] == b;
      assert x == (a + x)[|a|..] == (b + y)[|b|..] == y;
    }
  }

  lemma SliceOfSlice<T>(s: seq<T>, lo: nat, hi: nat, a: nat, b: nat)
    requires lo <= a <= b <= hi <= |s|
    ensures s[lo..hi][a - lo..b - lo] == s[a..b]
  {
    forall k | 0 <= k < b - a
      ensures s[lo..hi][a - lo..b - lo][k] == s[a..b][k]
    {
      assert s[lo..hi][a - lo + k] == s[a + k];
    }
  }

  lemma SliceInside<T>(p: seq<T>, s: seq<T>, q: seq<T>, a: nat, b: nat)
    requires a <= b <= |s|
    ensures (p + s + q)[|p| + a..|p| + b] == s[a..b]
  {
    var w := p + s + q;
    forall k | 0 <= k < b - a
      ensures w[|p| + a..|p| + b][k] == s[a..b][k]
    {
      assert w[|p| + a + k] == s[a + k];
    }
  }
}
