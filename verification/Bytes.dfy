/** Little-endian integers in byte sequences, 32-bit wrap-around, and power-of-two alignment. */
module Bytes {

  type u8 = x: int | 0 <= x < 256

  const TWO_16 := 0x1_0000
  const TWO_31 := 0x8000_0000
  const TWO_32 := 0x1_0000_0000

  /** The value of an unsigned 32-bit expression whose exact value is x. */
  function Wrap32(x: int): (r: int)
    ensures 0 <= r < TWO_32
  {
    x % TWO_32
  }

  /** A uint32 bit pattern read as int32. */
  function Signed32(u: int): int
    requires 0 <= u < TWO_32
  {
    if u < TWO_31 then u else u - TWO_32
  }

  lemma SignedOfWrap(x: int)
    requires -TWO_31 <= x < TWO_31
    ensures Signed32(Wrap32(x)) == x
  {
    if x < 0 {
      assert x % TWO_32 == x + TWO_32;
    }
  }

  function U16Bytes(x: int): (s: seq<u8>)
    requires 0 <= x < TWO_16
    ensures |s| == 2
  {
    [x % 256, x / 256]
  }

  function U32Bytes(x: int): (s: seq<u8>)
    requires 0 <= x < TWO_32
    ensures |s| == 4
  {
    [x % 256, x / 256 % 256, x / 65536 % 256, x / 16777216]
  }

  function U16At(b: seq<u8>, p: int): (r: int)
    requires 0 <= p && p + 2 <= |b|
    ensures 0 <= r < TWO_16
  {
    b[p] as int + 256 * b[p + 1] as int
  }

  function U32At(b: seq<u8>, p: int): (r: int)
    requires 0 <= p && p + 4 <= |b|
    ensures 0 <= r < TWO_32
  {
    b[p] as int + 256 * b[p + 1] as int + 65536 * b[p + 2] as int + 16777216 * b[p + 3] as int
  }

  lemma U16RoundTrip(x: int, b: seq<u8>, p: int)
    requires 0 <= x < TWO_16
    requires 0 <= p && p + 2 <= |b| && b[p..p + 2] == U16Bytes(x)
    ensures U16At(b, p) == x
  {
    assert b[p] == b[p..p + 2][0] && b[p + 1] == b[p..p + 2][1];
  }

  lemma Digits(x: int)
    requires 0 <= x < TWO_32
    ensures x % 256 + 256 * (x / 256 % 256) + 65536 * (x / 65536 % 256) + 16777216 * (x / 16777216) == x
  {
    var a := x / 256;
    var b := a / 256;
    assert x / 65536 == b && x / 16777216 == b / 256;
    assert x == 256 * a + x % 256 && a == 256 * b + a % 256 && b == 256 * (b / 256) + b % 256;
  }

  lemma U32RoundTrip(x: int, b: seq<u8>, p: int)
    requires 0 <= x < TWO_32
    requires 0 <= p && p + 4 <= |b| && b[p..p + 4] == U32Bytes(x)
    ensures U32At(b, p) == x
  {
    var s := b[p..p + 4];
    assert b[p] == s[0] && b[p + 1] == s[1] && b[p + 2] == s[2] && b[p + 3] == s[3];
    Digits(x);
  }

  lemma U32OfSlice(b: seq<u8>, p: int, c: seq<u8>, q: int)
    requires 0 <= p && p + 4 <= |b| && 0 <= q && q + 4 <= |c| && b[p..p + 4] == c[q..q + 4]
    ensures U32At(b, p) == U32At(c, q)
  {
    var s, t := b[p..p + 4], c[q..q + 4];
    assert b[p] == s[0] && b[p + 1] == s[1] && b[p + 2] == s[2] && b[p + 3] == s[3];
    assert c[q] == t[0] && c[q + 1] == t[1] && c[q + 2] == t[2] && c[q + 3] == t[3];
  }

  lemma U16OfSlice(b: seq<u8>, p: int, c: seq<u8>, q: int)
    requires 0 <= p && p + 2 <= |b| && 0 <= q && q + 2 <= |c| && b[p..p + 2] == c[q..q + 2]
    ensures U16At(b, p) == U16At(c, q)
  {
    var s, t := b[p..p + 2], c[q..q + 2];
    assert b[p] == s[0] && b[p + 1] == s[1];
    assert c[q] == t[0] && c[q + 1] == t[1];
  }

  function Zeros(n: nat): (s: seq<u8>)
    ensures |s| == n && forall i :: 0 <= i < n ==> s[i] == 0
  {
    seq(n, i => 0)
  }

  // ---- alignment -------------------------------------------------------------------------

  predicate IsPow2(n: int)
    decreases n
  {
    n == 1 || (n >= 2 && n % 2 == 0 && IsPow2(n / 2))
  }

  /** x is a multiple of the power of two a: the source writes `!(x & (a - 1))`. */
  predicate Aligned(x: int, a: int)
    requires a >= 1
  {
    x % a == 0
  }

  lemma {:induction false} Pow2Divides(a: int, b: int)
    requires IsPow2(a) && IsPow2(b) && a <= b
    ensures a >= 1 && b % a == 0
    decreases b
  {
    if a != 1 {
      Pow2Divides(a / 2, b / 2);
      var q := b / 2 / (a / 2);
      assert b / 2 == q * (a / 2);
      assert b == q * a;
      MultipleIsAligned(q, a);
    }
  }

  lemma MultipleIsAligned(q: int, a: int)
    requires a >= 1
    ensures (q * a) % a == 0
  {
    ModOfSum(0, q, a);
  }

  lemma {:induction false} ModOfSum(x: int, q: int, a: int)
    requires a >= 1
    ensures (x + q * a) % a == x % a
  {
    var r := x % a;
    var k := x / a;
    assert x == k * a + r;
    assert x + q * a == (k + q) * a + r;
    ModUnique(x + q * a, k + q, r, a);
  }

  lemma ModUnique(x: int, q: int, r: int, a: int)
    requires a >= 1 && x == q * a + r && 0 <= r < a
    ensures x % a == r
  {
    var q', r' := x / a, x % a;
    assert q' * a + r' == x;
    assert (q - q') * a == r' - r;
    SmallMultiple(q - q', a, r' - r);
  }

  lemma SmallMultiple(k: int, a: int, d: int)
    requires a >= 1 && k * a == d && -a < d < a
    ensures d == 0
  {
    if k >= 1 {
      MulAtLeast(k, a);
    } else if k <= -1 {
      MulAtLeast(-k, a);
    }
  }

  lemma MulAtLeast(k: int, a: int)
    requires k >= 1 && a >= 1
    ensures k * a >= a
  {}

  lemma MultipleQuotient(x: int, a: int) returns (q: int)
    requires a >= 1 && x % a == 0
    ensures x == q * a
  {
    q := x / a;
  }

  /** Alignment to a survives adding or subtracting a multiple of a larger power of two. */
  lemma AlignedDifference(x: int, y: int, a: int, m: int)
    requires IsPow2(a) && IsPow2(m) && a <= m
    requires a >= 1 && m >= 1 && Aligned(x, a) && Aligned(y, m)
    ensures Aligned(x - y, a) && Aligned(x + y, a)
  {
    Pow2Divides(a, m);
    var k := MultipleQuotient(y, m);
    var c := MultipleQuotient(m, a);
    ProductRegroup(k, c, a);
    NegatedProduct(k * c, a);
    ModOfSum(x, k * c, a);
    ModOfSum(x, -(k * c), a);
  }

  lemma AlignedTo4(x: int, m: int)
    requires IsPow2(m) && m >= 4 && Aligned(x, m)
    ensures x % 4 == 0 && x % 2 == 0
  {
    hide Aligned;
    assert IsPow2(4) by { assert IsPow2(2); }
    AlignedDifference(0, x, 4, m);
    assert 0 + x == x;
    LiteralAligned(x);
  }

  /** Even addresses and sizes. */
  predicate Even(x: int) { x % 2 == 0 }

  lemma EvenSum(x: int, y: int)
    requires Even(x) && Even(y)
    ensures Even(x + y) && Even(x - y)
  {}

  lemma EvenIfAligned(x: int)
    requires x % 4 == 0
    ensures Even(x)
  {
    assert x == 2 * (2 * (x / 4));
  }

  lemma AlignedSum(x: int, y: int)
    requires x % 4 == 0 && y % 4 == 0
    ensures (x + y) % 4 == 0 && (x - y) % 4 == 0
  {}

  lemma ZeroAligned(a: int)
    requires IsPow2(a)
    ensures a >= 1 && Aligned(0, a)
  {}

  lemma LiteralAligned(x: int)
    requires Aligned(x, 4)
    ensures x % 4 == 0 && x % 2 == 0
  {
    assert x == 2 * (2 * (x / 4));
  }

  lemma SumAligned(x: int, y: int, a: int)
    requires a >= 1 && Aligned(x, a)
    ensures Aligned(x + y, a) <==> Aligned(y, a)
  {
    var q := MultipleQuotient(x, a);
    ModOfSum(y, q, a);
  }

  lemma NegatedProduct(k: int, a: int)
    ensures -k * a == -(k * a)
  {}

  lemma ProductRegroup(k: int, c: int, a: int)
    ensures k * (c * a) == (k * c) * a
  {}
}
