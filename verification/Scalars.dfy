/** How the language the builder is written in compares two scalars of one type, given their bytes:
    integers by their bits, floating-point numbers by value. */
module Scalars {
  import opened Bytes

  /** The width of a binary32 or binary64 number, whose bytes are little-endian (IEEE 754, section 3.4). */
  predicate FloatSize(n: nat) { n == 4 || n == 8 }

  function Exponent(x: seq<u8>): nat
    requires FloatSize(|x|)
  {
    if |x| == 4 then x[3] as int % 128 * 2 + x[2] as int / 128 else x[7] as int % 128 * 16 + x[6] as int / 16
  }

  predicate NoFraction(x: seq<u8>)
    requires FloatSize(|x|)
  {
    if |x| == 4 then x[0] == x[1] == 0 && x[2] % 128 == 0
    else x[0] == x[1] == x[2] == x[3] == x[4] == x[5] == 0 && x[6] % 16 == 0
  }

  predicate IsNaN(x: seq<u8>)
    requires FloatSize(|x|)
  {
    Exponent(x) == (if |x| == 4 then 255 else 2047) && !NoFraction(x)
  }

  predicate IsZero(x: seq<u8>)
    requires FloatSize(|x|)
  {
    Exponent(x) == 0 && NoFraction(x)
  }

  /** x == y in the program. */
  predicate SameValue(x: seq<u8>, y: seq<u8>, floating: bool) {
    if floating && |x| == |y| && FloatSize(|x|) then
      !IsNaN(x) && !IsNaN(y) && (x == y || (IsZero(x) && IsZero(y)))
    else x == y
  }

  /** A zero is all zero bytes but for the sign, the top bit of the last one. */
  lemma ZeroBytes(x: seq<u8>)
    requires FloatSize(|x|)
    ensures IsZero(x) <==> (forall i | 0 <= i < |x| - 1 :: x[i] == 0) && (x[|x| - 1] == 0 || x[|x| - 1] == 0x80)
  {
    if IsZero(x) {
      assert x[|x| - 1] % 128 == 0;
      assert forall i | 0 <= i < |x| - 1 :: x[i] == 0;
    }
  }

  /** Different bytes are one value only as the two zeros. */
  lemma SameUnlessZeros(x: seq<u8>, y: seq<u8>, floating: bool)
    requires SameValue(x, y, floating) && x != y
    ensures floating && |x| == |y| && FloatSize(|x|) && IsZero(x) && IsZero(y)
    ensures x[..|x| - 1] == y[..|x| - 1] && {x[|x| - 1], y[|x| - 1]} == {0, 0x80}
  {
    ZeroBytes(x);
    ZeroBytes(y);
    var n := |x| - 1;
    assert x == x[..n] + [x[n]] && y == y[..n] + [y[n]];
  }
}
