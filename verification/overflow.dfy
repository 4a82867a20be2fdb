/**
 * The width of the counters as written in src/main.rs. They are declared
 * `let mut byte_count = 0;` with nothing else fixing their type, so Rust gives
 * them its fallback integer type, `i32`. A release build wraps an `i32` around
 * on overflow (a debug build panics instead). The rest of this model uses
 * unbounded counters, the evidently intended behaviour.
 */
module Overflow {
  import opened Counting

  const I32Modulus: int := 0x1_0000_0000
  const I32Min: int := -0x8000_0000

  /** An `i32` wrapped around as a release build does: the value congruent to `x` in [-2^31, 2^31). */
  function WrapI32(x: int): (r: int)
    ensures I32Min <= r < -I32Min
    ensures (r - x) % I32Modulus == 0
  {
    (x - I32Min) % I32Modulus + I32Min
  }

  lemma WrapI32Increment(x: int)
    ensures WrapI32(WrapI32(x) + 1) == WrapI32(x + 1)
  {
    var q := (x - I32Min) / I32Modulus;
    assert x - I32Min == q * I32Modulus + (x - I32Min) % I32Modulus;
    var r := WrapI32(x);
    assert r + 1 - I32Min == x + 1 - I32Min - q * I32Modulus;
    ModShift(x + 1 - I32Min, q);
  }

  lemma ModShift(a: int, q: int)
    ensures (a - q * I32Modulus) % I32Modulus == a % I32Modulus
  {
    var m := I32Modulus;
    var b := a - q * m;
    assert a == (a / m) * m + a % m;
    assert b == (a / m - q) * m + a % m;
    assert 0 <= a % m < m;
    ModUnique(b, a / m - q, a % m);
  }

  lemma ModUnique(b: int, k: int, r: int)
    requires 0 <= r < I32Modulus && b == k * I32Modulus + r
    ensures b % I32Modulus == r
  {
    var m := I32Modulus;
    var k2, r2 := b / m, b % m;
    assert b == k2 * m + r2 && 0 <= r2 < m;
    assert (k - k2) * m == r2 - r;
    assert -m < r2 - r < m;
    assert k - k2 == 0;
  }

  /** The byte counter as written: an `i32` incremented once per byte read, wrapping in a release build. */
  method CountBytesAsWritten(s: seq<Byte>) returns (byteCount: int)
    ensures byteCount == WrapI32(|s|)
  {
    byteCount := 0;
    for i := 0 to |s|
      invariant byteCount == WrapI32(i)
    {
      WrapI32Increment(i);
      byteCount := WrapI32(byteCount + 1);
    }
  }

  /**
   * A file of 2^31 bytes (2 GiB) ends with the counter at -2^31, so the
   * `byte_count > 0` test fails and the bytes field is left out of its line
   * altogether, although the file is not empty.
   */
  lemma ByteFieldLostAt2GiB(s: seq<Byte>)
    requires |s| == 0x8000_0000
    ensures WrapI32(|s|) == I32Min
    ensures !(WrapI32(|s|) > 0) && |s| > 0
  {
  }
}
