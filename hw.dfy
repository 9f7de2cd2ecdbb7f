/** Machine-level vocabulary shared by the three input/output components:
    the fixed-width integer types of the C structs, sampled pin levels,
    optional callback handles, and the wrapping arithmetic of `uint32_t`
    and `int32_t`. */
module Hw {

  /** An optional value; `None` stands for a NULL pointer. */
  datatype Option<T> = None | Some(value: T)

  const U32_MODULUS: int := 0x1_0000_0000

  type u8 = x: int | 0 <= x < 0x100
  type u16 = x: int | 0 <= x < 0x1_0000
  type u32 = x: int | 0 <= x < 0x1_0000_0000
  type i32 = x: int | -0x8000_0000 <= x < 0x8000_0000

  /** A level returned by `digitalRead`: LOW (0) or HIGH (1). */
  type Level = x: int | 0 <= x <= 1

  const LOW: Level := 0
  const HIGH: Level := 1

  /** An opaque identity for a bound function pointer or context pointer. */
  type Handle = nat

  /** The unsigned 32-bit difference `now - since`, as `millis()` arithmetic
      computes it: the unique `uint32_t` that, added to `since`, wraps to `now`. */
  function Elapsed(now: u32, since: u32): (r: u32)
    ensures (since + r) % U32_MODULUS == now
    ensures since <= now ==> r == now - since
    ensures now < since ==> r == U32_MODULUS - (since - now)
  {
    if since <= now then now - since else now - since + U32_MODULUS
  }

  /** Two's-complement truncation of an integer to `int32_t`: add or remove
      whole multiples of 2^32 until the value lies in the `int32_t` range. */
  function WrapI32(x: int): (r: i32)
    ensures -0x8000_0000 <= x < 0x8000_0000 ==> r == x
    decreases if x < 0 then -x else x + 1
  {
    if x < -0x8000_0000 then WrapI32(x + U32_MODULUS)
    else if x >= 0x8000_0000 then WrapI32(x - U32_MODULUS)
    else x
  }

  /** The truncation differs from its argument by a whole multiple `k` of
      2^32. */
  lemma {:induction false} WrapI32Quotient(x: int) returns (k: int)
    ensures x == WrapI32(x) + k * U32_MODULUS
    decreases if x < 0 then -x else x + 1
  {
    if x < -0x8000_0000 {
      var j := WrapI32Quotient(x + U32_MODULUS);
      k := j - 1;
    } else if x >= 0x8000_0000 {
      var j := WrapI32Quotient(x - U32_MODULUS);
      k := j + 1;
    } else {
      k := 0;
    }
  }

  /** Two integers congruent modulo 2^32 truncate to the same `int32_t`. */
  lemma WrapI32Congruent(x: int, y: int)
    requires (x - y) % U32_MODULUS == 0
    ensures WrapI32(x) == WrapI32(y)
  {
    var kx := WrapI32Quotient(x);
    var ky := WrapI32Quotient(y);
    var j := (x - y) / U32_MODULUS;
    assert x - y == j * U32_MODULUS;
    assert WrapI32(x) - WrapI32(y) == (j - kx + ky) * U32_MODULUS;
  }

  /** Accumulating into an `int32_t` one addition at a time wraps like one
      exact addition followed by a single truncation. */
  lemma WrapI32Add(x: int, d: int)
    ensures WrapI32(WrapI32(x) + d) == WrapI32(x + d)
  {
    var k := WrapI32Quotient(x);
    assert WrapI32(x) + d - (x + d) == -k * U32_MODULUS;
    WrapI32Congruent(WrapI32(x) + d, x + d);
  }
}
