/**
 * Machine integer types of the AVR target and the C conversions the firmware
 * relies on. Integers in Dafny are unbounded, so every narrowing cast of the
 * source is written out here.
 */
module Prelude {

  datatype Option<T> = None | Some(value: T)

  /** An EEPROM cell, a serial byte, a `uint8_t`. */
  type byte = x: int | 0 <= x < 0x100
  /** `int8_t`. */
  type i8 = x: int | -0x80 <= x < 0x80
  /** `uint16_t`. */
  type u16 = x: int | 0 <= x < 0x1_0000
  /** `uint32_t`; also what `micros()` returns (`unsigned long` on AVR). */
  type u32 = x: int | 0 <= x < 0x1_0000_0000

  /** The range of `long`, which is 32 bits wide on the AVR target. */
  const LongMin: int := -0x8000_0000
  const LongMax: int := 0x7FFF_FFFF

  /** The C cast `(uint16_t)x`: keeps x modulo 2^16. */
  function U16(x: int): (r: u16)
    ensures (x - r) % 0x1_0000 == 0
    ensures 0 <= x < 0x1_0000 ==> r == x
  {
    x % 0x1_0000
  }

  /** The C conversion of a `long` to `unsigned long` (32 bits on AVR): keeps x modulo 2^32. */
  function ULong(x: int): (r: nat)
    ensures r < 0x1_0000_0000 && (x - r) % 0x1_0000_0000 == 0
    ensures 0 <= x < 0x1_0000_0000 ==> r == x
    ensures -0x1_0000_0000 <= x < 0 ==> r == x + 0x1_0000_0000
  {
    x % 0x1_0000_0000
  }

  /** The value of a byte stored in a `char`, which is signed on the AVR target. */
  function SignedChar(b: byte): (r: int)
    ensures -0x80 <= r < 0x80
    ensures (r - b) % 0x100 == 0
  {
    if b < 0x80 then b else b - 0x100
  }

  /** The C conversion of an integer to `int16_t`: wraps it into -2^15 .. 2^15-1. */
  function Int16(x: int): (r: int)
    ensures -0x8000 <= r < 0x8000
    ensures (x - r) % 0x1_0000 == 0
  {
    (x + 0x8000) % 0x1_0000 - 0x8000
  }

  /**
   * Whether `weight & x` is non-zero for an `int16_t` x, where `weight` is a
   * power of two below 2^16: the bit of that weight in x's two's-complement pattern.
   */
  predicate HasBit16(x: int, weight: nat)
    requires weight > 0
  {
    ((x % 0x1_0000) / weight) % 2 == 1
  }

  /** `Int16` of a non-negative number looks only at its low sixteen bits. */
  lemma Int16OfNat(y: nat)
    ensures Int16(y) == (if y % 0x1_0000 >= 0x8000 then y % 0x1_0000 - 0x1_0000 else y % 0x1_0000)
  {
  }

  /** `EEPROM.write(addr, v)` with a `uint16_t` v stores only the low byte. */
  function LowByte(v: u16): byte { v % 0x100 }

  /** `v >> 8` of a `uint16_t`. */
  function HighByte(v: u16): byte { v / 0x100 }

  /** `(hi << 8) | lo` for two bytes read back from EEPROM. */
  function Join16(lo: byte, hi: byte): u16 { hi * 0x100 + lo }

  /** Splitting a 16-bit value into its bytes and joining them back is the identity. */
  lemma JoinSplit(v: u16)
    ensures Join16(LowByte(v), HighByte(v)) == v
  {
  }

  /** Joining two bytes and splitting the result gives the same two bytes back. */
  lemma SplitJoin(lo: byte, hi: byte)
    ensures LowByte(Join16(lo, hi)) == lo && HighByte(Join16(lo, hi)) == hi
  {
  }

  /** A positive multiple of s is at least s. */
  lemma {:induction false} MulAtLeast(a: int, s: int)
    requires a >= 1 && s >= 0
    ensures a * s >= s
    decreases a
  {
    if a > 1 {
      MulAtLeast(a - 1, s);
      assert a * s == (a - 1) * s + s;
    }
  }

  /** Quotient and remainder are the only ones with the remainder in range. */
  lemma DivUnique(d: int, s: int, q: int, r: int)
    requires s > 0 && d == q * s + r && 0 <= r < s
    ensures d / s == q && d % s == r
  {
    var q0 := d / s;
    var r0 := d % s;
    assert d == q0 * s + r0;
    if q0 > q {
      MulAtLeast(q0 - q, s);
    } else if q0 < q {
      MulAtLeast(q - q0, s);
    }
  }
}
