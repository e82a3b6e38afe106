/**
 * Go's fixed-width integer types as the driver uses them, and the field
 * decoders the calibration layout is built from. Each decoder is given
 * twice: as its arithmetic meaning (little-endian, two's complement, nibble
 * packing), and as the Go expression the driver evaluates, written with
 * bit-vector operations; the contract of the second ties it to the first.
 */
module Bits {

  /** A register byte (Go `byte`, that is `uint8`) as it travels on the bus. */
  type byte = bv8

  newtype u8 = x: int | 0 <= x < 0x100
  newtype i8 = x: int | -0x80 <= x < 0x80
  newtype u16 = x: int | 0 <= x < 0x1_0000
  newtype i16 = x: int | -0x8000 <= x < 0x8000
  newtype i32 = x: int | -0x8000_0000 <= x < 0x8000_0000

  // Arithmetic meaning of each field.

  /** The unsigned little-endian pair (lo, hi). */
  function Uint16LE(lo: byte, hi: byte): u16
  {
    (hi as int * 0x100 + lo as int) as u16
  }

  /** The two's-complement little-endian pair (lo, hi): negative exactly when the top bit of `hi` is set. */
  function Int16LE(lo: byte, hi: byte): i16
  {
    (hi as int * 0x100 + lo as int - (if hi >= 0x80 then 0x1_0000 else 0)) as i16
  }

  /** Twelve bits: the eight of `msb` above the low nibble of `shared`. */
  function LowNibble12(msb: byte, shared: byte): i16
  {
    (msb as int * 0x10 + shared as int % 0x10) as i16
  }

  /** Twelve bits: the eight of `msb` above the high nibble of `shared`. */
  function HighNibble12(msb: byte, shared: byte): i16
  {
    (msb as int * 0x10 + shared as int / 0x10) as i16
  }

  /** The two's-complement reading of one byte. */
  function Int8Of(b: byte): i8
  {
    (b as int - (if b >= 0x80 then 0x100 else 0)) as i8
  }

  // The Go expressions the driver evaluates.

  /** Widening a byte to sixteen bits keeps its value. */
  lemma ZeroExtend(x: byte)
    ensures (x as bv16) as int == x as int && x as bv16 < 0x100
  {
  }

  /** Shifting a byte left by eight and OR-ing in another byte is adding. */
  lemma ShiftOr8(lo: byte, hi: byte)
    ensures (hi as bv16 << 8) | lo as bv16 == hi as bv16 * 0x100 + lo as bv16
  {
  }

  /** Shifting a byte left by four and OR-ing in a nibble is adding. */
  lemma ShiftOr4(msb: byte, nibble: bv16)
    requires nibble < 0x10
    ensures (msb as bv16 << 4) | nibble == msb as bv16 * 0x10 + nibble
    ensures ((msb as bv16 << 4) | nibble) & 0x8000 == 0
  {
  }

  /** On sixteen bits, `a * 256 + b` does not overflow for bytes `a` and `b`. */
  lemma NoOverflow8(a: bv16, b: bv16)
    requires a < 0x100 && b < 0x100
    ensures (a * 0x100 + b) as int == a as int * 0x100 + b as int
  {
  }

  /** On sixteen bits, `a * 16 + b` does not overflow for a byte `a` and a nibble `b`. */
  lemma NoOverflow4(a: bv16, b: bv16)
    requires a < 0x100 && b < 0x10
    ensures (a * 0x10 + b) as int == a as int * 0x10 + b as int
  {
  }

  /** `msb<<4 | nibble` on sixteen bits is non-negative and is `msb * 16 + nibble`. */
  lemma Nibble12Value(msb: byte, nibble: bv16)
    requires nibble < 0x10
    ensures ((msb as bv16 << 4) | nibble) & 0x8000 == 0
    ensures ((msb as bv16 << 4) | nibble) as int == msb as int * 0x10 + nibble as int
  {
    ShiftOr4(msb, nibble);
    ZeroExtend(msb);
    NoOverflow4(msb as bv16, nibble);
  }

  /** The low nibble of a byte, widened, is its value modulo 16. */
  lemma LowNibbleValue(b: byte)
    ensures 0x0F & b as bv16 < 0x10 && (0x0F & b as bv16) as int == b as int % 0x10
  {
    ZeroExtend(b & 0x0F);
    assert 0x0F & b as bv16 == (b & 0x0F) as bv16;
  }

  /** The high nibble of a byte, widened, is its value divided by 16. */
  lemma HighNibbleValue(b: byte)
    ensures b as bv16 >> 4 < 0x10 && (b as bv16 >> 4) as int == b as int / 0x10
  {
    ZeroExtend(b >> 4);
    assert b as bv16 >> 4 == (b >> 4) as bv16;
  }

  /** Go's `int16(x)` on a 16-bit pattern: the top bit is the sign. */
  function AsInt16(x: bv16): i16
  {
    if x & 0x8000 == 0 then x as int as i16 else (x as int - 0x1_0000) as i16
  }

  /** `hi<<8 | lo` on sixteen bits: `hi` above `lo`, the sign bit the top bit of `hi`. */
  function Join16(lo: byte, hi: byte): (bits: bv16)
    ensures bits as int == hi as int * 0x100 + lo as int
    ensures bits & 0x8000 == 0 <==> hi < 0x80
  {
    ShiftOr8(lo, hi);
    ZeroExtend(lo);
    ZeroExtend(hi);
    NoOverflow8(hi as bv16, lo as bv16);
    (hi as bv16 << 8) | lo as bv16
  }

  /** `uint16(uint16(hi)<<8 | uint16(lo))` */
  function PackUint16(lo: byte, hi: byte): (r: u16)
    ensures r == Uint16LE(lo, hi)
  {
    Join16(lo, hi) as int as u16
  }

  /** `int16(int16(hi)<<8 | int16(lo))` (also `int16(hi)<<8 | int16(lo)`, the same bits) */
  function PackInt16(lo: byte, hi: byte): (r: i16)
    ensures r == Int16LE(lo, hi)
  {
    AsInt16(Join16(lo, hi))
  }

  /** `int16(msb)<<4 | (0x0f & int16(shared))`: nothing sign-extends the result. */
  function PackLowNibble(msb: byte, shared: byte): (r: i16)
    ensures r == LowNibble12(msb, shared)
    ensures 0 <= r < 0x1000
  {
    LowNibbleBits(msb, shared);
    AsInt16((msb as bv16 << 4) | (0x0F & shared as bv16))
  }

  /** The bits of `int16(msb)<<4 | (0x0f & int16(shared))` are non-negative and hold the twelve-bit value. */
  lemma LowNibbleBits(msb: byte, shared: byte)
    ensures ((msb as bv16 << 4) | (0x0F & shared as bv16)) & 0x8000 == 0
    ensures ((msb as bv16 << 4) | (0x0F & shared as bv16)) as int == LowNibble12(msb, shared) as int
  {
    LowNibbleValue(shared);
    Nibble12Value(msb, 0x0F & shared as bv16);
  }

  /** `int16(msb)<<4 | (int16(shared) >> 4)`: nothing sign-extends the result. */
  function PackHighNibble(msb: byte, shared: byte): (r: i16)
    ensures r == HighNibble12(msb, shared)
    ensures 0 <= r < 0x1000
  {
    var bits := (msb as bv16 << 4) | (shared as bv16 >> 4);
    HighNibbleValue(shared);
    Nibble12Value(msb, shared as bv16 >> 4);
    AsInt16(bits)
  }

  /** Go's `int8(b)`: the top bit is the sign. */
  function CastInt8(b: byte): (r: i8)
    ensures r == Int8Of(b)
    ensures r as int % 0x100 == b as int
  {
    assert b & 0x80 == 0 <==> b < 0x80;
    if b & 0x80 == 0 then b as int as i8 else (b as int - 0x100) as i8
  }

  // Inverses: the bytes each field is read back from.

  /**
   * The byte whose value is `n`, built bit by bit: with the built-in
   * conversion `n as bv8` instead, the encoders' round-trip proofs run out
   * of time.
   */
  function ByteOf(n: int): (b: byte)
    requires 0 <= n < 0x100
    ensures b as int == n
    decreases n
  {
    if n == 0 then 0 else ByteOf(n / 2) * 2 + (if n % 2 == 0 then 0 else 1)
  }

  /** Every byte is the byte of its own value. */
  lemma ByteOfValue(b: byte)
    ensures ByteOf(b as int) == b
  {
  }

  /** The pair (lo, hi) that reads back as the unsigned value `v`. */
  function Uint16Bytes(v: u16): (pair: (byte, byte))
    ensures Uint16LE(pair.0, pair.1) == v
  {
    (ByteOf(v as int % 0x100), ByteOf(v as int / 0x100))
  }

  /** A signed pair is its unsigned value, less 2^16 when that is 2^15 or more. */
  lemma SignedOfUnsigned(lo: byte, hi: byte)
    ensures Int16LE(lo, hi) as int ==
      Uint16LE(lo, hi) as int - (if Uint16LE(lo, hi) >= 0x8000 then 0x1_0000 else 0)
  {
  }

  /** The unsigned value with the same sixteen bits as `v`. */
  function Wrap16(v: i16): (u: u16)
    ensures u as int - (if u >= 0x8000 then 0x1_0000 else 0) == v as int
  {
    if v < 0 then (v as int + 0x1_0000) as u16 else v as int as u16
  }

  /** The pair (lo, hi) that reads back as the signed value `v`. */
  function Int16Bytes(v: i16): (pair: (byte, byte))
    ensures Int16LE(pair.0, pair.1) == v
  {
    var pair := Uint16Bytes(Wrap16(v));
    SignedOfUnsigned(pair.0, pair.1);
    pair
  }

  /** The byte that reads back as the signed value `v`. */
  function Int8Byte(v: i8): (b: byte)
    ensures Int8Of(b) == v
  {
    ByteOf(v as int % 0x100)
  }

  /**
   * The three bytes (msb of the low-nibble field, shared byte, msb of the
   * high-nibble field) from which two twelve-bit fields read back.
   */
  function Nibble12Bytes(low: i16, high: i16): (bytes: (byte, byte, byte))
    requires 0 <= low < 0x1000 && 0 <= high < 0x1000
    ensures LowNibble12(bytes.0, bytes.1) == low
    ensures HighNibble12(bytes.2, bytes.1) == high
  {
    var shared := (high as int % 0x10) * 0x10 + low as int % 0x10;
    assert shared % 0x10 == low as int % 0x10 && shared / 0x10 == high as int % 0x10;
    (ByteOf(low as int / 0x10), ByteOf(shared), ByteOf(high as int / 0x10))
  }

  /** Splitting `hi * 256 + lo` into its two bytes gives `lo` and `hi` back. */
  lemma SplitPair(lo: byte, hi: byte, n: int)
    requires n == hi as int * 0x100 + lo as int
    ensures ByteOf(n % 0x100) == lo && ByteOf(n / 0x100) == hi
  {
    assert n % 0x100 == lo as int && n / 0x100 == hi as int;
    ByteOfValue(lo);
    ByteOfValue(hi);
  }

  /** An unsigned pair written back from its value is the same pair. */
  lemma Uint16BytesOf(lo: byte, hi: byte)
    ensures Uint16Bytes(Uint16LE(lo, hi)) == (lo, hi)
  {
    SplitPair(lo, hi, Uint16LE(lo, hi) as int);
  }

  /** A signed pair written back from its value is the same pair. */
  lemma Int16BytesOf(lo: byte, hi: byte)
    ensures Int16Bytes(Int16LE(lo, hi)) == (lo, hi)
  {
    SignedOfUnsigned(lo, hi);
    assert Wrap16(Int16LE(lo, hi)) == Uint16LE(lo, hi);
    Uint16BytesOf(lo, hi);
  }

  /** A signed byte written back from its value is the same byte. */
  lemma Int8ByteOf(b: byte)
    ensures Int8Byte(Int8Of(b)) == b
  {
    assert Int8Of(b) as int % 0x100 == b as int;
    ByteOfValue(b);
  }

  /** Two nibble-packed fields determine all three of their bytes. */
  lemma Nibble12BytesOf(b3: byte, b4: byte, b5: byte)
    ensures Nibble12Bytes(LowNibble12(b3, b4), HighNibble12(b5, b4)) == (b3, b4, b5)
  {
    var low, high := LowNibble12(b3, b4) as int, HighNibble12(b5, b4) as int;
    assert low / 0x10 == b3 as int && high / 0x10 == b5 as int;
    assert (high % 0x10) * 0x10 + low % 0x10 == b4 as int;
    ByteOfValue(b3);
    ByteOfValue(b4);
    ByteOfValue(b5);
  }
}
