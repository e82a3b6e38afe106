/**
 * The measurement burst: eight bytes read from 0xF7 (`press_msb`,
 * `press_lsb`, `press_xlsb`, `temp_msb`, `temp_lsb`, `temp_xlsb`,
 * `hum_msb`, `hum_lsb`), assembled into two 20-bit and one 16-bit
 * unsigned ADC value. Only the high nibble of each `xlsb` byte is data.
 */
module RawData {
  import opened Bits

  const DataRegister: byte := 0xF7
  const BurstLength: nat := 8

  /** The three raw ADC values, held in Go `int32`s. */
  datatype RawReading = RawReading(pres: i32, temp: i32, hum: i32)

  /** True when each value fits the width the sensor reports it in. */
  predicate InRange(r: RawReading)
  {
    0 <= r.pres < 0x10_0000 && 0 <= r.temp < 0x10_0000 && 0 <= r.hum < 0x1_0000
  }

  /** Widening a byte to thirty-two bits keeps its value. */
  lemma ZeroExtend32(x: byte)
    ensures (x as bv32) as int == x as int && x as bv32 < 0x100
  {
  }

  /** The three shifted fields of a 20-bit value do not overlap, so OR-ing them is adding. */
  lemma Join20Bits(msb: byte, lsb: byte, xlsb: byte)
    ensures Bits20(msb, lsb, xlsb)
         == msb as bv32 * 0x1000 + (lsb as bv32 * 0x10 + (xlsb >> 4) as bv32)
  {
  }

  /** On thirty-two bits, `b * 16 + c` does not overflow for a byte `b` and a nibble `c`. */
  lemma NoOverflowNibble(b: bv32, c: bv32)
    requires b < 0x100 && c < 0x10
    ensures (b * 0x10 + c) as int == b as int * 0x10 + c as int
  {
  }

  /** On thirty-two bits, `a * 4096 + d` does not overflow for a byte `a` and a 12-bit `d`. */
  lemma NoOverflow12(a: bv32, d: bv32)
    requires a < 0x100 && d < 0x1000
    ensures (a * 0x1000 + d) as int == a as int * 0x1000 + d as int
  {
  }

  /** The two shifted fields of a 16-bit value do not overlap, so OR-ing them is adding. */
  lemma Join16Bits(msb: byte, lsb: byte)
    ensures (msb as bv32 << 8) | lsb as bv32 == msb as bv32 * 0x100 + lsb as bv32
  {
  }

  /** On thirty-two bits, `a * 256 + b` does not overflow for bytes `a` and `b`. */
  lemma NoOverflow16(a: bv32, b: bv32)
    requires a < 0x100 && b < 0x100
    ensures (a * 0x100 + b) as int == a as int * 0x100 + b as int
  {
  }

  /** Shifting a byte right by four leaves its high nibble, its value divided by sixteen. */
  lemma HighNibbleValue8(x: byte)
    ensures x >> 4 < 0x10 && (x >> 4) as int == x as int / 0x10
  {
  }

  /** A byte above a nibble, on thirty-two bits, is below 4096 and has the value of the two in place. */
  lemma PlaceNibble(x: bv32, high: bv32, low: bv32, highValue: int, lowValue: int)
    requires x == high * 0x10 + low && high < 0x100 && low < 0x10
    requires high as int == highValue && low as int == lowValue
    ensures x < 0x1000 && x as int == highValue * 0x10 + lowValue
  {
    NoOverflowNibble(high, low);
  }

  /** The low twelve bits of a 20-bit value: `lsb` above the high nibble of `xlsb`. */
  lemma LowTwelve(lsb: byte, xlsb: byte)
    ensures lsb as bv32 * 0x10 + (xlsb >> 4) as bv32 < 0x1000
    ensures (lsb as bv32 * 0x10 + (xlsb >> 4) as bv32) as int == lsb as int * 0x10 + xlsb as int / 0x10
  {
    var n := xlsb >> 4;
    HighNibbleValue8(xlsb);
    ZeroExtend32(lsb);
    ZeroExtend32(n);
    PlaceNibble(lsb as bv32 * 0x10 + n as bv32, lsb as bv32, n as bv32, lsb as int, xlsb as int / 0x10);
  }

  /** `(int32(msb) << 12) | (int32(lsb) << 4) | (int32(xlsb) >> 4)`, as thirty-two bits. */
  function Bits20(msb: byte, lsb: byte, xlsb: byte): bv32
  {
    (msb as bv32 << 12) | (lsb as bv32 << 4) | (xlsb as bv32 >> 4)
  }

  /** The bits assembled from a 20-bit field have the value of its three parts in place. */
  lemma Bits20Value(msb: byte, lsb: byte, xlsb: byte)
    ensures Bits20(msb, lsb, xlsb) as int == msb as int * 0x1000 + lsb as int * 0x10 + xlsb as int / 0x10
  {
    Join20Bits(msb, lsb, xlsb);
    LowTwelve(lsb, xlsb);
    ZeroExtend32(msb);
    PlaceValue(Bits20(msb, lsb, xlsb), msb as bv32, lsb as bv32 * 0x10 + (xlsb >> 4) as bv32,
               msb as int, lsb as int * 0x10 + xlsb as int / 0x10);
  }

  /** A value made of a byte above twelve low bits has the value of the two in place. */
  lemma PlaceValue(x: bv32, high: bv32, low: bv32, highValue: int, lowValue: int)
    requires x == high * 0x1000 + low && high < 0x100 && low < 0x1000
    requires high as int == highValue && low as int == lowValue
    ensures x as int == highValue * 0x1000 + lowValue
  {
    NoOverflow12(high, low);
  }

  /** The 20-bit value of three bytes, `msb` and `lsb` above the high nibble of `xlsb`. */
  function Assemble20(msb: byte, lsb: byte, xlsb: byte): (r: i32)
    ensures r as int == msb as int * 0x1000 + lsb as int * 0x10 + xlsb as int / 0x10
    ensures 0 <= r < 0x10_0000
  {
    Bits20Value(msb, lsb, xlsb);
    Bits20(msb, lsb, xlsb) as int as i32
  }

  /** `(int32(msb) << 8) | int32(lsb)`: a 16-bit value, big-endian. */
  function Assemble16(msb: byte, lsb: byte): (r: i32)
    ensures r as int == msb as int * 0x100 + lsb as int
    ensures 0 <= r < 0x1_0000
  {
    Join16Bits(msb, lsb);
    ZeroExtend32(msb);
    ZeroExtend32(lsb);
    NoOverflow16(msb as bv32, lsb as bv32);
    ((msb as bv32 << 8) | lsb as bv32) as int as i32
  }

  /** The raw values a burst holds: pressure from bytes 0-2, temperature from 3-5, humidity from 6-7. */
  function Assemble(data: seq<byte>): (r: RawReading)
    requires |data| == BurstLength
    ensures InRange(r)
  {
    RawReading(
      pres := Assemble20(data[0], data[1], data[2]),
      temp := Assemble20(data[3], data[4], data[5]),
      hum := Assemble16(data[6], data[7]))
  }

  /** The three bytes that hold a 20-bit value; the unused low nibble of the last is zero. */
  function Bytes20(v: i32): (bytes: (byte, byte, byte))
    requires 0 <= v < 0x10_0000
    ensures Assemble20(bytes.0, bytes.1, bytes.2) == v
    ensures bytes.2 & 0x0F == 0
  {
    var top, nibble := v as int / 0x10, v as int % 0x10;
    var msb, lsb, xlsb := ByteOf(top / 0x100), ByteOf(top % 0x100), ByteOf(nibble * 0x10);
    assert msb as int * 0x100 + lsb as int == top;
    assert xlsb as int / 0x10 == nibble && xlsb as int % 0x10 == 0;
    assert msb as int * 0x1000 + lsb as int * 0x10 + xlsb as int / 0x10 == v as int;
    LowNibbleZero(xlsb);
    (msb, lsb, xlsb)
  }

  /** A byte whose value is a multiple of 16 has a zero low nibble, and back. */
  lemma LowNibbleZero(b: byte)
    ensures b & 0x0F == 0 <==> b as int % 0x10 == 0
  {
  }

  /** The burst a sensor reporting `r` returns; unused low nibbles are zero. */
  function Burst(r: RawReading): (data: seq<byte>)
    requires InRange(r)
    ensures |data| == BurstLength
  {
    var p, t := Bytes20(r.pres), Bytes20(r.temp);
    [p.0, p.1, p.2, t.0, t.1, t.2, ByteOf(r.hum as int / 0x100), ByteOf(r.hum as int % 0x100)]
  }

  /** Every in-range reading is assembled back exactly from its burst. */
  lemma AssembleBurst(r: RawReading)
    requires InRange(r)
    ensures Assemble(Burst(r)) == r
  {
    var data := Burst(r);
    assert Assemble20(data[0], data[1], data[2]) == r.pres;
    assert Assemble20(data[3], data[4], data[5]) == r.temp;
    assert Assemble16(data[6], data[7]) == r.hum;
  }

  /** The byte with the low nibble of `b` cleared. */
  function HighNibbleOnly(b: byte): (c: byte)
    ensures c as int == b as int / 0x10 * 0x10
  {
    LowNibbleZero(b & 0xF0);
    assert (b & 0xF0) >> 4 == b >> 4;
    b & 0xF0
  }

  /** The three bytes of a 20-bit field come back from its value, but for the unused nibble. */
  lemma Bytes20Of(msb: byte, lsb: byte, xlsb: byte)
    ensures Bytes20(Assemble20(msb, lsb, xlsb)) == (msb, lsb, HighNibbleOnly(xlsb))
  {
    var v := Assemble20(msb, lsb, xlsb);
    var top := msb as int * 0x100 + lsb as int;
    DivideNibble(v as int, top, xlsb as int / 0x10);
    SplitPair(lsb, msb, top);
    var cleared := HighNibbleOnly(xlsb);
    ByteOfValue(cleared);
    Bytes20Parts(v);
  }

  /** The bytes of a 20-bit value are its upper byte, its middle byte, and its nibble moved up. */
  lemma Bytes20Parts(v: i32)
    requires 0 <= v < 0x10_0000
    ensures Bytes20(v) == (ByteOf(v as int / 0x10 / 0x100), ByteOf(v as int / 0x10 % 0x100), ByteOf(v as int % 0x10 * 0x10))
  {
  }

  /** Dividing `top * 16 + n` by 16, for a nibble `n`, gives back `top` and `n`. */
  lemma DivideNibble(v: int, top: int, n: int)
    requires v == top * 0x10 + n && 0 <= n < 0x10
    ensures v / 0x10 == top && v % 0x10 == n
  {
  }

  /**
   * Assembling loses only the unused low nibbles of the two `xlsb` bytes:
   * the burst of the assembled reading is the input with those cleared.
   */
  lemma BurstAssemble(data: seq<byte>)
    requires |data| == BurstLength
    ensures Burst(Assemble(data)) == data[2 := HighNibbleOnly(data[2])][5 := HighNibbleOnly(data[5])]
  {
    Bytes20Of(data[0], data[1], data[2]);
    Bytes20Of(data[3], data[4], data[5]);
    SplitPair(data[7], data[6], Assemble16(data[6], data[7]) as int);
  }

  /** A sample burst and the raw values it assembles to. */
  lemma AssembleExample()
    ensures Assemble([0x50, 0x2B, 0x60, 0x7A, 0x2D, 0xC0, 0x7F, 0xC3]) == RawReading(328374, 500444, 32707)
  {
  }
}
