/**
 * The factory trimming parameters of one sensor and their layout in the two
 * register blocks that hold them (section 4.2.2 of the Bosch BME280
 * datasheet): 26 bytes from 0x88 (temperature, pressure, and `dig_H1` in the
 * last byte; the byte at 0xA0 is not used) and 7 bytes from 0xE1 (the other
 * humidity parameters, two of them nibble-packed).
 */
module Calibration {
  import opened Bits

  const Block1Register: byte := 0x88
  const Block1Length: nat := 26
  const Block2Register: byte := 0xE1
  const Block2Length: nat := 7

  /** Offset of `dig_H1` in the first block (register 0xA1). */
  const H1Offset: nat := 25

  datatype TempCoefficients = TempCoefficients(digT1: u16, digT2: i16, digT3: i16)

  datatype PresCoefficients = PresCoefficients(
    digP1: u16, digP2: i16, digP3: i16, digP4: i16, digP5: i16,
    digP6: i16, digP7: i16, digP8: i16, digP9: i16)

  datatype HumCoefficients = HumCoefficients(
    digH1: u8, digH2: i16, digH3: u8, digH4: i16, digH5: i16, digH6: i8)

  /** The decoded parameters, with the widths and signedness the driver stores them in. */
  datatype Coefficients = Coefficients(temp: TempCoefficients, pres: PresCoefficients, hum: HumCoefficients)

  /** Every parameter zero: what a driver holds before it is calibrated. */
  const Zero := Coefficients(
    TempCoefficients(0, 0, 0),
    PresCoefficients(0, 0, 0, 0, 0, 0, 0, 0, 0),
    HumCoefficients(0, 0, 0, 0, 0, 0))

  /**
   * The temperature parameters, from the first six bytes: three little-endian
   * pairs, the first unsigned, the other two two's complement.
   */
  function DecodeTemp(block1: seq<byte>): (t: TempCoefficients)
    requires |block1| >= 6
    ensures t.digT1 as int == block1[1] as int * 0x100 + block1[0] as int
    ensures t.digT2 < 0 <==> block1[3] >= 0x80
    ensures t.digT3 < 0 <==> block1[5] >= 0x80
  {
    TempCoefficients(
      digT1 := Uint16LE(block1[0], block1[1]),
      digT2 := Int16LE(block1[2], block1[3]),
      digT3 := Int16LE(block1[4], block1[5]))
  }

  /**
   * The pressure parameters, from bytes 6 to 23: nine little-endian pairs,
   * the first unsigned, the other eight two's complement.
   */
  function DecodePres(block1: seq<byte>): (p: PresCoefficients)
    requires |block1| >= 24
    ensures p.digP1 as int == block1[7] as int * 0x100 + block1[6] as int
  {
    PresCoefficients(
      digP1 := Uint16LE(block1[6], block1[7]),
      digP2 := Int16LE(block1[8], block1[9]),
      digP3 := Int16LE(block1[10], block1[11]),
      digP4 := Int16LE(block1[12], block1[13]),
      digP5 := Int16LE(block1[14], block1[15]),
      digP6 := Int16LE(block1[16], block1[17]),
      digP7 := Int16LE(block1[18], block1[19]),
      digP8 := Int16LE(block1[20], block1[21]),
      digP9 := Int16LE(block1[22], block1[23]))
  }

  /**
   * The humidity parameters: `dig_H1` is the unsigned byte `h1` (the last
   * byte of the first block); from the second block, `dig_H2` is a
   * two's-complement pair, `dig_H3` an unsigned byte, `dig_H4` and `dig_H5`
   * share byte 4 (low nibble to `dig_H4`, high nibble to `dig_H5`) and are
   * never sign-extended, `dig_H6` is a signed byte.
   */
  function DecodeHum(h1: byte, block2: seq<byte>): (h: HumCoefficients)
    requires |block2| >= 7
    ensures h.digH1 as int == h1 as int && h.digH3 as int == block2[2] as int
    ensures 0 <= h.digH4 < 0x1000 && 0 <= h.digH5 < 0x1000
  {
    HumCoefficients(
      digH1 := h1 as int as u8,
      digH2 := Int16LE(block2[0], block2[1]),
      digH3 := block2[2] as int as u8,
      digH4 := LowNibble12(block2[3], block2[4]),
      digH5 := HighNibble12(block2[5], block2[4]),
      digH6 := Int8Of(block2[6]))
  }

  /** The parameters held by the two blocks. */
  function Decode(block1: seq<byte>, block2: seq<byte>): Coefficients
    requires |block1| == Block1Length && |block2| == Block2Length
  {
    Coefficients(DecodeTemp(block1), DecodePres(block1), DecodeHum(block1[H1Offset], block2))
  }

  /**
   * The parameters after the first block is decoded into `c`: temperature,
   * pressure and `dig_H1` from the block, the other humidity parameters kept.
   */
  function WithBlock1(c: Coefficients, block1: seq<byte>): (d: Coefficients)
    requires |block1| == Block1Length
    ensures d.hum.digH2 == c.hum.digH2 && d.hum.digH3 == c.hum.digH3 && d.hum.digH6 == c.hum.digH6
    ensures d.hum.digH4 == c.hum.digH4 && d.hum.digH5 == c.hum.digH5
    ensures d.hum.digH1 as int == block1[H1Offset] as int
  {
    Coefficients(DecodeTemp(block1), DecodePres(block1), c.hum.(digH1 := block1[H1Offset] as int as u8))
  }

  /** The parameters after the second block is decoded into `c`, `dig_H1` kept. */
  function WithBlock2(c: Coefficients, block2: seq<byte>): (d: Coefficients)
    requires |block2| == Block2Length
    ensures d.temp == c.temp && d.pres == c.pres && d.hum.digH1 == c.hum.digH1
  {
    c.(hum := DecodeHum(ByteOf(c.hum.digH1 as int), block2))
  }

  /** Decoding the first block and then the second, from any start, gives the parameters both hold. */
  lemma DecodeInTwoSteps(c: Coefficients, block1: seq<byte>, block2: seq<byte>)
    requires |block1| == Block1Length && |block2| == Block2Length
    ensures WithBlock2(WithBlock1(c, block1), block2) == Decode(block1, block2)
  {
    ByteOfValue(block1[H1Offset]);
  }

  /** The two nibble-packed fields lie in the twelve bits they are built from. */
  predicate NibbleFieldsFit(h: HumCoefficients)
  {
    0 <= h.digH4 < 0x1000 && 0 <= h.digH5 < 0x1000
  }

  /** The six bytes that hold temperature parameters `t`. */
  function EncodeTemp(t: TempCoefficients): (bytes: seq<byte>)
    ensures |bytes| == 6
  {
    var t1, t2, t3 := Uint16Bytes(t.digT1), Int16Bytes(t.digT2), Int16Bytes(t.digT3);
    [t1.0, t1.1, t2.0, t2.1, t3.0, t3.1]
  }

  /** The `k`-th signed pressure parameter, `dig_P(k+1)`, for `k` from 1 to 8. */
  function SignedPres(p: PresCoefficients, k: nat): i16
    requires 1 <= k < 9
  {
    match k
    case 1 => p.digP2
    case 2 => p.digP3
    case 3 => p.digP4
    case 4 => p.digP5
    case 5 => p.digP6
    case 6 => p.digP7
    case 7 => p.digP8
    case 8 => p.digP9
  }

  /** The little-endian pair that holds the `k`-th pressure parameter. */
  function PresPair(p: PresCoefficients, k: nat): (byte, byte)
    requires k < 9
  {
    if k == 0 then Uint16Bytes(p.digP1) else Int16Bytes(SignedPres(p, k))
  }

  /** The eighteen bytes that hold pressure parameters `p`. */
  function EncodePres(p: PresCoefficients): (bytes: seq<byte>)
    ensures |bytes| == 18
  {
    seq(18, i requires 0 <= i < 18 => if i % 2 == 0 then PresPair(p, i / 2).0 else PresPair(p, i / 2).1)
  }

  /** The seven bytes of the second block that hold humidity parameters `h` (all but `dig_H1`). */
  function EncodeHum(h: HumCoefficients): (bytes: seq<byte>)
    requires NibbleFieldsFit(h)
    ensures |bytes| == Block2Length
  {
    var h2, h45 := Int16Bytes(h.digH2), Nibble12Bytes(h.digH4, h.digH5);
    [h2.0, h2.1, ByteOf(h.digH3 as int), h45.0, h45.1, h45.2, Int8Byte(h.digH6)]
  }

  /** The two blocks a sensor with parameters `c` holds; the unused byte at 0xA0 is written as zero. */
  function Encode(c: Coefficients): (blocks: (seq<byte>, seq<byte>))
    requires NibbleFieldsFit(c.hum)
    ensures |blocks.0| == Block1Length && |blocks.1| == Block2Length
  {
    (EncodeTemp(c.temp) + EncodePres(c.pres) + [0, ByteOf(c.hum.digH1 as int)], EncodeHum(c.hum))
  }

  /** Temperature parameters are read back exactly from their bytes. */
  lemma DecodeEncodeTemp(t: TempCoefficients)
    ensures DecodeTemp(EncodeTemp(t)) == t
  {
  }

  /** Pressure parameters are read back exactly from their bytes. */
  lemma DecodeEncodePres(p: PresCoefficients, prefix: seq<byte>)
    requires |prefix| == 6
    ensures DecodePres(prefix + EncodePres(p)) == p
  {
  }

  /** Humidity parameters whose nibble-packed fields fit are read back exactly from their bytes. */
  lemma DecodeEncodeHum(h: HumCoefficients)
    requires NibbleFieldsFit(h)
    ensures DecodeHum(ByteOf(h.digH1 as int), EncodeHum(h)) == h
  {
  }

  /** Every coefficient set whose nibble-packed fields fit is read back exactly from its blocks. */
  lemma DecodeEncode(c: Coefficients)
    requires NibbleFieldsFit(c.hum)
    ensures Decode(Encode(c).0, Encode(c).1) == c
  {
    var (block1, block2) := Encode(c);
    assert block1[..6] == EncodeTemp(c.temp);
    DecodeEncodeTemp(c.temp);
    assert DecodeTemp(block1) == DecodeTemp(block1[..6]);
    assert block1[..24] == block1[..6] + EncodePres(c.pres);
    DecodeEncodePres(c.pres, block1[..6]);
    assert DecodePres(block1) == DecodePres(block1[..24]);
    DecodeEncodeHum(c.hum);
  }

  lemma EncodeDecodeTemp(block1: seq<byte>)
    requires |block1| >= 6
    ensures EncodeTemp(DecodeTemp(block1)) == block1[..6]
  {
    Uint16BytesOf(block1[0], block1[1]);
    Int16BytesOf(block1[2], block1[3]);
    Int16BytesOf(block1[4], block1[5]);
  }

  /** The `k`-th pressure pair is read back from the parameter it decodes to. */
  lemma PresPairOf(block1: seq<byte>, k: nat)
    requires |block1| >= 24 && k < 9
    ensures PresPair(DecodePres(block1), k) == (block1[6 + 2 * k], block1[7 + 2 * k])
  {
    if k == 0 {
      Uint16BytesOf(block1[6], block1[7]);
    } else {
      SignedPresOf(block1, k);
      Int16BytesOf(block1[6 + 2 * k], block1[7 + 2 * k]);
    }
  }

  /** The `k`-th signed pressure parameter is decoded from the pair at `6 + 2k`. */
  lemma SignedPresOf(block1: seq<byte>, k: nat)
    requires |block1| >= 24 && 1 <= k < 9
    ensures SignedPres(DecodePres(block1), k) == Int16LE(block1[6 + 2 * k], block1[7 + 2 * k])
  {
  }

  /**
   * `dig_P2`..`dig_P9` are two's complement: each is negative exactly when
   * the high byte of its pair is at least 0x80.
   */
  lemma DecodePresSigns(block1: seq<byte>)
    requires |block1| >= 24
    ensures forall k :: 1 <= k < 9 ==> (SignedPres(DecodePres(block1), k) < 0 <==> block1[7 + 2 * k] >= 0x80)
  {
    forall k | 1 <= k < 9
      ensures SignedPres(DecodePres(block1), k) < 0 <==> block1[7 + 2 * k] >= 0x80
    {
      SignedPresOf(block1, k);
    }
  }

  /** Byte `2k + r` of the encoded pressure parameters is byte `r` of the `k`-th pair. */
  lemma EncodePresAt(p: PresCoefficients, k: nat, r: nat)
    requires k < 9 && r < 2
    ensures EncodePres(p)[2 * k + r] == if r == 0 then PresPair(p, k).0 else PresPair(p, k).1
  {
    assert (2 * k + r) / 2 == k && (2 * k + r) % 2 == r;
  }

  /** Byte `2k + r` of the re-encoded pressure parameters is byte `6 + 2k + r` of the block. */
  lemma PresByteOf(block1: seq<byte>, k: nat, r: nat)
    requires |block1| >= 24 && k < 9 && r < 2
    ensures EncodePres(DecodePres(block1))[2 * k + r] == block1[6 + 2 * k + r]
  {
    EncodePresAt(DecodePres(block1), k, r);
    PresPairOf(block1, k);
  }

  /** Bytes 6 to 23 are read back from the pressure parameters they decode to. */
  lemma EncodeDecodePres(block1: seq<byte>)
    requires |block1| >= 24
    ensures EncodePres(DecodePres(block1)) == block1[6..24]
  {
    forall i | 0 <= i < 18
      ensures EncodePres(DecodePres(block1))[i] == block1[6..24][i]
    {
      PresByteOf(block1, i / 2, i % 2);
    }
  }

  /** The second block is read back from the humidity parameters it decodes to. */
  lemma EncodeDecodeHum(h1: byte, block2: seq<byte>)
    requires |block2| == Block2Length
    ensures EncodeHum(DecodeHum(h1, block2)) == block2
  {
    Int16BytesOf(block2[0], block2[1]);
    ByteOfValue(block2[2]);
    Nibble12BytesOf(block2[3], block2[4], block2[5]);
    Int8ByteOf(block2[6]);
  }

  /**
   * Decoding loses nothing but the unused byte: encoding the decoded
   * parameters gives the blocks back, with 0xA0 cleared.
   */
  lemma EncodeDecode(block1: seq<byte>, block2: seq<byte>)
    requires |block1| == Block1Length && |block2| == Block2Length
    ensures Encode(Decode(block1, block2)) == (block1[24 := 0], block2)
  {
    var c := Decode(block1, block2);
    ByteOfValue(block1[H1Offset]);
    EncodeDecodeBlock1(block1);
    EncodeDecodeHum(block1[H1Offset], block2);
  }

  /** The bytes re-encoded from the first block's parameters are that block, with 0xA0 zeroed. */
  lemma EncodeDecodeBlock1(block1: seq<byte>)
    requires |block1| == Block1Length
    ensures EncodeTemp(DecodeTemp(block1)) + EncodePres(DecodePres(block1)) + [0, block1[H1Offset]]
         == block1[24 := 0]
  {
    EncodeDecodeTemp(block1);
    EncodeDecodePres(block1);
    var b1 := EncodeTemp(DecodeTemp(block1)) + EncodePres(DecodePres(block1)) + [0, block1[H1Offset]];
    forall i | 0 <= i < Block1Length
      ensures b1[i] == block1[24 := 0][i]
    {
      if i < 6 {
        assert b1[i] == block1[..6][i];
      } else if i < 24 {
        assert b1[i] == block1[6..24][i - 6];
      }
    }
  }
}
