# BME280 driver: a verified model of its integer core

This project models the integer core of a Go driver for the Bosch BME280
humidity, pressure and temperature sensor, in `bme280.go`.

- **Control registers.** Sampling options are packed into the bytes written to
  `ctrl_hum` (0xF2), `ctrl_meas` (0xF4) and `config` (0xF5). These are
  described in section 5.4 of the Bosch BME280 datasheet.
- **Setup.** It writes those three bytes in order and stops at the first write
  that fails.
- **Calibration.** It runs once and reads 26 bytes from 0x88 and 7 bytes from
  0xE1. It decodes them into the driver's `dig_T*`, `dig_P*` and `dig_H*`
  fields: little-endian unsigned and two's-complement pairs, two nibble-packed
  humidity fields, and one signed byte. This layout is section 4.2.2 of the
  datasheet.
- **Raw readings.** An 8-byte burst from 0xF7 is assembled into two 20-bit
  values and one 16-bit value.
- **`Read`.** It runs the compensation steps in the order the driver calls
  them.

The project has six modules:

- **`Bits`.** Go's fixed-width integers. Each field decoder appears twice: as
  its arithmetic meaning (`Uint16LE`, `Int16LE`, `LowNibble12`,
  `HighNibble12`, `Int8Of`) and as the Go bit expression the driver evaluates
  (`PackUint16`, `PackInt16`, `PackLowNibble`, `PackHighNibble`, `CastInt8`).
  The contract of the Go expression ties it to its meaning. Each decoder also
  has an encoder, and both round trips are proved.
- **`Options`.** The options record, with its Go `uint` fields as 64-bit
  vectors. It also holds the three control bytes, field recovery, and the
  defaults.
- **`Transport`.** A fake register bus, standing in for the I2C bus. It logs
  every call and answers each call from a script of replies. A missing reply
  is a failure.
- **`Calibration`.** The coefficient records, the decoding of both blocks, the
  encoding back into bytes, and the round trips.
- **`RawData`.** Assembly of the measurement burst and its inverse.
- **`Driver`.** The driver object, a class whose fields mirror the Go struct.

`callibrate` is split into three methods:

- `LoadBlock1` makes the 26-byte buffer, reads it and, on success, runs `DecodeBlock1`.
- `DecodeBlock1` runs `calibrateTemp`, `calibratePres` and the `dig_H1`
  assignment.
- `LoadBlock2` makes the 7-byte buffer, reads it, and runs `calibrateHum`.

The steps are the same as in the Go method.

## Model

| member | source | states |
|---|---|---|
| Options.LowByte | bme280.go:39 | Go's `byte(...)` conversion of a `uint`: the low eight bits of its argument |
| Options.HumidityReg | bme280.go:91 | the `ctrl_hum` byte: `byte(HumidityOverSampling)` |
| Options.MeasureReg | bme280.go:38-40 | the `ctrl_meas` byte: `byte((T << 5) OR (P << 2) OR Mode)`; its meaning is stated by the lemmas below |
| Options.ConfigReg | bme280.go:42-50 | the `config` byte: `byte((TStandby << 5) OR (Filter << 2) OR b)`, with `b` 1 exactly when 3-wire SPI is enabled |
| Options.MeasureFields | bme280.go:38-40 | the inverse of the `ctrl_meas` packing: bits 7..5, 4..2 and 1..0 of the byte |
| Options.ConfigFields | bme280.go:42-50 | the inverse of the `config` packing: bits 7..5, 4..2, and bit 0 as the 3-wire flag |
| Options.LowByteValue | bme280.go:39 | Go's `byte(x)` on a `uint` is `x` modulo 256 |
| Options.HumidityRegValue | bme280.go:91 | the `ctrl_hum` byte is the humidity oversampling setting modulo 256, and exactly that setting when it is below 256 |
| Options.MeasureRegMode | bme280.go:38-40 | whatever the oversampling fields hold, the two low bits of `ctrl_meas` are the low bits of the mode |
| Options.ConfigRegSpi | bme280.go:42-50 | whatever the other fields hold, the two low bits of `config` are 1 exactly when 3-wire SPI is enabled, else 0 |
| Options.MeasureRegFields | bme280.go:38-40 | when T and P are below 8 and Mode is below 4 (nothing is assumed of the `config` fields), `ctrl_meas` is `T*32 + P*4 + Mode`, and shifting and masking it gives back all three fields |
| Options.ConfigRegFields | bme280.go:42-50 | when standby and filter are below 8 (nothing is assumed of the `ctrl_meas` fields), `config` is `standby*32 + filter*4 + spi`, and gives back all three fields |
| Options.MeasureRegOnto | bme280.go:38-40 | every byte is the `ctrl_meas` encoding of the fields it holds (encoding is onto) |
| Options.ConfigRegOnto | bme280.go:42-50 | every byte with bit 1 clear is the `config` encoding of the fields it holds |
| Options.NewOpt | bme280.go:26-36 | the default options fit their bit widths and encode to `ctrl_hum` 0x01, `ctrl_meas` 0x27 and `config` 0xA0 |
| Bits.AsInt16 | bme280.go:104 | Go's `int16(...)` of a sixteen-bit pattern: the pattern's value when the top bit is clear, that value less 65536 when it is set |
| Bits.Join16 | bme280.go:103-104 | `hi<<8` OR `lo` on sixteen bits has the value `hi*256 + lo`, and its sign bit is clear exactly when `hi < 0x80` |
| Bits.PackUint16 | bme280.go:103 | the Go expression `uint16(uint16(hi)<<8 OR uint16(lo))` is the unsigned little-endian value `hi*256 + lo` |
| Bits.PackInt16 | bme280.go:104 | the Go expression `int16(int16(hi)<<8 OR int16(lo))` is the two's-complement little-endian value (`hi*256 + lo`, less 65536 when `hi >= 0x80`) |
| Bits.SignedOfUnsigned | bme280.go:104 | a signed pair is its unsigned value, less 65536 exactly when that is at least 0x8000 |
| Bits.PackLowNibble | bme280.go:127 | `int16(b3)<<4` OR `0x0f & int16(b4)` is `b3*16 + b4 mod 16`, never sign-extended, so it lies in [0, 4096) |
| Bits.LowNibbleBits | bme280.go:127 | the bits of that expression have a clear sign bit and hold the twelve-bit value |
| Bits.PackHighNibble | bme280.go:128 | `int16(b5)<<4` OR `int16(b4) >> 4` is `b5*16 + b4 div 16`, in [0, 4096) |
| Bits.CastInt8 | bme280.go:129 | `int8(b)` is `b - 256` when `b >= 128` and `b` otherwise; it is congruent to `b` modulo 256 |
| Bits.Uint16Bytes | bme280.go:103 | encoder: the pair produced reads back as the given unsigned value |
| Bits.Int16Bytes | bme280.go:104 | encoder: the pair produced reads back as the given signed value |
| Bits.Int8Byte | bme280.go:129 | encoder: the byte produced reads back as the given signed byte |
| Bits.Nibble12Bytes | bme280.go:127-128 | encoder: for two fields in [0, 4096), the three bytes produced read back as both fields |
| Bits.Uint16BytesOf | bme280.go:103 | the unsigned decoding is injective: re-encoding a decoded pair gives the same pair |
| Bits.Int16BytesOf | bme280.go:104 | re-encoding a decoded signed pair gives the same pair |
| Bits.Int8ByteOf | bme280.go:129 | re-encoding a decoded signed byte gives the same byte |
| Bits.Nibble12BytesOf | bme280.go:127-128 | the two nibble-packed fields determine all three bytes they come from |
| Transport.Drop | bme280.go:95 | after `k` calls, the `i`-th reply still to come is the `(k+i)`-th reply of the original script |
| Transport.FirstFailure | bme280.go:94-98 | the number of leading calls, out of `n`, whose replies succeed: every earlier reply is done, and the reply at that index failed when it is below `n` |
| Transport.Fill | bme280.go:145-146 | a read leaves `n` bytes in a freshly zeroed buffer: byte `i` is the reply's byte `i`, or 0 past the reply's end |
| Transport.FakeBus.WriteByteToReg | bme280.go:95 | a write is logged, consumes one reply, and returns that reply's error or nil |
| Transport.FakeBus.ReadFromReg | bme280.go:146 | a read of `buf.Length` bytes is logged and consumes one reply; on success the buffer holds the reply's bytes, on failure it is unchanged and the error is returned |
| Calibration.DecodeTemp | bme280.go:102-108 | `dig_T1` is `b1*256 + b0`; `dig_T2` and `dig_T3` are negative exactly when their high byte (3, 5) is at least 0x80 |
| Calibration.DecodePres | bme280.go:110-122 | `dig_P1` is `b7*256 + b6`; the other eight parameters are the signed pairs at bytes 8-9 through 22-23 |
| Calibration.DecodePresSigns | bme280.go:112-119 | `dig_P2`..`dig_P9` are each negative exactly when the high byte of their pair (9, 11, .., 23) is at least 0x80 |
| Calibration.DecodeHum | bme280.go:124-132 | `dig_H1` is the last byte of the first block, `dig_H3` is byte 2, and `dig_H4` and `dig_H5` lie in [0, 4096) |
| Calibration.Decode | bme280.go:145-163 | the parameters the two blocks hold: temperature and pressure from the first, `dig_H1` from its last byte, the rest of humidity from the second |
| Calibration.WithBlock1 | bme280.go:150-156 | decoding the first block sets `dig_H1` to byte 25 and leaves `dig_H2`..`dig_H6` as they were |
| Calibration.WithBlock2 | bme280.go:157-163 | decoding the second block leaves the temperature and pressure parameters and `dig_H1` as they were |
| Calibration.DecodeInTwoSteps | bme280.go:145-163 | decoding the first block and then the second, from any starting parameters, gives exactly the parameters the two blocks hold |
| Calibration.DecodeEncodeTemp | bme280.go:102-108 | every set of temperature parameters is read back exactly from its six bytes |
| Calibration.DecodeEncodePres | bme280.go:110-122 | every set of pressure parameters is read back exactly from its eighteen bytes |
| Calibration.DecodeEncodeHum | bme280.go:124-132 | humidity parameters whose nibble-packed fields lie in [0, 4096) are read back exactly from their bytes |
| Calibration.DecodeEncode | bme280.go:145-163 | every parameter set whose nibble-packed fields fit is read back exactly from the two blocks it encodes to |
| Calibration.EncodeDecodeTemp | bme280.go:102-108 | decoding loses nothing: bytes 0-5 come back from the temperature parameters |
| Calibration.EncodeDecodePres | bme280.go:110-122 | bytes 6-23 come back from the pressure parameters |
| Calibration.PresPairOf | bme280.go:111-119 | the `k`-th pressure parameter encodes back to the pair at bytes `6+2k` and `7+2k` |
| Calibration.EncodeDecodeHum | bme280.go:124-132 | the seven bytes of the second block come back from the humidity parameters |
| Calibration.EncodeDecodeBlock1 | bme280.go:145-156 | the first block comes back from its parameters, except byte 24 (register 0xA0), which the driver never reads |
| Calibration.EncodeDecode | bme280.go:145-163 | both blocks come back from the decoded parameters, with only byte 24 of the first block lost |
| RawData.Bits20 | bme280.go:251-252 | the thirty-two bits of `(int32(b0)<<12) OR (int32(b1)<<4) OR (int32(b2)>>4)`; its value is given by Bits20Value |
| RawData.Join20Bits | bme280.go:251-252 | the three shifted operands of a 20-bit value do not overlap, so OR-ing them is adding |
| RawData.Bits20Value | bme280.go:251-252 | OR-ing `int32(b0)<<12`, `int32(b1)<<4` and `int32(b2)>>4` has the value `b0*4096 + b1*16 + b2 div 16` |
| RawData.Assemble20 | bme280.go:251-252 | a 20-bit raw value is `b0*4096 + b1*16 + b2 div 16` and lies in [0, 2^20) |
| RawData.Assemble16 | bme280.go:253 | the humidity raw value is `b6*256 + b7` and lies in [0, 65536) |
| RawData.Assemble | bme280.go:251-253 | every burst gives pressure and temperature below 2^20 and humidity below 2^16 |
| RawData.Bytes20 | bme280.go:251-252 | encoder: the three bytes produced assemble back to the 20-bit value, and their unused low nibble is zero |
| RawData.Bytes20Of | bme280.go:251-252 | re-encoding an assembled 20-bit value gives its bytes back, except the unused low nibble of the last one |
| RawData.AssembleBurst | bme280.go:251-253 | every in-range reading is assembled back exactly from its burst |
| RawData.BurstAssemble | bme280.go:251-253 | assembly loses only the low nibbles of bytes 2 and 5: re-encoding gives the burst with those nibbles cleared |
| RawData.AssembleExample | bme280.go:251-253 | a sample burst assembles to pressure 328374, temperature 500444 and humidity 32707 |
| Driver.ControlRegs | bme280.go:91 | the three setup bytes, in order: `byte(HumidityOverSampling)`, `MeasureReg()`, `ConfigReg()` |
| Driver.SetupWrites | bme280.go:90-100 | the setup writes are, in this order, `ctrl_hum` to 0xF2, `ctrl_meas` to 0xF4 and `config` to 0xF5, all on device 0x76 |
| Driver.Writes | bme280.go:91-95 | the `i`-th setup write stores the `i`-th value into the `i`-th control register (0xF2, 0xF4, 0xF5) of device 0x76 |
| Driver.DefaultSetupWrites | bme280.go:90-100 | with the default options, setup writes 0x01 to 0xF2, then 0x27 to 0xF4, then 0xA0 to 0xF5 |
| Driver.BME280.constructor | bme280.go:80 | a new driver holds the bus and options, is not calibrated, and has `tfine` and every parameter zero |
| Driver.BME280.Setup | bme280.go:90-100 | the writes made are the setup writes, in order, up to and including the first failure; the error is that failure's, or nil |
| Driver.BME280.CalibrateTemp | bme280.go:102-108 | `dig_T1` is the unsigned pair at bytes 0-1, and `dig_T2`/`dig_T3` are the signed pairs at 2-3 and 4-5 |
| Driver.BME280.CalibratePres | bme280.go:110-122 | `dig_P1` is the unsigned pair at bytes 6-7, and `dig_P2`..`dig_P9` are the signed pairs at 8-9 through 22-23 |
| Driver.BME280.CalibrateHum | bme280.go:124-132 | `dig_H2` is the signed pair at 0-1, `dig_H3` is byte 2, `dig_H4`/`dig_H5` are the nibble-packed twelve-bit fields, and `dig_H6` is byte 6 read as signed |
| Driver.BME280.DecodeBlock1 | bme280.go:150-156 | the stored parameters become those of the first block, with the humidity parameters other than `dig_H1` kept |
| Driver.BME280.LoadBlock1 | bme280.go:145-156 | the 26-byte read at 0x88 is logged; on failure the error is returned and the parameters are unchanged; on success the buffer holds the reply and the first block is decoded |
| Driver.BME280.LoadBlock2 | bme280.go:157-163 | the 7-byte read at 0xE1 is logged; on failure the error is returned and the parameters are unchanged; on success the second block is decoded |
| Driver.BME280.Callibrate | bme280.go:134-168 | when already calibrated: nil, with no bus calls and nothing changed. Otherwise it reads 26 bytes at 0x88 and then 7 at 0xE1, stopping at a failure. Either failure returns its error and leaves the driver uncalibrated; after a second-read failure the first block's parameters are already stored. Full success sets `calibrated` and stores the parameters decoded from both blocks |
| Driver.BME280.Read | bme280.go:246-262 | one 8-byte read at 0xF7. On failure it returns the error and leaves `tfine` alone. Otherwise temperature is compensated first from the raw value with `tfine` reset; its fine temperature is stored in `tfine` and given to pressure and humidity; the result is `[temperature, pressure, humidity]` |
| Driver.BME280.New | bme280.go:79-88 | no driver exactly when an error is returned. A failed setup write returns that write's error, stops before any read, and leaves the replies after it. Otherwise the setup writes come first, then the calibration reads; a failed first or second read returns that read's error, and a driver exists exactly when both reads succeed; it is calibrated with the decoded parameters |

## Left out

- Floating-point compensation (`compensateTemp`, `compensatePres`, `compensateHum`, bme280.go:170-244) is not modelled. `Read` takes the three steps as function parameters. The temperature step returns its result and the `int32` fine temperature; its float arithmetic, including the `int32(tfine)` truncation, is inside that parameter.
- The `sync.RWMutex` in `callibrate` is not modelled; the model is single-threaded. The code checks `calibrated` under the read lock (bme280.go:135-140), then takes the write lock and reads both blocks without checking `calibrated` again (bme280.go:142-146). Observation, not executed: two callers that both pass the first check would each read and decode both blocks, one after the other, so under concurrent first use the calibration reads are not made only once.
- The `embd.I2CBus` transport is a foreign library. The fake bus in `Transport` replaces it. Bus errors are opaque values that are passed back unchanged.
- The driver holds its options by value. The Go struct holds a pointer, but the driver never writes through it, so aliasing is not modelled.
- `calibrateTemp`, `calibratePres` and `calibrateHum` always return nil in the source. The model's methods return nothing, so the error checks after them in `callibrate` (bme280.go:150-155, 161-163) are not modelled; they can never fire.
- The Go `uint` option fields are modelled as 64 bits. On a 32-bit platform they are 32 bits, but `byte(...)` keeps the same low eight bits either way.
- `dig_H4` and `dig_H5` are decoded as the code does it (bme280.go:127-128): the high byte is never sign-extended, so both values lie in [0, 4096). A description of this layout as signed twelve-bit values would disagree with the code; the model follows the code.
- Driver.BME280.Callibrate: as in the code, a failed second read leaves the temperature, pressure and `dig_H1` parameters overwritten. A description of a failed calibration as leaving every parameter untouched would disagree with the code. The model states the overwritten state and keeps only the `calibrated` flag false.
