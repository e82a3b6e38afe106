/**
 * User-facing sampling options and the three control-register bytes they
 * encode to (`ctrl_hum` at 0xF2, `ctrl_meas` at 0xF4, `config` at 0xF5,
 * section 5.4 of the Bosch BME280 datasheet).
 */
module Options {
  import opened Bits

  /**
   * The options record. Each field is a Go `uint`, modelled as 64 bits;
   * nothing clamps a field to its register width, and the final `byte(...)`
   * conversion keeps the low eight bits of whatever the shifts produce.
   */
  datatype Opt = Opt(
    temperatureOverSampling: bv64,
    pressureOverSampling: bv64,
    humidityOverSampling: bv64,
    mode: bv64,
    tStandby: bv64,
    filter: bv64,
    spi3wEnable: bool)

  /** True when the fields packed into `ctrl_meas` fit their bits. */
  predicate MeasureFieldsFit(o: Opt)
  {
    o.temperatureOverSampling < 8 && o.pressureOverSampling < 8 && o.mode < 4
  }

  /** True when the fields packed into `config` fit their bits. */
  predicate ConfigFieldsFit(o: Opt)
  {
    o.tStandby < 8 && o.filter < 8
  }

  /** True when every field fits the bits the datasheet gives it. */
  predicate FieldsFit(o: Opt)
  {
    MeasureFieldsFit(o) && ConfigFieldsFit(o)
  }

  /** Go's `byte(x)` on a `uint`: the low eight bits. */
  function LowByte(x: bv64): byte
  {
    (x & 0xFF) as bv8
  }

  /** `byte(x)` is `x` modulo 256. */
  lemma LowByteValue(x: bv64)
    ensures LowByte(x) as bv64 == x % 0x100
  {
  }

  /** The `ctrl_hum` byte: the humidity oversampling setting, truncated to a byte. */
  function HumidityReg(o: Opt): byte
  {
    LowByte(o.humidityOverSampling)
  }

  /** A humidity setting below 256 is written as it is; a larger one loses its high bits. */
  lemma HumidityRegValue(o: Opt)
    ensures HumidityReg(o) as bv64 == o.humidityOverSampling % 0x100
    ensures o.humidityOverSampling < 0x100 ==> HumidityReg(o) as int == o.humidityOverSampling as int
  {
    LowByteValue(o.humidityOverSampling);
  }

  /**
   * The `ctrl_meas` byte: temperature oversampling in bits 7..5, pressure
   * oversampling in bits 4..2, mode in bits 1..0.
   */
  function MeasureReg(o: Opt): byte
  {
    LowByte((o.temperatureOverSampling << 5) | (o.pressureOverSampling << 2) | o.mode)
  }

  /**
   * The `config` byte: standby selector in bits 7..5, IIR filter selector in
   * bits 4..2, bit 0 set exactly when the 3-wire SPI interface is enabled.
   */
  function ConfigReg(o: Opt): byte
  {
    var spi3wEnable: bv64 := if o.spi3wEnable then 1 else 0;
    LowByte((o.tStandby << 5) | (o.filter << 2) | spi3wEnable)
  }

  /** The (temperature oversampling, pressure oversampling, mode) fields a `ctrl_meas` byte holds. */
  function MeasureFields(r: byte): (bv64, bv64, bv64)
  {
    ((r >> 5) as bv64, ((r >> 2) & 7) as bv64, (r & 3) as bv64)
  }

  /** The (standby, filter, 3-wire enable) fields a `config` byte holds; bit 1 is unused. */
  function ConfigFields(r: byte): (bv64, bv64, bool)
  {
    ((r >> 5) as bv64, ((r >> 2) & 7) as bv64, r & 1 == 1)
  }

  /** Whatever the other fields hold, the two low bits of `ctrl_meas` are those of the mode. */
  lemma MeasureRegMode(o: Opt)
    ensures MeasureReg(o) & 3 == LowByte(o.mode) & 3
  {
  }

  /** Whatever the other fields hold, the two low bits of `config` are the 3-wire SPI flag. */
  lemma ConfigRegSpi(o: Opt)
    ensures ConfigReg(o) & 3 == (if o.spi3wEnable then 1 else 0)
  {
  }

  /**
   * When its three fields fit their bits, `ctrl_meas` is their packed value and
   * gives each of them back.
   */
  lemma MeasureRegFields(o: Opt)
    requires MeasureFieldsFit(o)
    ensures MeasureReg(o) as int ==
      o.temperatureOverSampling as int * 32 + o.pressureOverSampling as int * 4 + o.mode as int
    ensures MeasureFields(MeasureReg(o)) == (o.temperatureOverSampling, o.pressureOverSampling, o.mode)
  {
  }

  /**
   * When standby and filter fit their bits, `config` is their packed value and
   * gives each of them back.
   */
  lemma ConfigRegFields(o: Opt)
    requires ConfigFieldsFit(o)
    ensures ConfigReg(o) as int == o.tStandby as int * 32 + o.filter as int * 4 + (if o.spi3wEnable then 1 else 0)
    ensures ConfigFields(ConfigReg(o)) == (o.tStandby, o.filter, o.spi3wEnable)
  {
  }

  /** Every `ctrl_meas` byte is the encoding of the fields it holds. */
  lemma MeasureRegOnto(r: byte, o: Opt)
    requires (o.temperatureOverSampling, o.pressureOverSampling, o.mode) == MeasureFields(r)
    ensures MeasureReg(o) == r
  {
  }

  /** Every `config` byte with bit 1 clear is the encoding of the fields it holds. */
  lemma ConfigRegOnto(r: byte, o: Opt)
    requires r & 2 == 0
    requires (o.tStandby, o.filter, o.spi3wEnable) == ConfigFields(r)
    ensures ConfigReg(o) == r
  {
  }

  /** The options a freshly made driver starts from. */
  function NewOpt(): (o: Opt)
    ensures FieldsFit(o)
    ensures HumidityReg(o) == 0x01 && MeasureReg(o) == 0x27 && ConfigReg(o) == 0xA0
  {
    Opt(temperatureOverSampling := 1,  // x1
        pressureOverSampling := 1,     // x1
        humidityOverSampling := 1,     // x1
        mode := 3,                     // normal mode
        tStandby := 5,                 // 1000 ms
        filter := 0,                   // off
        spi3wEnable := false)
  }
}
