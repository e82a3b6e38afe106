/**
 * The BME280 driver object: it configures the sensor's three control
 * registers, reads and decodes the factory trimming parameters once, and
 * reads raw measurement bursts, handing each raw value to a compensation
 * step together with the parameters it needs.
 */
module Driver {
  import opened Bits
  import opened Options
  import opened Transport
  import opened Calibration
  import opened RawData

  /** The sensor's I2C address (SDO tied low). */
  const DeviceAddr: byte := 0x76
  const CtrlHumAddr: byte := 0xF2
  const CtrlMeasureAddr: byte := 0xF4
  const CtrlConfAddr: byte := 0xF5

  /** The control registers, in the order the driver writes them. */
  const ControlAddrs: seq<byte> := [CtrlHumAddr, CtrlMeasureAddr, CtrlConfAddr]

  /** The bytes written to the control registers for `o`, in the same order. */
  function ControlRegs(o: Opt): (regs: seq<byte>)
    ensures |regs| == 3
  {
    [HumidityReg(o), MeasureReg(o), ConfigReg(o)]
  }

  /** The register writes that store `values` into the control registers, in order. */
  function Writes(values: seq<byte>): (writes: seq<Call>)
    requires |values| == 3
    ensures |writes| == 3
    ensures forall i :: 0 <= i < 3 ==> writes[i] == WriteByte(DeviceAddr, ControlAddrs[i], values[i])
  {
    seq(3, i requires 0 <= i < 3 => WriteByte(DeviceAddr, ControlAddrs[i], values[i]))
  }

  /** The three register writes that configure the sensor for `o`. */
  function SetupWrites(o: Opt): (writes: seq<Call>)
    ensures writes == [WriteByte(DeviceAddr, CtrlHumAddr, HumidityReg(o)),
                       WriteByte(DeviceAddr, CtrlMeasureAddr, MeasureReg(o)),
                       WriteByte(DeviceAddr, CtrlConfAddr, ConfigReg(o))]
  {
    Writes(ControlRegs(o))
  }

  /** With the default options the sensor gets `ctrl_hum` 0x01, `ctrl_meas` 0x27 and `config` 0xA0. */
  lemma DefaultSetupWrites()
    ensures SetupWrites(NewOpt()) ==
      [WriteByte(0x76, 0xF2, 0x01), WriteByte(0x76, 0xF4, 0x27), WriteByte(0x76, 0xF5, 0xA0)]
  {
  }

  /** Out of `n` calls that stop at the first failure, how many are made: the ones that succeed and the one that fails. */
  function CallsMade(script: seq<Reply>, n: nat): (made: nat)
    ensures made <= n
  {
    var k := FirstFailure(script, n);
    if k < n then k + 1 else n
  }

  /** The driver state: the bus, the options, and the trimming parameters once read. */
  class BME280 {
    const bus: FakeBus
    const opt: Opt
    var calibrated: bool
    var calibval: array<byte>
    var tfine: i32
    var digT1: u16
    var digT2: i16
    var digT3: i16
    var digP1: u16
    var digP2: i16
    var digP3: i16
    var digP4: i16
    var digP5: i16
    var digP6: i16
    var digP7: i16
    var digP8: i16
    var digP9: i16
    var digH1: u8
    var digH2: i16
    var digH3: u8
    var digH4: i16
    var digH5: i16
    var digH6: i8

    /** The parameters the driver currently holds. */
    function Stored(): Coefficients
      reads this
    {
      Coefficients(
        TempCoefficients(digT1, digT2, digT3),
        PresCoefficients(digP1, digP2, digP3, digP4, digP5, digP6, digP7, digP8, digP9),
        HumCoefficients(digH1, digH2, digH3, digH4, digH5, digH6))
    }

    /** A driver on `bus` with options `opt`, not yet calibrated, every parameter zero. */
    constructor (bus: FakeBus, opt: Opt)
      ensures this.bus == bus && this.opt == opt
      ensures !calibrated && tfine == 0 && Stored() == Zero && calibval.Length == 0
    {
      this.bus := bus;
      this.opt := opt;
      calibrated := false;
      calibval := new byte[0];
      tfine := 0;
      digT1, digT2, digT3 := 0, 0, 0;
      digP1, digP2, digP3, digP4, digP5, digP6, digP7, digP8, digP9 := 0, 0, 0, 0, 0, 0, 0, 0, 0;
      digH1, digH2, digH3, digH4, digH5, digH6 := 0, 0, 0, 0, 0, 0;
    }

    /**
     * Writes the three control registers in order, stopping at the first
     * write that fails and returning its error.
     */
    method Setup() returns (err: Outcome)
      modifies bus
      ensures var k := FirstFailure(old(bus.script), 3);
        err == (if k < 3 then Fail(ReplyAt(old(bus.script), k).error) else Pass)
      ensures bus.log == old(bus.log) + SetupWrites(opt)[..CallsMade(old(bus.script), 3)]
      ensures bus.script == Drop(old(bus.script), CallsMade(old(bus.script), 3))
    {
      var regs := ControlRegs(opt);
      var addrs := ControlAddrs;
      ghost var script := bus.script;
      var i := 0;
      while i <= 2
        invariant 0 <= i <= 3
        invariant bus.log == old(bus.log) + Writes(regs)[..i]
        invariant bus.script == Drop(script, i)
        invariant forall j: nat :: j < i ==> ReplyAt(script, j).Done?
      {
        assert ReplyAt(bus.script, 0) == ReplyAt(script, i);
        err := bus.WriteByteToReg(DeviceAddr, addrs[i], regs[i]);
        DropDrop(script, i, 1);
        WritesPrefix(regs, i);
        if err.Fail? {
          FirstFailureAt(script, 3, i);
          assert CallsMade(script, 3) == i + 1;
          return;
        }
        i := i + 1;
      }
      FirstFailureNone(script, 3);
      assert CallsMade(script, 3) == 3;
      assert Writes(regs)[..3] == SetupWrites(opt)[..3];
      err := Pass;
    }

    /** Decodes `dig_T1`..`dig_T3` from the first six bytes of the buffer. */
    method CalibrateTemp()
      requires calibval.Length >= 6
      modifies this`digT1, this`digT2, this`digT3
      ensures digT1 == Uint16LE(calibval[0], calibval[1])
      ensures digT2 == Int16LE(calibval[2], calibval[3])
      ensures digT3 == Int16LE(calibval[4], calibval[5])
    {
      var b := calibval[..];
      digT1, digT2, digT3 :=
        PackUint16(b[0], b[1]),
        PackInt16(b[2], b[3]),
        PackInt16(b[4], b[5]);
    }

    /** Decodes `dig_P1`..`dig_P9` from bytes 6 to 23 of the buffer. */
    method CalibratePres()
      requires calibval.Length >= 24
      modifies this`digP1, this`digP2, this`digP3, this`digP4, this`digP5,
               this`digP6, this`digP7, this`digP8, this`digP9
      ensures digP1 == Uint16LE(calibval[6], calibval[7])
      ensures digP2 == Int16LE(calibval[8], calibval[9])
      ensures digP3 == Int16LE(calibval[10], calibval[11])
      ensures digP4 == Int16LE(calibval[12], calibval[13])
      ensures digP5 == Int16LE(calibval[14], calibval[15])
      ensures digP6 == Int16LE(calibval[16], calibval[17])
      ensures digP7 == Int16LE(calibval[18], calibval[19])
      ensures digP8 == Int16LE(calibval[20], calibval[21])
      ensures digP9 == Int16LE(calibval[22], calibval[23])
    {
      var b := calibval[..];
      digP1, digP2, digP3, digP4, digP5, digP6, digP7, digP8, digP9 :=
        PackUint16(b[6], b[7]),
        PackInt16(b[8], b[9]),
        PackInt16(b[10], b[11]),
        PackInt16(b[12], b[13]),
        PackInt16(b[14], b[15]),
        PackInt16(b[16], b[17]),
        PackInt16(b[18], b[19]),
        PackInt16(b[20], b[21]),
        PackInt16(b[22], b[23]);
    }

    /** Decodes `dig_H2`..`dig_H6` from the seven-byte second block; `dig_H1` is kept. */
    method CalibrateHum()
      requires calibval.Length >= 7
      modifies this`digH2, this`digH3, this`digH4, this`digH5, this`digH6
      ensures digH2 == Int16LE(calibval[0], calibval[1])
      ensures digH3 as int == calibval[2] as int
      ensures digH4 == LowNibble12(calibval[3], calibval[4])
      ensures digH5 == HighNibble12(calibval[5], calibval[4])
      ensures digH6 == Int8Of(calibval[6])
    {
      var b := calibval[..];
      digH2, digH3, digH4, digH5, digH6 :=
        PackInt16(b[0], b[1]),
        b[2] as int as u8,
        PackLowNibble(b[3], b[4]),
        PackHighNibble(b[5], b[4]),
        CastInt8(b[6]);
    }

    /**
     * Decodes temperature, pressure and `dig_H1` from the first block, held
     * in the buffer; the other humidity parameters are kept.
     */
    method DecodeBlock1()
      requires calibval.Length == Block1Length
      modifies this`digT1, this`digT2, this`digT3,
               this`digP1, this`digP2, this`digP3, this`digP4, this`digP5,
               this`digP6, this`digP7, this`digP8, this`digP9, this`digH1
      ensures Stored() == WithBlock1(old(Stored()), calibval[..])
    {
      ghost var b := calibval[..];
      CalibrateTemp();
      CalibratePres();
      digH1 := calibval[H1Offset] as int as u8;
      assert calibval[..] == b;
    }

    /**
     * Reads the first block into a fresh buffer and decodes temperature,
     * pressure and `dig_H1` from it; a failed read decodes nothing.
     */
    method LoadBlock1() returns (err: Outcome)
      modifies this, bus
      ensures calibrated == old(calibrated) && tfine == old(tfine) && fresh(calibval)
      ensures bus.log == old(bus.log) + [ReadBlock(DeviceAddr, Block1Register, Block1Length)]
      ensures bus.script == Drop(old(bus.script), 1)
      ensures ReplyAt(old(bus.script), 0).Failed? ==>
        err == Fail(ReplyAt(old(bus.script), 0).error) &&
        Stored() == old(Stored()) && calibval[..] == seq(Block1Length, _ => 0)
      ensures ReplyAt(old(bus.script), 0).Done? ==>
        err == Pass && calibval[..] == Fill(ReplyAt(old(bus.script), 0).data, Block1Length) &&
        Stored() == WithBlock1(old(Stored()), calibval[..])
    {
      var buf := new byte[Block1Length](_ => 0);
      err := bus.ReadFromReg(DeviceAddr, Block1Register, buf);
      calibval := buf;
      if err.Fail? {
        return;
      }
      DecodeBlock1();
    }

    /**
     * Reads the second block into a fresh buffer and decodes `dig_H2` to
     * `dig_H6` from it; a failed read decodes nothing.
     */
    method LoadBlock2() returns (err: Outcome)
      modifies this, bus
      ensures calibrated == old(calibrated) && tfine == old(tfine) && fresh(calibval)
      ensures bus.log == old(bus.log) + [ReadBlock(DeviceAddr, Block2Register, Block2Length)]
      ensures bus.script == Drop(old(bus.script), 1)
      ensures ReplyAt(old(bus.script), 0).Failed? ==>
        err == Fail(ReplyAt(old(bus.script), 0).error) &&
        Stored() == old(Stored()) && calibval[..] == seq(Block2Length, _ => 0)
      ensures ReplyAt(old(bus.script), 0).Done? ==>
        err == Pass && calibval[..] == Fill(ReplyAt(old(bus.script), 0).data, Block2Length) &&
        Stored() == WithBlock2(old(Stored()), calibval[..])
    {
      var buf := new byte[Block2Length](_ => 0);
      err := bus.ReadFromReg(DeviceAddr, Block2Register, buf);
      calibval := buf;
      if err.Fail? {
        return;
      }
      CalibrateHum();
    }

    /**
     * Reads and decodes the trimming parameters, unless they were read
     * already. A failed read returns its error and leaves the driver
     * uncalibrated, so that the next call reads again; a failure of the
     * second read leaves the parameters of the first block in place.
     */
    method Callibrate() returns (err: Outcome)
      modifies this, bus
      ensures tfine == old(tfine)
      ensures old(calibrated) ==>
        err == Pass && calibrated && Stored() == old(Stored()) && calibval == old(calibval) &&
        bus.log == old(bus.log) && bus.script == old(bus.script)
      ensures !old(calibrated) ==> fresh(calibval)
      ensures !old(calibrated) && ReplyAt(old(bus.script), 0).Failed? ==>
        err == Fail(ReplyAt(old(bus.script), 0).error) && !calibrated && Stored() == old(Stored()) &&
        bus.log == old(bus.log) + [ReadBlock(DeviceAddr, Block1Register, Block1Length)] &&
        bus.script == Drop(old(bus.script), 1)
      ensures !old(calibrated) && ReplyAt(old(bus.script), 0).Done? ==>
        bus.log == old(bus.log) + [ReadBlock(DeviceAddr, Block1Register, Block1Length),
                                   ReadBlock(DeviceAddr, Block2Register, Block2Length)] &&
        bus.script == Drop(old(bus.script), 2)
      ensures !old(calibrated) && ReplyAt(old(bus.script), 0).Done? && ReplyAt(old(bus.script), 1).Failed? ==>
        err == Fail(ReplyAt(old(bus.script), 1).error) && !calibrated &&
        Stored() == WithBlock1(old(Stored()), Fill(ReplyAt(old(bus.script), 0).data, Block1Length))
      ensures !old(calibrated) && ReplyAt(old(bus.script), 0).Done? && ReplyAt(old(bus.script), 1).Done? ==>
        err == Pass && calibrated &&
        Stored() == Decode(Fill(ReplyAt(old(bus.script), 0).data, Block1Length),
                           Fill(ReplyAt(old(bus.script), 1).data, Block2Length))
    {
      if calibrated {
        return Pass;
      }
      ghost var script := bus.script;
      ghost var start := Stored();
      err := LoadBlock1();
      if err.Fail? {
        return;
      }
      ghost var block1 := calibval[..];
      assert ReplyAt(bus.script, 0) == ReplyAt(script, 1);
      err := LoadBlock2();
      DropDrop(script, 1, 1);
      if err.Fail? {
        return;
      }
      DecodeInTwoSteps(start, block1, calibval[..]);
      calibrated := true;
    }

    /**
     * Reads one measurement burst and compensates it: temperature first,
     * which yields the fine temperature `t_fine` that the pressure and
     * humidity steps then use. The result is `[temperature, pressure,
     * humidity]`; a failed read returns its error and changes nothing else.
     */
    method Read<F>(compTemp: (TempCoefficients, i32) -> (F, i32),
                   compPres: (PresCoefficients, i32, i32) -> F,
                   compHum: (HumCoefficients, i32, i32) -> F) returns (r: Result<seq<F>>)
      modifies this`tfine, bus
      ensures bus.log == old(bus.log) + [ReadBlock(DeviceAddr, DataRegister, BurstLength)]
      ensures bus.script == Drop(old(bus.script), 1)
      ensures ReplyAt(old(bus.script), 0).Failed? ==>
        r == Failure(ReplyAt(old(bus.script), 0).error) && tfine == old(tfine)
      ensures ReplyAt(old(bus.script), 0).Done? ==>
        var raw := Assemble(Fill(ReplyAt(old(bus.script), 0).data, BurstLength));
        var c := Stored();
        var (temp, fine) := compTemp(c.temp, raw.temp);
        tfine == fine && r == Success([temp, compPres(c.pres, fine, raw.pres), compHum(c.hum, fine, raw.hum)])
    {
      var data := new byte[BurstLength](_ => 0);
      var e := bus.ReadFromReg(DeviceAddr, DataRegister, data);
      if e.Fail? {
        return Failure(e.error);
      }
      var raw := Assemble(data[..]);
      tfine := 0;
      var (temp, fine) := compTemp(Stored().temp, raw.temp);
      tfine := fine;
      var pres := compPres(Stored().pres, tfine, raw.pres);
      var hum := compHum(Stored().hum, tfine, raw.hum);
      r := Success([temp, pres, hum]);
    }

    /**
     * Builds a driver, configures the sensor and reads its parameters; if
     * either step fails there is no driver and its error is returned.
     */
    static method New(bus: FakeBus, opt: Opt) returns (d: BME280?, err: Outcome)
      modifies bus
      ensures d == null <==> err.Fail?
      ensures var k := FirstFailure(old(bus.script), 3);
        k < 3 ==>
        d == null && err == Fail(ReplyAt(old(bus.script), k).error) &&
        bus.log == old(bus.log) + SetupWrites(opt)[..CallsMade(old(bus.script), 3)] &&
        bus.script == Drop(old(bus.script), k + 1)
      ensures FirstFailure(old(bus.script), 3) == 3 ==>
        var rest := Drop(old(bus.script), 3);
        (ReplyAt(rest, 0).Failed? ==> err == Fail(ReplyAt(rest, 0).error) && bus.script == Drop(rest, 1)) &&
        (ReplyAt(rest, 0).Done? && ReplyAt(rest, 1).Failed? ==> err == Fail(ReplyAt(rest, 1).error)) &&
        (ReplyAt(rest, 0).Done? ==> bus.script == Drop(rest, 2))
      ensures FirstFailure(old(bus.script), 3) == 3 ==>
        var rest := Drop(old(bus.script), 3);
        var readCalls := [ReadBlock(DeviceAddr, Block1Register, Block1Length)] +
          (if ReplyAt(rest, 0).Done? then [ReadBlock(DeviceAddr, Block2Register, Block2Length)] else []);
        bus.log == old(bus.log) + SetupWrites(opt) + readCalls &&
        (d != null <==> ReplyAt(rest, 0).Done? && ReplyAt(rest, 1).Done?)
      ensures d != null ==>
        var rest := Drop(old(bus.script), 3);
        fresh(d) && d.bus == bus && d.opt == opt && d.calibrated && d.tfine == 0 &&
        d.Stored() == Decode(Fill(ReplyAt(rest, 0).data, Block1Length), Fill(ReplyAt(rest, 1).data, Block2Length))
    {
      var drv := new BME280(bus, opt);
      err := drv.Setup();
      if err.Fail? {
        return null, err;
      }
      assert SetupWrites(opt)[..3] == SetupWrites(opt);
      err := drv.Callibrate();
      if err.Fail? {
        return null, err;
      }
      d := drv;
    }
  }

  /** One more write extends the prefix of the writes made by the next one. */
  lemma WritesPrefix(values: seq<byte>, i: nat)
    requires |values| == 3 && i < 3
    ensures Writes(values)[..i + 1] == Writes(values)[..i] + [WriteByte(DeviceAddr, ControlAddrs[i], values[i])]
  {
  }
}
