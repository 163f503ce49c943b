/** The MPU-9150 driver object: configuration over the bus, single-sample
    reads and FIFO draining. Its member variables are grouped into three
    records (configuration, latest sample, FIFO poll) that the methods
    update in place. */
module Driver {
  import opened Bytes
  import opened Registers
  import opened Transport
  import opened Steps
  import opened Frames
  import opened DriverState

  /** The counts of a data frame, unpacked pair by pair as the driver does. */
  method UnpackFrame(buf: array<byte>) returns (accel: Axes, temp: int, gyro: Axes)
    requires buf.Length == FrameLen
    ensures Frame(buf[0], accel, temp, gyro) == DecodeFrame(buf[..])
  {
    accel := Axes(Decode16(buf[1], buf[2]), Decode16(buf[3], buf[4]), Decode16(buf[5], buf[6]));
    temp := Decode16(buf[7], buf[8]);
    gyro := Axes(Decode16(buf[9], buf[10]), Decode16(buf[11], buf[12]), Decode16(buf[13], buf[14]));
  }

  /** The driver's per-axis conversion into the host axes: X from the
      sensor's Y count, Y from its X count, Z negated; each count times the
      scale `s` and then the unit factor `u`. */
  method ToHost(c: Axes, s: real, u: real) returns (v: Vec)
    ensures v == Scale(Remap(c), Factor(s, u))
  {
    v := Vec(c.y as real * s * u, c.x as real * s * u, c.z as real * s * -1.0 * u);
    ScaleRemapInSteps(c, s, u);
  }

  /** The same conversion with the scale alone. */
  method ToHostScaled(c: Axes, s: real) returns (v: Vec)
    ensures v == Scale(Remap(c), s)
  {
    v := Vec(c.y as real * s, c.x as real * s, c.z as real * s * -1.0);
    ScaleRemapInSteps(c, s, 1.0);
  }

  /** How `Read(float*)` fills its output: accelerometer at 0..2, gyroscope
      at 3..5, temperature at 9 and then 7; nothing else is written. */
  method StoreValues(values: array<real>, a: Vec, g: Vec, t: real)
    requires values.Length >= 10
    modifies values
    ensures values[0] == a.x && values[1] == a.y && values[2] == a.z
    ensures values[3] == g.x && values[4] == g.y && values[5] == g.z
    ensures values[7] == t && values[9] == t
    ensures values[6] == old(values[6]) && values[8] == old(values[8])
    ensures values[10..] == old(values[10..])
  {
    values[0], values[1], values[2] := a.x, a.y, a.z;
    values[9] := t;
    values[3], values[4], values[5] := g.x, g.y, g.z;
    values[7] := values[9];
  }

  /** Record `j` of a FIFO buffer, unpacked pair by pair from byte `i = 12 j`
      on as the driver does. */
  method UnpackRecord(data: array<byte>, i: nat, ghost j: nat) returns (accel: Axes, gyro: Axes)
    requires i == RecordLen * j && i + RecordLen <= data.Length
    ensures Record(accel, gyro) == FifoRecord(data[..], j)
  {
    accel := Axes(Decode16(data[i], data[i + 1]), Decode16(data[i + 2], data[i + 3]), Decode16(data[i + 4], data[i + 5]));
    gyro := Axes(Decode16(data[i + 6], data[i + 7]), Decode16(data[i + 8], data[i + 9]), Decode16(data[i + 10], data[i + 11]));
  }

  /** Stores one converted record at index `j` of the six output columns. */
  method StoreColumns(gx: array<real>, gy: array<real>, gz: array<real>,
                      ax: array<real>, ay: array<real>, az: array<real>,
                      j: nat, a: Vec, g: Vec)
    requires Distinct6(gx, gy, gz, ax, ay, az)
    requires j < gx.Length && j < gy.Length && j < gz.Length
    requires j < ax.Length && j < ay.Length && j < az.Length
    modifies gx, gy, gz, ax, ay, az
    ensures ax[..] == old(ax[..])[j := a.x] && ay[..] == old(ay[..])[j := a.y] && az[..] == old(az[..])[j := a.z]
    ensures gx[..] == old(gx[..])[j := g.x] && gy[..] == old(gy[..])[j := g.y] && gz[..] == old(gz[..])[j := g.z]
  {
    ax[j] := a.x;
    ay[j] := a.y;
    az[j] := a.z;
    gx[j] := g.x;
    gy[j] := g.y;
    gz[j] := g.z;
  }

  class Mpu9150 {
    const bus: Bus              // imu_
    const hdr: Header           // constants of mpu9150.h
    const dataBuf: array<byte>  // data_buf_
    var config: ConfigState
    var sample: SampleState
    var fifo: FifoState

    ghost predicate Valid()
      reads this
    {
      && dataBuf.Length == FrameLen
      && hdr.tempScale != 0.0
    }

    /** The member initialisers of mpu9150.h are not part of this model:
        the initial configuration is a parameter. */
    constructor (bus: Bus, hdr: Header, init: ConfigState)
      requires hdr.tempScale != 0.0
      ensures Valid()
      ensures this.bus == bus && this.hdr == hdr && fresh(dataBuf)
      ensures config == init && !sample.newImuData
    {
      this.bus := bus;
      this.hdr := hdr;
      dataBuf := new byte[FrameLen];
      config := init;
      sample := SampleState(false, Axes(0, 0, 0), 0, Axes(0, 0, 0), Vec(0.0, 0.0, 0.0), 0.0, Vec(0.0, 0.0, 0.0));
      fifo := FifoState(false, 0, 0);
    }

    // Initialisation.

    /** Opens the bus and runs `BeginPlan(mode)`, stopping at the first
        step that aborts; the defaults go through the configuration
        methods, so each keeps its commit-after-write rule. */
    method Begin(mode: MagMode) returns (ok: bool)
      requires Valid()
      modifies this, bus
      ensures Valid() && sample == old(sample) && fifo == old(fifo)
      ensures Outcome(bus.log, ok, config) == BeginModel(old(config), mode, bus.oracle, hdr.whoAmIMpu9150, old(bus.log))
      ensures
        var n := |old(bus.log)| + 1;
        var run := Exec(BeginPlan(mode), bus.oracle, hdr.whoAmIMpu9150, n);
        && bus.log == old(bus.log) + [Opened] + run.ops
        && ok == run.success
        && config == AfterBegin(old(config), mode, bus.oracle, n, |run.ops|)
    {
      BeginModelRunsPlan(config, mode, bus.oracle, hdr.whoAmIMpu9150, bus.log);
      config := config.(magMode := mode);
      bus.Open();
      // The outcome of the reset is ignored.
      var resetOk := bus.WriteRegister(PwrMgmt1, Reset);
      ok := bus.WriteRegister(PwrMgmt1, ClockPll);
      if !ok {
        return false;
      }
      var idBuf := new byte[1];
      ok := bus.ReadRegisters(WhoAmI, 1, idBuf);
      if !ok {
        return false;
      }
      config := config.(whoAmI := idBuf[0]);
      if config.whoAmI != hdr.whoAmIMpu9150 {
        return false;
      }
      if config.magMode == MagPassthrough {
        ok := bus.WriteRegister(IntPinCfg, PinCfg(false, true));
        if !ok {
          return false;
        }
      }
      ok := bus.WriteRegister(PwrMgmt1, ClockPll);
      if !ok {
        return false;
      }
      ok := ApplyDefaults();
    }

    /** The tail of `Begin`: the four defaults, each through its
        configuration method, stopping at the first that fails. */
    method ApplyDefaults() returns (ok: bool)
      requires Valid()
      modifies this, bus
      ensures Valid() && sample == old(sample) && fifo == old(fifo)
      ensures Outcome(bus.log, ok, config) == DefaultsModel(old(config), bus.oracle, old(bus.log))
    {
      ok := ConfigAccelRange(Enumerator(Accel16G));
      if !ok {
        return false;
      }
      ok := ConfigGyroRange(Enumerator(Gyro2000Dps));
      if !ok {
        return false;
      }
      ok := ConfigDlpfBandwidth(Enumerator(Dlpf184Hz));
      if !ok {
        return false;
      }
      ok := ConfigSrd(0);
      if !ok {
        return false;
      }
      return true;
    }

    /** `Begin()`: the magnetometer in pass-through mode. */
    method BeginDefault() returns (ok: bool)
      requires Valid()
      modifies this, bus
      ensures Valid() && sample == old(sample) && fifo == old(fifo)
      ensures Outcome(bus.log, ok, config) == BeginModel(old(config), MagPassthrough, bus.oracle, hdr.whoAmIMpu9150, old(bus.log))
      ensures
        var n := |old(bus.log)| + 1;
        var run := Exec(BeginPlan(MagPassthrough), bus.oracle, hdr.whoAmIMpu9150, n);
        && bus.log == old(bus.log) + [Opened] + run.ops
        && ok == run.success
        && config == AfterBegin(old(config), MagPassthrough, bus.oracle, n, |run.ops|)
    {
      ok := Begin(MagPassthrough);
    }

    // Interrupts and FIFO enable.

    /** The pin configuration keeps the I2C bypass bit set in pass-through
        mode only; the second write is issued only if the first went
        through. */
    method EnableDrdyInt() returns (ok: bool)
      requires Valid()
      modifies bus
      ensures
        var n := |old(bus.log)|;
        var pin := PinCfg(true, config.magMode.MagPassthrough?);
        && (!bus.oracle.ok(n) ==> !ok && bus.log == old(bus.log) + [Wrote(IntPinCfg, pin, false)])
        && (bus.oracle.ok(n) ==>
              ok == bus.oracle.ok(n + 1)
              && bus.log == old(bus.log) + [Wrote(IntPinCfg, pin, true), Wrote(IntEnable, RawRdyEnable, ok)])
    {
      if config.magMode == MagPassthrough {
        ok := bus.WriteRegister(IntPinCfg, PinCfg(true, true));
        if !ok {
          return false;
        }
      } else {
        ok := bus.WriteRegister(IntPinCfg, PinCfg(true, false));
        if !ok {
          return false;
        }
      }
      ok := bus.WriteRegister(IntEnable, RawRdyEnable);
      if !ok {
        return false;
      }
      return true;
    }

    method DisableDrdyInt() returns (ok: bool)
      requires Valid()
      modifies bus
      ensures ok == bus.oracle.ok(|old(bus.log)|)
      ensures bus.log == old(bus.log) + [Wrote(IntEnable, IntDisable, ok)]
    {
      ok := bus.WriteRegister(IntEnable, IntDisable);
      if !ok {
        return false;
      }
      return true;
    }

    method EnableFifo() returns (ok: bool)
      requires Valid()
      modifies bus
      ensures
        var n := |old(bus.log)|;
        && (!bus.oracle.ok(n) ==> !ok && bus.log == old(bus.log) + [Wrote(UserCtrl, UserCtrlFifoEnable, false)])
        && (bus.oracle.ok(n) ==>
              ok == bus.oracle.ok(n + 1)
              && bus.log == old(bus.log) + [Wrote(UserCtrl, UserCtrlFifoEnable, true), Wrote(FifoEn, FifoEnGyroAccel, ok)])
    {
      ok := bus.WriteRegister(UserCtrl, UserCtrlFifoEnable);
      if !ok {
        return false;
      }
      ok := bus.WriteRegister(FifoEn, FifoEnGyroAccel);
      if !ok {
        return false;
      }
      return true;
    }

    method DisableFifo() returns (ok: bool)
      requires Valid()
      modifies bus
      ensures
        var n := |old(bus.log)|;
        && (!bus.oracle.ok(n) ==> !ok && bus.log == old(bus.log) + [Wrote(UserCtrl, UserCtrlFifoDisable, false)])
        && (bus.oracle.ok(n) ==>
              ok == bus.oracle.ok(n + 1)
              && bus.log == old(bus.log) + [Wrote(UserCtrl, UserCtrlFifoDisable, true), Wrote(FifoEn, FifoDisableAll, ok)])
    {
      ok := bus.WriteRegister(UserCtrl, UserCtrlFifoDisable);
      if !ok {
        return false;
      }
      ok := bus.WriteRegister(FifoEn, FifoDisableAll);
      if !ok {
        return false;
      }
      return true;
    }

    // Configuration: validate, write, then commit.

    /** An argument outside the four enumerators is refused before any
        write; otherwise the requested range and its scale are recorded and
        become active only if the write went through. */
    method ConfigAccelRange(range: EnumArg<AccelRange>) returns (ok: bool)
      requires Valid()
      modifies this, bus
      ensures Valid() && sample == old(sample) && fifo == old(fifo)
      ensures range.OutOfRange? ==> !ok && bus.log == old(bus.log) && config == old(config)
      ensures range.Enumerator? ==>
        var r := range.e;
        && ok == bus.oracle.ok(|old(bus.log)|)
        && bus.log == old(bus.log) + [Wrote(AccelConfig, AccelSel(r), ok)]
        && config == WithAccelRange(old(config), r, ok)
    {
      match range {
        case OutOfRange(_) => return false;
        case Enumerator(r) =>
          match r {
            case Accel2G => config := config.(requestedAccelRange := r, requestedAccelScale := 2.0 / 32767.5);
            case Accel4G => config := config.(requestedAccelRange := r, requestedAccelScale := 4.0 / 32767.5);
            case Accel8G => config := config.(requestedAccelRange := r, requestedAccelScale := 8.0 / 32767.5);
            case Accel16G => config := config.(requestedAccelRange := r, requestedAccelScale := 16.0 / 32767.5);
          }
          assert config.requestedAccelScale == AccelScale(r);
      }
      ok := bus.WriteRegister(AccelConfig, AccelSel(config.requestedAccelRange));
      if !ok {
        return false;
      }
      config := config.(accelRange := config.requestedAccelRange, accelScale := config.requestedAccelScale);
      return true;
    }

    method ConfigGyroRange(range: EnumArg<GyroRange>) returns (ok: bool)
      requires Valid()
      modifies this, bus
      ensures Valid() && sample == old(sample) && fifo == old(fifo)
      ensures range.OutOfRange? ==> !ok && bus.log == old(bus.log) && config == old(config)
      ensures range.Enumerator? ==>
        var r := range.e;
        && ok == bus.oracle.ok(|old(bus.log)|)
        && bus.log == old(bus.log) + [Wrote(GyroConfig, GyroSel(r), ok)]
        && config == WithGyroRange(old(config), r, ok)
    {
      match range {
        case OutOfRange(_) => return false;
        case Enumerator(r) =>
          match r {
            case Gyro250Dps => config := config.(requestedGyroRange := r, requestedGyroScale := 250.0 / 32767.5);
            case Gyro500Dps => config := config.(requestedGyroRange := r, requestedGyroScale := 500.0 / 32767.5);
            case Gyro1000Dps => config := config.(requestedGyroRange := r, requestedGyroScale := 1000.0 / 32767.5);
            case Gyro2000Dps => config := config.(requestedGyroRange := r, requestedGyroScale := 2000.0 / 32767.5);
          }
          assert config.requestedGyroScale == GyroScale(r);
      }
      ok := bus.WriteRegister(GyroConfig, GyroSel(config.requestedGyroRange));
      if !ok {
        return false;
      }
      config := config.(gyroRange := config.requestedGyroRange, gyroScale := config.requestedGyroScale);
      return true;
    }

    method ConfigSrd(srd: byte) returns (ok: bool)
      requires Valid()
      modifies this, bus
      ensures Valid() && sample == old(sample) && fifo == old(fifo)
      ensures ok == bus.oracle.ok(|old(bus.log)|)
      ensures bus.log == old(bus.log) + [Wrote(SmplrtDiv, Divider(srd), ok)]
      ensures config == WithSrd(old(config), srd, ok)
    {
      ok := bus.WriteRegister(SmplrtDiv, Divider(srd));
      if !ok {
        return false;
      }
      config := config.(srd := srd);
      return true;
    }

    /** Writes the same selector to ACCEL_CONFIG2_ and then to CONFIG_; a
        failed second write leaves the first in place, and the stored
        bandwidth changes only when both went through. */
    method ConfigDlpfBandwidth(dlpf: EnumArg<Dlpf>) returns (ok: bool)
      requires Valid()
      modifies this, bus
      ensures Valid() && sample == old(sample) && fifo == old(fifo)
      ensures dlpf.OutOfRange? ==> !ok && bus.log == old(bus.log) && config == old(config)
      ensures dlpf.Enumerator? ==>
        var n := |old(bus.log)|;
        var sel := DlpfSel(dlpf.e);
        && (!bus.oracle.ok(n) ==> !ok && bus.log == old(bus.log) + [Wrote(AccelConfig2, sel, false)])
        && (bus.oracle.ok(n) ==>
              ok == bus.oracle.ok(n + 1)
              && bus.log == old(bus.log) + [Wrote(AccelConfig2, sel, true)] + [Wrote(Config, sel, ok)])
        && config == WithDlpf(old(config), dlpf.e, ok)
    {
      match dlpf {
        case OutOfRange(_) => return false;
        case Enumerator(d) => config := config.(requestedDlpf := d);
      }
      ok := bus.WriteRegister(AccelConfig2, DlpfSel(config.requestedDlpf));
      if !ok {
        return false;
      }
      ok := bus.WriteRegister(Config, DlpfSel(config.requestedDlpf));
      if !ok {
        return false;
      }
      config := config.(dlpfBandwidth := config.requestedDlpf);
      return true;
    }

    // Single-sample reads.

    /** The start shared by the three reads: clears the data-ready flag,
        reads the 15 registers from INT_STATUS_ on into `dataBuf`, and
        sets the flag from the status byte's raw-data-ready bit. */
    method FetchFrame() returns (ok: bool)
      requires Valid()
      modifies this, dataBuf, bus
      ensures Valid() && config == old(config) && fifo == old(fifo)
      ensures var n := |old(bus.log)|;
        && bus.log == old(bus.log) + [Fetched(IntStatus, FrameLen, bus.oracle.ok(n))]
        && (bus.oracle.ok(n) ==> dataBuf[..] == bus.oracle.Reply(n, FrameLen))
        && (ok <==> bus.oracle.ok(n) && HasBits(bus.oracle.byteAt(n, 0), hdr.rawDataRdyInt))
        && sample == old(sample).(newImuData := ok)
    {
      sample := sample.(newImuData := false);
      ok := bus.ReadRegisters(IntStatus, FrameLen, dataBuf);
      if !ok {
        return false;
      }
      sample := sample.(newImuData := HasBits(dataBuf[0], hdr.rawDataRdyInt));
      if !sample.newImuData {
        return false;
      }
      return true;
    }

    /** `Read()`: when the read went through and the sensor flagged new
        data, stores the decoded counts and the converted sample;
        otherwise only clears the data-ready flag. */
    method Read() returns (ok: bool)
      requires Valid()
      modifies this, dataBuf, bus
      ensures Valid() && config == old(config) && fifo == old(fifo)
      ensures var n := |old(bus.log)|;
        && bus.log == old(bus.log) + [Fetched(IntStatus, FrameLen, bus.oracle.ok(n))]
        && (ok <==> bus.oracle.ok(n) && HasBits(bus.oracle.byteAt(n, 0), hdr.rawDataRdyInt))
        && (!ok ==> sample == old(sample).(newImuData := false))
        && (ok ==> sample == Converted(DecodeFrame(bus.oracle.Reply(n, FrameLen)), config, hdr))
    {
      ok := FetchFrame();
      if !ok {
        return false;
      }
      var accelCnts, tempCnts, gyroCnts := UnpackFrame(dataBuf);
      var accel := ToHost(accelCnts, config.accelScale, hdr.gMps2);
      var temp := tempCnts as real / hdr.tempScale + 35.0;
      var gyro := ToHost(gyroCnts, config.gyroScale, hdr.deg2Rad);
      sample := SampleState(true, accelCnts, tempCnts, gyroCnts, accel, temp, gyro);
      return true;
    }

    /** `Read(float*)`: as `Read()`, but the stored temperature uses the
        offset-21 formula, and `values` receives the accelerometer (in g)
        and gyroscope (in deg/s) in the host axes at 0..5 and the
        temperature at 7 and 9; entries 6, 8 and from 10 on are left as
        they were. */
    method ReadValues(values: array<real>) returns (ok: bool)
      requires Valid() && values.Length >= 10
      modifies this, dataBuf, bus, values
      ensures Valid() && config == old(config) && fifo == old(fifo)
      ensures var n := |old(bus.log)|;
        && bus.log == old(bus.log) + [Fetched(IntStatus, FrameLen, bus.oracle.ok(n))]
        && (ok <==> bus.oracle.ok(n) && HasBits(bus.oracle.byteAt(n, 0), hdr.rawDataRdyInt))
        && (!ok ==> sample == old(sample).(newImuData := false) && values[..] == old(values[..]))
        && (ok ==>
              var f := DecodeFrame(bus.oracle.Reply(n, FrameLen));
              var t := DieTempOffset21(f.temp, hdr.tempScale);
              var a, g := Scale(Remap(f.accel), config.accelScale), Scale(Remap(f.gyro), config.gyroScale);
              && sample == Converted(f, config, hdr).(temp := t)
              && values[0] == a.x && values[1] == a.y && values[2] == a.z
              && values[3] == g.x && values[4] == g.y && values[5] == g.z
              && values[7] == t && values[9] == t
              && values[6] == old(values[6]) && values[8] == old(values[8])
              && values[10..] == old(values[10..]))
    {
      ok := FetchFrame();
      if !ok {
        return false;
      }
      var accelCnts, tempCnts, gyroCnts := UnpackFrame(dataBuf);
      var accel := ToHost(accelCnts, config.accelScale, hdr.gMps2);
      var temp := (tempCnts as real - 21.0) / hdr.tempScale + 21.0;
      var gyro := ToHost(gyroCnts, config.gyroScale, hdr.deg2Rad);
      sample := SampleState(true, accelCnts, tempCnts, gyroCnts, accel, temp, gyro);
      var a := ToHostScaled(accelCnts, config.accelScale);
      var g := ToHostScaled(gyroCnts, config.gyroScale);
      StoreValues(values, a, g, temp);
      return true;
    }

    /** `Read_raw`: the seven counts in sensor axes into `values` (accel
        0..2, gyro 3..5, temperature 6); the stored sample keeps its
        counts and values. */
    method ReadRaw(values: array<int>) returns (ok: bool)
      requires Valid() && values.Length >= 7
      modifies this, dataBuf, bus, values
      ensures Valid() && config == old(config) && fifo == old(fifo)
      ensures var n := |old(bus.log)|;
        && bus.log == old(bus.log) + [Fetched(IntStatus, FrameLen, bus.oracle.ok(n))]
        && (ok <==> bus.oracle.ok(n) && HasBits(bus.oracle.byteAt(n, 0), hdr.rawDataRdyInt))
        && sample == old(sample).(newImuData := ok)
        && (!ok ==> values[..] == old(values[..]))
        && (ok ==>
              && values[..7] == RawLayout(DecodeFrame(bus.oracle.Reply(n, FrameLen)))
              && values[7..] == old(values[7..]))
    {
      ok := FetchFrame();
      if !ok {
        return false;
      }
      values[0] := Decode16(dataBuf[1], dataBuf[2]);
      values[1] := Decode16(dataBuf[3], dataBuf[4]);
      values[2] := Decode16(dataBuf[5], dataBuf[6]);
      values[6] := Decode16(dataBuf[7], dataBuf[8]);
      values[3] := Decode16(dataBuf[9], dataBuf[10]);
      values[4] := Decode16(dataBuf[11], dataBuf[12]);
      values[5] := Decode16(dataBuf[13], dataBuf[14]);
      return true;
    }

    /** The status and count reads that start `ReadFifo`, into `dataBuf`. */
    method ReadFifoCount() returns (ok: bool)
      requires Valid()
      modifies this, dataBuf, bus
      ensures Valid() && config == old(config) && sample == old(sample)
      ensures var p := CountPoll(old(fifo), bus.oracle, |old(bus.log)|, hdr.fifoOflowInt);
        ok == (p.ret == 0) && bus.log == old(bus.log) + p.ops && fifo == p.fifo
    {
      ok := bus.ReadRegisters(IntStatus, 1, dataBuf);
      if !ok {
        return false;
      }
      fifo := fifo.(overflowed := HasBits(dataBuf[0], hdr.fifoOflowInt));
      ok := bus.ReadRegisters(FifoCountH, 2, dataBuf);
      if !ok {
        return false;
      }
      fifo := fifo.(count := BigEndian16(dataBuf[0], dataBuf[1]));
      return true;
    }

    /** `ReadFifo(data, len)`: -1 for a null buffer; otherwise the poll
        `FifoPoll` describes. The caller's buffer receives the burst when it
        succeeds and is untouched when no burst is issued. */
    method ReadFifo(data: array?<byte>, len: nat) returns (r: int)
      requires Valid()
      requires data != null ==> data != dataBuf && len <= data.Length
      modifies this, dataBuf, bus, data
      ensures Valid() && config == old(config) && sample == old(sample)
      ensures data == null ==> r == -1 && bus.log == old(bus.log) && fifo == old(fifo)
      ensures data != null ==>
        var n := |old(bus.log)|;
        var p := FifoPoll(old(fifo), bus.oracle, n, len, hdr.fifoOflowInt);
        && r == p.ret && bus.log == old(bus.log) + p.ops && fifo == p.fifo
        && (|p.ops| < 3 ==> data[..] == old(data[..]))
        && (|p.ops| == 3 && p.ops[2].ok ==>
              && data[..p.ops[2].count] == bus.oracle.Reply(n + 2, p.ops[2].count)
              && data[p.ops[2].count..] == old(data[p.ops[2].count..]))
    {
      if data == null {
        return -1;
      }
      var ok := ReadFifoCount();
      if !ok {
        return -1;
      }
      if fifo.count > 0 {
        if len < fifo.count {
          fifo := fifo.(bytesToRead := len);
        } else {
          fifo := fifo.(bytesToRead := fifo.count);
        }
        ok := bus.ReadFifo(FifoRW, BurstCount(fifo.bytesToRead), data);
        if !ok {
          return -1;
        }
        return ToInt16(fifo.bytesToRead);
      } else {
        return 0;
      }
    }

    /** `ProcessFifoData`: -1 if any of the seven buffers is null; otherwise
        the records decoded by `DecodeRecords`, their number taken as a
        16-bit result. */
    method ProcessFifoData(data: array?<byte>, len: nat,
                           gx: array?<real>, gy: array?<real>, gz: array?<real>,
                           ax: array?<real>, ay: array?<real>, az: array?<real>) returns (r: int)
      requires Valid()
      requires data != null && gx != null && gy != null && gz != null && ax != null && ay != null && az != null ==>
        && RecordLen * RecordCount(len) <= data.Length
        && RecordCount(len) <= gx.Length && RecordCount(len) <= gy.Length && RecordCount(len) <= gz.Length
        && RecordCount(len) <= ax.Length && RecordCount(len) <= ay.Length && RecordCount(len) <= az.Length
        && Distinct6(gx, gy, gz, ax, ay, az)
      modifies this, gx, gy, gz, ax, ay, az
      ensures Valid() && config == old(config) && fifo == old(fifo)
      ensures data == null || gx == null || gy == null || gz == null || ax == null || ay == null || az == null ==>
        && r == -1 && sample == old(sample)
        && (gx != null ==> gx[..] == old(gx[..])) && (gy != null ==> gy[..] == old(gy[..]))
        && (gz != null ==> gz[..] == old(gz[..])) && (ax != null ==> ax[..] == old(ax[..]))
        && (ay != null ==> ay[..] == old(ay[..])) && (az != null ==> az[..] == old(az[..]))
      ensures data != null && gx != null && gy != null && gz != null && ax != null && ay != null && az != null ==>
        var c := RecordCount(len);
        && r == ToInt16(c)
        && ColumnsHold(data[..], c, Factor(config.accelScale, hdr.gMps2), Factor(config.gyroScale, hdr.deg2Rad),
                       gx[..], gy[..], gz[..], ax[..], ay[..], az[..])
        && gx[c..] == old(gx[c..]) && gy[c..] == old(gy[c..]) && gz[c..] == old(gz[c..])
        && ax[c..] == old(ax[c..]) && ay[c..] == old(ay[c..]) && az[c..] == old(az[c..])
        && sample == LastRecordCounts(old(sample), data[..], c)
    {
      if data == null || gx == null || gy == null || gz == null || ax == null || ay == null || az == null {
        return -1;
      }
      var c := DecodeRecords(data, len, gx, gy, gz, ax, ay, az);
      return ToInt16(c);
    }

    /** One pass of the loop of `ProcessFifoData`: record `j`, from byte
        `i = 12 j` on, converted into index `j` of the columns; its counts
        stay in the sample. */
    method DecodeRecord(data: array<byte>, i: nat, j: nat,
                        gx: array<real>, gy: array<real>, gz: array<real>,
                        ax: array<real>, ay: array<real>, az: array<real>)
      requires Valid() && i == RecordLen * j && i + RecordLen <= data.Length
      requires j < gx.Length && j < gy.Length && j < gz.Length
      requires j < ax.Length && j < ay.Length && j < az.Length
      requires Distinct6(gx, gy, gz, ax, ay, az)
      modifies this, gx, gy, gz, ax, ay, az
      ensures Valid() && config == old(config) && fifo == old(fifo)
      ensures var r := FifoRecord(data[..], j);
        var a := Scale(Remap(r.accel), Factor(config.accelScale, hdr.gMps2));
        var g := Scale(Remap(r.gyro), Factor(config.gyroScale, hdr.deg2Rad));
        && sample == old(sample).(accelCnts := r.accel, gyroCnts := r.gyro)
        && ax[..] == old(ax[..])[j := a.x] && ay[..] == old(ay[..])[j := a.y] && az[..] == old(az[..])[j := a.z]
        && gx[..] == old(gx[..])[j := g.x] && gy[..] == old(gy[..])[j := g.y] && gz[..] == old(gz[..])[j := g.z]
    {
      var accelCnts, gyroCnts := UnpackRecord(data, i, j);
      sample := sample.(accelCnts := accelCnts, gyroCnts := gyroCnts);
      var a := ToHost(accelCnts, config.accelScale, hdr.gMps2);
      var g := ToHost(gyroCnts, config.gyroScale, hdr.deg2Rad);
      StoreColumns(gx, gy, gz, ax, ay, az, j, a, g);
    }

    /** The loop of `ProcessFifoData`: record `j`, at bytes `12 j` to
        `12 j + 11`, for each `12 j < len`, remapped and scaled into index
        `j` of the columns. The counts of the last record stay in the
        sample. */
    method DecodeRecords(data: array<byte>, len: nat,
                         gx: array<real>, gy: array<real>, gz: array<real>,
                         ax: array<real>, ay: array<real>, az: array<real>) returns (count: nat)
      requires Valid()
      requires RecordLen * RecordCount(len) <= data.Length
      requires RecordCount(len) <= gx.Length && RecordCount(len) <= gy.Length && RecordCount(len) <= gz.Length
      requires RecordCount(len) <= ax.Length && RecordCount(len) <= ay.Length && RecordCount(len) <= az.Length
      requires Distinct6(gx, gy, gz, ax, ay, az)
      modifies this, gx, gy, gz, ax, ay, az
      ensures Valid() && config == old(config) && fifo == old(fifo)
      ensures count == RecordCount(len)
      ensures ColumnsHold(data[..], count, Factor(config.accelScale, hdr.gMps2), Factor(config.gyroScale, hdr.deg2Rad),
                          gx[..], gy[..], gz[..], ax[..], ay[..], az[..])
      ensures gx[count..] == old(gx[count..]) && gy[count..] == old(gy[count..]) && gz[count..] == old(gz[count..])
      ensures ax[count..] == old(ax[count..]) && ay[count..] == old(ay[count..]) && az[count..] == old(az[count..])
      ensures sample == LastRecordCounts(old(sample), data[..], count)
    {
      ghost var ka, kg := Factor(config.accelScale, hdr.gMps2), Factor(config.gyroScale, hdr.deg2Rad);
      ghost var d := data[..];
      ghost var gx0, gy0, gz0, ax0, ay0, az0 := gx[..], gy[..], gz[..], ax[..], ay[..], az[..];
      var i, j := 0, 0;
      while i < len
        invariant i == RecordLen * j && j <= RecordCount(len)
        invariant Valid() && config == old(config) && fifo == old(fifo)
        invariant ColumnsHold(d, j, ka, kg, gx[..], gy[..], gz[..], ax[..], ay[..], az[..])
        invariant gx[j..] == gx0[j..] && gy[j..] == gy0[j..] && gz[j..] == gz0[j..]
        invariant ax[j..] == ax0[j..] && ay[j..] == ay0[j..] && az[j..] == az0[j..]
        invariant sample == LastRecordCounts(old(sample), d, j)
        decreases len - i
      {
        ColumnsHoldNext(d, j, ka, kg, gx[..], gy[..], gz[..], ax[..], ay[..], az[..]);
        ghost var a, g := Scale(Remap(FifoRecord(d, j).accel), ka), Scale(Remap(FifoRecord(d, j).gyro), kg);
        TailKept(gx[..], gx0, j, g.x);
        TailKept(gy[..], gy0, j, g.y);
        TailKept(gz[..], gz0, j, g.z);
        TailKept(ax[..], ax0, j, a.x);
        TailKept(ay[..], ay0, j, a.y);
        TailKept(az[..], az0, j, a.z);
        DecodeRecord(data, i, j, gx, gy, gz, ax, ay, az);
        j := j + 1;
        i := i + RecordLen;
      }
      RecordCountLeast(len, j);
      count := j;
    }
  }
}
