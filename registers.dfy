/** The sensor's register map and the values the driver writes into it.
    Addresses, enumerator values and bit masks are defined in mpu9150.h,
    which is not part of this model: each is a distinct constructor here,
    so two of them are equal exactly when they are the same constant. */
module Registers {
  import opened Bytes

  /** Register addresses the driver touches. */
  datatype Reg =
    | PwrMgmt1       // PWR_MGMNT_1_
    | WhoAmI         // WHOAMI_
    | IntPinCfg      // INT_PIN_CFG_
    | IntEnable      // INT_ENABLE_
    | UserCtrl       // USER_CTRL_
    | FifoEn         // FIFO_EN_
    | AccelConfig    // ACCEL_CONFIG_
    | GyroConfig     // GYRO_CONFIG_
    | SmplrtDiv      // SMPLRT_DIV_
    | AccelConfig2   // ACCEL_CONFIG2_
    | Config         // CONFIG_
    | IntStatus      // INT_STATUS_
    | FifoCountH     // FIFO_COUNT_H_
    | FifoRW         // FIFO_R_W_

  /** Accelerometer full-scale range enumerators. */
  datatype AccelRange = Accel2G | Accel4G | Accel8G | Accel16G

  /** Gyroscope full-scale range enumerators. */
  datatype GyroRange = Gyro250Dps | Gyro500Dps | Gyro1000Dps | Gyro2000Dps

  /** Digital low-pass filter bandwidth enumerators. */
  datatype Dlpf = Dlpf184Hz | Dlpf92Hz | Dlpf41Hz | Dlpf20Hz | Dlpf10Hz | Dlpf5Hz

  /** Magnetometer interconnect mode; the driver only ever asks whether it is
      pass-through, so every other mode of mpu9150.h is `MagOther`. */
  datatype MagMode = MagPassthrough | MagOther

  /** A value of a C++ enum parameter: one of its enumerators, or any other
      value of the underlying integer type cast to the enum. */
  datatype EnumArg<E> = Enumerator(e: E) | OutOfRange(raw: int)

  /** Values the driver writes into registers. */
  datatype Setting =
    | Reset                              // H_RESET_
    | ClockPll                           // CLKSEL_PLL_
    | PinCfg(pulse50us: bool, bypass: bool)
      // INT_PIN_CFG_ value: the or of INT_PULSE_50US_ and I2C_BYPASS_EN_ as flagged
    | RawRdyEnable                       // INT_RAW_RDY_EN_
    | IntDisable                         // INT_DISABLE_
    | UserCtrlFifoEnable                 // USER_CTRL_FIFO_EN_
    | UserCtrlFifoDisable                // USER_CTRL_FIFO_DISABLE_
    | FifoEnGyroAccel                    // FIFO_EN_GYRO_ | FIFO_EN_ACCEL_
    | FifoDisableAll                     // FIF_EN_DISABLE_ALL_
    | AccelSel(accel: AccelRange)        // the enumerator's own value
    | GyroSel(gyro: GyroRange)
    | DlpfSel(dlpf: Dlpf)
    | Divider(srd: byte)                 // sample-rate divider byte

  /** Constants of mpu9150.h the core depends on, left abstract. */
  datatype Header = Header(
    whoAmIMpu9150: byte,   // WHOAMI_MPU9150_: expected identity byte
    rawDataRdyInt: byte,   // RAW_DATA_RDY_INT_: data-ready bit of INT_STATUS_
    fifoOflowInt: byte,    // FIFO_OFLOW_INT_: FIFO-overflow bit of INT_STATUS_
    gMps2: real,           // G_MPS2_: standard gravity in m/s^2
    deg2Rad: real,         // DEG2RAD_: radians per degree
    tempScale: real)       // TEMP_SCALE_: counts per degree Celsius

  /** Half the span of a signed 16-bit count: full scale maps to 32767.5 counts. */
  const HalfSpan: real := 32767.5

  /** Full-scale accelerometer range in g. */
  function AccelFullScale(r: AccelRange): real {
    match r
    case Accel2G => 2.0
    case Accel4G => 4.0
    case Accel8G => 8.0
    case Accel16G => 16.0
  }

  /** Full-scale gyroscope range in degrees per second. */
  function GyroFullScale(r: GyroRange): real {
    match r
    case Gyro250Dps => 250.0
    case Gyro500Dps => 500.0
    case Gyro1000Dps => 1000.0
    case Gyro2000Dps => 2000.0
  }

  /** g per count for an accelerometer range. */
  function AccelScale(r: AccelRange): real {
    AccelFullScale(r) / HalfSpan
  }

  /** Degrees per second per count for a gyroscope range. */
  function GyroScale(r: GyroRange): real {
    GyroFullScale(r) / HalfSpan
  }

  /** The stored scale determines the range it was derived from, and a wider
      range always has a coarser scale. */
  lemma AccelScaleOrdered(r1: AccelRange, r2: AccelRange)
    ensures AccelScale(r1) == AccelScale(r2) <==> r1 == r2
    ensures AccelScale(r1) < AccelScale(r2) <==> AccelFullScale(r1) < AccelFullScale(r2)
  {
  }

  lemma GyroScaleOrdered(r1: GyroRange, r2: GyroRange)
    ensures GyroScale(r1) == GyroScale(r2) <==> r1 == r2
    ensures GyroScale(r1) < GyroScale(r2) <==> GyroFullScale(r1) < GyroFullScale(r2)
  {
  }

  /** A signed 16-bit count times the scale `fs / 32767.5` lies between
      `-fs - scale/2` and `fs - scale/2`: the count 32767 lands half a count
      inside `fs`, -32768 half a count below `-fs`. */
  lemma {:induction false} CountTimesScaleBounded(c: int, fs: real)
    requires IsInt16(c) && fs > 0.0
    ensures -fs - fs / HalfSpan / 2.0 <= c as real * (fs / HalfSpan) <= fs - fs / HalfSpan / 2.0
  {
    var s := fs / HalfSpan;
    assert s > 0.0;
    ProductNonNegative(c as real + 32768.0, s);
    ProductNonNegative(32767.0 - c as real, s);
    assert -32768.0 * s == -fs - s / 2.0;
    assert 32767.0 * s == fs - s / 2.0;
  }

  lemma ProductNonNegative(a: real, b: real)
    requires a >= 0.0 && b >= 0.0
    ensures a * b >= 0.0
  {
  }

  /** Every accelerometer count, scaled as the driver scales it, lies
      between `-FS - scale/2` and `FS - scale/2`: the count 32767 lands half
      a count inside `FS`, -32768 half a count below `-FS`. */
  lemma AccelCountsSpanRange(r: AccelRange, c: int)
    requires IsInt16(c)
    ensures -AccelFullScale(r) - AccelScale(r) / 2.0 <= c as real * AccelScale(r) <= AccelFullScale(r) - AccelScale(r) / 2.0
  {
    CountTimesScaleBounded(c, AccelFullScale(r));
  }

  /** The same for every gyroscope count and range. */
  lemma GyroCountsSpanRange(r: GyroRange, c: int)
    requires IsInt16(c)
    ensures -GyroFullScale(r) - GyroScale(r) / 2.0 <= c as real * GyroScale(r) <= GyroFullScale(r) - GyroScale(r) / 2.0
  {
    CountTimesScaleBounded(c, GyroFullScale(r));
  }
}
