# MPU-9150 driver core in Dafny

This project models the driver class `Mpu9150` of `src/mpu9150.cpp`, an
InvenSense MPU-9150 nine-axis IMU driver. It covers the following operations:

- initialisation (`Begin`);
- the interrupt and FIFO enable/disable calls;
- the four configuration calls (accelerometer range, gyroscope range,
  sample-rate divider, digital low-pass filter);
- the three single-sample reads (`Read()`, `Read(float*)`, `Read_raw`);
- FIFO draining (`ReadFifo`) and batch decoding (`ProcessFifoData`).

The driver talks to the chip through an `imu_` bus object. Its code is not
part of this model, so it is modelled as the class `Transport.Bus`. The bus
records every operation in a log (`Op`). An `Oracle` fixed at construction
decides each operation's outcome and the bytes it returns, indexed by the
operation's position in the log. The driver's next request depends only on
earlier answers, so every possible device behaviour is some oracle.

The driver object is the class `Driver.Mpu9150`. It groups its member
variables into three value records:

- `ConfigState`: magnetometer mode, identity byte, and each range, scale,
  filter and divider as requested and as active;
- `SampleState`: the data-ready flag, raw counts and converted values;
- `FifoState`: the overflow flag, FIFO count and bytes to read.

Its methods update these records in place, and write the caller's arrays
in place. Each method is proved against a pure function of the old state
and the oracle, and the properties the driver promises are lemmas about
those functions:

| Method | Specified by |
|---|---|
| `Begin` | `BeginModel`, shown equal to the run of the write plan `BeginPlan` under the reference semantics `Exec` |
| configuration calls | `WithAccelRange`, `WithGyroRange`, `WithDlpf`, `WithSrd` |
| reads | `DecodeFrame`, `Remap`, `Scale`, `Converted`, `RawLayout` |
| `ReadFifo` | `FifoPoll` |
| `ProcessFifoData` | `FifoRecord` and `ColumnsHold` |

Modules: `Bytes` (bytes and 16-bit big-endian fields), `Registers`
(registers, written settings, ranges and scales), `Transport` (the bus),
`Steps` (write plans and `Exec`), `Frames` (the 15-byte frame, the 12-byte
FIFO record, remap, scaling, temperature), `DriverState` (state records and
specification functions) and `Driver` (the class).

Behaviour of the code that the model keeps as written:

- The reset write at the start of `Begin` is issued but its outcome is
  ignored (src/mpu9150.cpp:49). `Steps.BeginSucceedsIff` shows it plays no
  part in the result.
- `Read()` computes the temperature as `count / TEMP_SCALE_ + 35`.
  `Read(float*)` computes `(count - 21) / TEMP_SCALE_ + 21`.
  `Frames.TemperatureFormulasDiffer` shows they differ by
  `14 + 21 / TEMP_SCALE_` for every count. Both are kept, as two functions.
- `ProcessFifoData` loops `for (i = 0; i < len; i += 12)`, so it decodes
  ceil(len/12) records. When `len` is not a multiple of 12, the last record
  reads up to 11 bytes past `len`. A count of complete records,
  floor(len/12), would stop earlier; the model follows the code. It
  requires the buffer to hold `12 * ceil(len/12)` bytes, and
  `Frames.RecordCountLeast` states the difference from floor.
- `Read_raw` stores accelerometer X Y Z at 0..2, gyroscope X Y Z at 3..5
  and temperature at 6. This is not the frame's transport order
  (temperature comes between accelerometer and gyroscope on the wire). The
  model follows the code.
- `ReadFifo` passes the drain length to a burst read whose count is a
  `uint8_t` (src/mpu9150.cpp:437), but returns the drain length unchanged.
  From 256 bytes on, the burst transfers `m mod 256` bytes while the result
  reports `m` (`DriverState.FifoPollBurst`).
- `ReadFifo` returns the drain length as an `int16_t`, so a drain length of
  2^15 or more reads as negative; 65535 reads as -1, the failure sentinel
  (`DriverState.FifoPollResult`).

## Model

| member | source | states |
|---|---|---|
| Bytes.Decode16 | src/mpu9150.cpp:284-290 | a byte pair read as `int16_t(hi) << 8 \| lo` is a 16-bit count, negative exactly when the high byte's top bit is set, and equal to `hi*256+lo` (minus 2^16 when negative) |
| Bytes.Decode16Encode16 | src/mpu9150.cpp:284-290 | encoding a 16-bit count as the big-endian pair the sensor sends and decoding it gives the count back |
| Bytes.Encode16Decode16 | src/mpu9150.cpp:284-290 | decoding a byte pair and re-encoding the count gives the pair back, so the decode loses nothing |
| Bytes.ToInt16Unique | src/mpu9150.cpp:284-290 | the value stored into an `int16_t` is the unique 16-bit value congruent to the integer modulo 2^16 |
| Frames.DecodeEncodeFrame | src/mpu9150.cpp:275-290 | the 15-byte frame (status, accel X Y Z, temperature, gyro X Y Z, big-endian) decodes back to the frame the sensor encoded |
| Frames.EncodeDecodeFrame | src/mpu9150.cpp:275-290 | every 15-byte buffer is the encoding of its decoded frame |
| Frames.RawLayout | src/mpu9150.cpp:361-369 | `Read_raw` stores accel X Y Z at 0..2, gyro X Y Z at 3..5 and temperature at 6, in sensor axes |
| Frames.RemapInvolution | src/mpu9150.cpp:292-299 | the axis remap (X from Y, Y from X, Z negated) applied twice is the identity |
| Frames.RemapPermutesAxes | src/mpu9150.cpp:292-299 | the remap swaps X and Y, negates Z only, and keeps the squared magnitude |
| Frames.ScaleRemapInSteps | src/mpu9150.cpp:292-299 | the per-axis products `count * scale * (-1 for Z) * unit` equal the remapped counts scaled by `scale * unit` |
| Frames.TemperatureFormulasDiffer | src/mpu9150.cpp:296 | the `Read()` and `Read(float*)` temperature formulas (lines 296 and 328) differ by `14 + 21/TEMP_SCALE_` for every count |
| Frames.FifoRecordOfEncoded | src/mpu9150.cpp:411-419 | record j of a FIFO buffer made of encoded 12-byte records (accel then gyro) decodes to the j-th record |
| Frames.RecordCount | src/mpu9150.cpp:411 | the loop `i = 0, 12, ...` while `i < len` runs ceil(len/12) times: zero only for `len == 0`, covers `len`, and the last record starts before `len` |
| Frames.RecordCountLeast | src/mpu9150.cpp:411 | ceil(len/12) is the least covering count; for a `len` that is not a multiple of 12 it is one more than the complete records and reaches past `len` |
| Frames.DrainLength | src/mpu9150.cpp:391-395 | the drain length is `len` when `len < fifo_count_` and the count otherwise: at most both, equal to one of them |
| Frames.BurstCount | src/mpu9150.cpp:437-439 | the `uint8_t` count of the burst read is below 256, at most the drain length, and congruent to it modulo 256 |
| Frames.BurstMatchesOnlyBelow256 | src/mpu9150.cpp:396-399 | the burst transfers exactly the drain length that `ReadFifo` returns if and only if it is below 256 |
| Registers.AccelScaleOrdered | src/mpu9150.cpp:130-165 | the accelerometer scale `FS/32767.5` determines its range, and wider ranges have coarser scales |
| Registers.GyroScaleOrdered | src/mpu9150.cpp:166-201 | the gyroscope scale `FS/32767.5` determines its range, and wider ranges have coarser scales |
| Registers.AccelCountsSpanRange | src/mpu9150.cpp:133-151 | every signed 16-bit count times the accelerometer scale `FS/32767.5` lies between `-FS - scale/2` and `FS - scale/2`: the count 32767 lands half a count inside `FS`, -32768 half a count below `-FS` |
| Registers.GyroCountsSpanRange | src/mpu9150.cpp:169-187 | every signed 16-bit count times the gyroscope scale `FS/32767.5` lies between `-FS - scale/2` and `FS - scale/2`: the count 32767 lands half a count inside `FS`, -32768 half a count below `-FS` |
| Steps.Exec | src/mpu9150.cpp:45-90 | a run of a plan issues at most one operation per step, at least one for a non-empty plan, and succeeds only after issuing all of them |
| Steps.ExecIssuesInOrder | src/mpu9150.cpp:45-90 | a run issues the plan's steps in order, one bus operation each, and every step before the last one issued went through |
| Steps.ExecStopsAtFirstAbort | src/mpu9150.cpp:45-90 | a run succeeds if and only if no step aborts, and a failed run stops at the step that aborted |
| Steps.ExecAppend | src/mpu9150.cpp:45-90 | running two plans in sequence is running the first, then the second only if the first got through |
| Steps.DefaultsAt | src/mpu9150.cpp:74-89 | the defaults come last in `Begin`'s plan, in order: 16 g, 2000 deg/s, 184 Hz to ACCEL_CONFIG2_ then CONFIG_, divider 0 |
| Steps.BeginSucceedsIff | src/mpu9150.cpp:45-90 | `Begin` succeeds if and only if every checked write and the WHOAMI read succeed and the identity matches; the reset outcome plays no part |
| DriverState.CommitAfterWrite | src/mpu9150.cpp:130-251 | each configuration call records the request, makes it active only when its write succeeds, and keeps every scale equal to `FS/32767.5` of its range |
| DriverState.BeginModelRunsPlan | src/mpu9150.cpp:45-90 | `Begin` step by step opens the bus, then is exactly the run of its plan: the same log, result and configuration |
| DriverState.BeginEstablishesDefaults | src/mpu9150.cpp:74-89 | after a successful `Begin` the identity byte is the expected one, the ranges are 16 g and 2000 deg/s with their scales, the filter 184 Hz and the divider 0 |
| DriverState.BeginFailsBeforeDefaults | src/mpu9150.cpp:53-62 | if the clock write or the identity check fails, `Begin` fails and no active setting changes |
| DriverState.AfterBeginKeepsScales | src/mpu9150.cpp:74-89 | wherever `Begin` stops, the active and requested scales still match their ranges |
| DriverState.FifoPollResult | src/mpu9150.cpp:375-403 | `ReadFifo` returns -1 on any failed transfer, 0 when the count is 0, else `min(len, count)` as an `int16_t` (the value itself below 2^15) |
| DriverState.FifoPollBounded | src/mpu9150.cpp:375-403 | for a buffer of fewer than 2^15 bytes (empty included) the result is -1 or lies between 0 and both `len` and the FIFO count |
| DriverState.FifoPollLatchesOverflow | src/mpu9150.cpp:380-384 | once the status byte is read, the overflow flag is its FIFO_OFLOW_INT_ bit whatever happens next; a failed status read changes no FIFO field |
| DriverState.FifoPollBurst | src/mpu9150.cpp:391-399 | a successful drain issues one burst read whose count equals the stored drain length if and only if it is below 256 |
| DriverState.ColumnsHoldNext | src/mpu9150.cpp:411-427 | writing record j, remapped and scaled, at index j of the six columns extends the decoded prefix by one record |
| DriverState.LastRecordCounts | src/mpu9150.cpp:413-418 | after the loop the stored accel and gyro counts are those of the last record decoded (unchanged if none) |
| Transport.Bus.WriteRegister | src/mpu9150.cpp:430-432 | a register write appends one write to the log with the oracle's outcome |
| Transport.Bus.ReadRegisters | src/mpu9150.cpp:433-436 | a register read appends one fetch and, when it succeeds, fills the first `count` bytes with the reply and leaves the rest |
| Transport.Bus.ReadFifo | src/mpu9150.cpp:437-440 | a burst read appends one drain and, when it succeeds, fills the first `count` bytes with the reply and leaves the rest |
| Driver.Mpu9150.Begin | src/mpu9150.cpp:45-90 | the log, result and configuration are those of `BeginModel`, and equally those of running `BeginPlan` and stopping at the first abort |
| Driver.Mpu9150.BeginDefault | src/mpu9150.cpp:42-44 | `Begin()` is `Begin(MAG_PASSTHROUGH)` |
| Driver.Mpu9150.EnableDrdyInt | src/mpu9150.cpp:91-105 | writes INT_PIN_CFG_ (50 us pulse, bypass only in pass-through mode), then INT_ENABLE_ only if that went through; succeeds if and only if both did |
| Driver.Mpu9150.DisableDrdyInt | src/mpu9150.cpp:106-111 | one write disabling the interrupt; the result is its outcome |
| Driver.Mpu9150.EnableFifo | src/mpu9150.cpp:112-120 | USER_CTRL_ FIFO enable, then FIFO_EN_ gyro and accel only if that went through |
| Driver.Mpu9150.DisableFifo | src/mpu9150.cpp:121-129 | USER_CTRL_ FIFO disable, then FIFO_EN_ all off only if that went through |
| Driver.Mpu9150.ConfigAccelRange | src/mpu9150.cpp:130-165 | an out-of-range argument writes nothing and changes nothing; otherwise one write, with the request recorded and committed on success |
| Driver.Mpu9150.ConfigGyroRange | src/mpu9150.cpp:166-201 | an out-of-range argument writes nothing and changes nothing; otherwise one write, with the request recorded and committed on success |
| Driver.Mpu9150.ConfigSrd | src/mpu9150.cpp:202-209 | one write to SMPLRT_DIV_; the stored divider changes only on success |
| Driver.Mpu9150.ConfigDlpfBandwidth | src/mpu9150.cpp:210-251 | the same selector goes to ACCEL_CONFIG2_ and then, only if that succeeded, to CONFIG_; the bandwidth is committed only when both succeed |
| Driver.Mpu9150.Read | src/mpu9150.cpp:271-301 | one 15-byte read from INT_STATUS_; succeeds if and only if it went through with the data-ready bit set, and then stores the decoded counts and `Converted` values; otherwise only clears the flag |
| Driver.Mpu9150.ReadValues | src/mpu9150.cpp:303-344 | as `Read` with the offset-21 temperature; `values` gets the remapped counts times the scales at 0..5 and the temperature at 7 and 9, nothing else |
| Driver.Mpu9150.ReadRaw | src/mpu9150.cpp:347-373 | as `Read`'s gate; on success the first seven entries are the counts in `RawLayout` order, the stored sample keeps its counts |
| Driver.Mpu9150.ReadFifo | src/mpu9150.cpp:375-403 | -1 for a null buffer; otherwise the result, log and FIFO fields are `FifoPoll`'s, and the buffer holds the burst reply |
| Driver.Mpu9150.ProcessFifoData | src/mpu9150.cpp:404-429 | -1 if any of the seven pointers is null, with no column and no stored count changed; otherwise ceil(len/12) as an `int16_t`, each column holding the remapped, scaled records and nothing past them changed |
| Driver.Mpu9150.DecodeRecords | src/mpu9150.cpp:410-428 | the loop decodes exactly ceil(len/12) records into the columns, keeps the tails and leaves the last record's counts stored |

## Left out

- `Config(i2c, addr)` (src/mpu9150.cpp:39-41): choosing the I2C bus and address belongs to the transport, which is abstract here.
- `delay(100)` after the reset: timing is not modelled.
- `getScales` (src/mpu9150.cpp:254-268): a getter outside the driver operations modelled here; the scales it returns are the `accelScale` and `gyroScale` fields of `ConfigState`.
- The header `mpu9150.h` is not part of this model. Its constants (WHOAMI_MPU9150_, RAW_DATA_RDY_INT_, FIFO_OFLOW_INT_, G_MPS2_, DEG2RAD_, TEMP_SCALE_) are the `Header` record given to the constructor. Its member initialisers are the constructor's `init` configuration. Register addresses and written values are distinct constructors of `Reg` and `Setting`.
- Floating point: `float` values are exact reals, so rounding and the order of the products are not modelled. The scales are exact rationals `FS/32767.5`.
- The declared types of `fifo_count_` and `bytes_to_read_` are in the header. The count is the unsigned big-endian value `hi*256+lo`, and the drain length is an unbounded natural number.
- `size_t` is an unbounded natural number, so a length's upper bound is not modelled.
- Out-of-range enum arguments are the `OutOfRange` case of `EnumArg`. All magnetometer modes other than pass-through are `MagOther`.
- Aliasing: `ProcessFifoData` requires its six output arrays to be distinct, and `ReadFifo` requires the caller's buffer not to be the driver's own `data_buf_`.
- `ProcessFifoData` requires the input buffer to hold `12 * ceil(len/12)` bytes and each output array ceil(len/12) entries. The code reads and writes that far without checking.
- `ReadFifo` requires the caller's buffer to hold at least `len` bytes, reading `len` as the buffer's size. The code writes only `min(len, count) mod 256` bytes into it and does not check its size.
- `Read(float*)` and `Read_raw` do not check `values` for null; the model requires an array of at least 10 (respectively 7) entries.
- Driver.Mpu9150.Begin: when the WHOAMI read fails, the model leaves `whoAmI` unchanged, although the transport promises nothing about the byte it was reading into.
- Driver.Mpu9150.ReadFifo: says nothing about the caller's buffer after a failed burst read, because the transport promises nothing about it.
- Driver.Mpu9150.Read: says nothing about `data_buf_` after a failed read, for the same reason.
