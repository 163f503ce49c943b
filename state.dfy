/** The driver object's state as values, and the functions its methods are
    specified against: the configuration `Begin` leaves behind and the
    sample a decoded frame turns into. */
module DriverState {
  import opened Bytes
  import opened Registers
  import opened Transport
  import opened Steps
  import opened Frames

  /** The configuration fields: the magnetometer mode, the identity byte
      read by `Begin`, and each setting as requested and as active. */
  datatype ConfigState = ConfigState(
    magMode: MagMode,                                          // mag_mode_
    whoAmI: byte,                                              // who_am_i_
    requestedAccelRange: AccelRange, requestedAccelScale: real,
    accelRange: AccelRange, accelScale: real,
    requestedGyroRange: GyroRange, requestedGyroScale: real,
    gyroRange: GyroRange, gyroScale: real,
    requestedDlpf: Dlpf, dlpfBandwidth: Dlpf,
    srd: byte)

  /** The latest sample: the data-ready flag, the raw counts in sensor axes
      and the converted values in the host frame. */
  datatype SampleState = SampleState(
    newImuData: bool,
    accelCnts: Axes, tempCnts: int, gyroCnts: Axes,
    accel: Vec, temp: real, gyro: Vec)

  /** What the last FIFO poll found. */
  datatype FifoState = FifoState(overflowed: bool, count: nat, bytesToRead: nat)

  /** The active scales are those of the active ranges, and the requested
      scales those of the requested ranges. */
  predicate ScalesMatch(c: ConfigState) {
    && c.accelScale == AccelScale(c.accelRange) && c.gyroScale == GyroScale(c.gyroRange)
    && c.requestedAccelScale == AccelScale(c.requestedAccelRange)
    && c.requestedGyroScale == GyroScale(c.requestedGyroRange)
  }

  // Configuration updates.

  /** The configuration after `ConfigAccelRange(r)` whose write returned
      `ok`: the request is always recorded, the active range and scale only
      on success. */
  function WithAccelRange(c: ConfigState, r: AccelRange, ok: bool): ConfigState {
    c.(requestedAccelRange := r, requestedAccelScale := AccelScale(r),
       accelRange := if ok then r else c.accelRange,
       accelScale := if ok then AccelScale(r) else c.accelScale)
  }

  function WithGyroRange(c: ConfigState, r: GyroRange, ok: bool): ConfigState {
    c.(requestedGyroRange := r, requestedGyroScale := GyroScale(r),
       gyroRange := if ok then r else c.gyroRange,
       gyroScale := if ok then GyroScale(r) else c.gyroScale)
  }

  function WithDlpf(c: ConfigState, b: Dlpf, ok: bool): ConfigState {
    c.(requestedDlpf := b, dlpfBandwidth := if ok then b else c.dlpfBandwidth)
  }

  function WithSrd(c: ConfigState, srd: byte, ok: bool): ConfigState {
    c.(srd := if ok then srd else c.srd)
  }

  /** A committed setting is exactly the requested one, and a failed write
      changes no active setting; each update keeps the scales matching
      their ranges. */
  lemma CommitAfterWrite(c: ConfigState, a: AccelRange, g: GyroRange, b: Dlpf, srd: byte, ok: bool)
    requires ScalesMatch(c)
    ensures var c' := WithAccelRange(c, a, ok);
      && ScalesMatch(c')
      && c'.requestedAccelRange == a
      && (!ok ==> c'.accelRange == c.accelRange && c'.accelScale == c.accelScale)
      && (ok ==> c'.accelRange == a && c'.accelScale == AccelScale(a))
    ensures var c' := WithGyroRange(c, g, ok);
      && ScalesMatch(c')
      && c'.requestedGyroRange == g
      && (!ok ==> c'.gyroRange == c.gyroRange && c'.gyroScale == c.gyroScale)
      && (ok ==> c'.gyroRange == g && c'.gyroScale == GyroScale(g))
    ensures var c' := WithDlpf(c, b, ok);
      && c'.requestedDlpf == b
      && c'.dlpfBandwidth == (if ok then b else c.dlpfBandwidth)
    ensures WithSrd(c, srd, ok).srd == (if ok then srd else c.srd)
  {
  }

  // Initialisation.

  /** The log `Begin` leaves behind, its result and the configuration. */
  datatype Outcome = Outcome(log: seq<Op>, ok: bool, config: ConfigState)

  /** `Begin(mode)` step by step, starting from the configuration `c` and
      the log `log0`, against the device `o` whose expected identity byte
      is `id`: reset (outcome ignored), PLL clock, identity check. */
  function BeginModel(c: ConfigState, mode: MagMode, o: Oracle, id: byte, log0: seq<Op>): Outcome {
    var c := c.(magMode := mode);
    var log := log0 + [Opened];
    var log := log + [Wrote(PwrMgmt1, Reset, o.ok(|log|))];
    var clk := o.ok(|log|);
    var log := log + [Wrote(PwrMgmt1, ClockPll, clk)];
    if !clk then Outcome(log, false, c) else
    var at := |log|;
    var log := log + [Fetched(WhoAmI, 1, o.ok(at))];
    if !o.ok(at) then Outcome(log, false, c) else
    var c := c.(whoAmI := o.byteAt(at, 0));
    if c.whoAmI != id then Outcome(log, false, c) else
    ConnectModel(c, o, log)
  }

  /** The rest of `Begin` once the identity matched: I2C pass-through (in
      pass-through mode only) and the PLL clock again. */
  function ConnectModel(c: ConfigState, o: Oracle, log: seq<Op>): Outcome {
    var bypass := c.magMode.MagPassthrough? ==> o.ok(|log|);
    var log := if c.magMode.MagPassthrough? then log + [Wrote(IntPinCfg, PinCfg(false, true), o.ok(|log|))] else log;
    if !bypass then Outcome(log, false, c) else
    var clk := o.ok(|log|);
    var log := log + [Wrote(PwrMgmt1, ClockPll, clk)];
    if !clk then Outcome(log, false, c) else
    DefaultsModel(c, o, log)
  }

  /** The defaults of `Begin`, each through its configuration method: 16 g,
      then 2000 deg/s, ... */
  function DefaultsModel(c: ConfigState, o: Oracle, log: seq<Op>): Outcome {
    var acc := o.ok(|log|);
    var log := log + [Wrote(AccelConfig, AccelSel(Accel16G), acc)];
    var c := WithAccelRange(c, Accel16G, acc);
    if !acc then Outcome(log, false, c) else
    var gyr := o.ok(|log|);
    var log := log + [Wrote(GyroConfig, GyroSel(Gyro2000Dps), gyr)];
    var c := WithGyroRange(c, Gyro2000Dps, gyr);
    if !gyr then Outcome(log, false, c) else
    FilterModel(c, o, log)
  }

  /** ... then 184 Hz to both filter registers and sample-rate divider 0. */
  function FilterModel(c: ConfigState, o: Oracle, log: seq<Op>): Outcome {
    var f2 := o.ok(|log|);
    var log := log + [Wrote(AccelConfig2, DlpfSel(Dlpf184Hz), f2)];
    if !f2 then Outcome(log, false, WithDlpf(c, Dlpf184Hz, false)) else
    var f1 := o.ok(|log|);
    var log := log + [Wrote(Config, DlpfSel(Dlpf184Hz), f1)];
    var c := WithDlpf(c, Dlpf184Hz, f1);
    if !f1 then Outcome(log, false, c) else
    var div := o.ok(|log|);
    var log := log + [Wrote(SmplrtDiv, Divider(0), div)];
    Outcome(log, div, WithSrd(c, 0, div))
  }

  /** The configuration `Begin(mode)` leaves behind when it found `c` and
      its plan, run from log position `n`, issued `issued` steps: each
      requested value is set once its step is issued, each active value
      once its write went through. */
  function AfterBegin(c: ConfigState, mode: MagMode, o: Oracle, n: nat, issued: nat): ConfigState {
    var d := DefaultsAt(mode);
    c.(magMode := mode,
       whoAmI := if issued > 2 && o.ok(n + 2) then o.byteAt(n + 2, 0) else c.whoAmI,
       requestedAccelRange := if issued > d then Accel16G else c.requestedAccelRange,
       requestedAccelScale := if issued > d then AccelScale(Accel16G) else c.requestedAccelScale,
       accelRange := if issued > d && o.ok(n + d) then Accel16G else c.accelRange,
       accelScale := if issued > d && o.ok(n + d) then AccelScale(Accel16G) else c.accelScale,
       requestedGyroRange := if issued > d + 1 then Gyro2000Dps else c.requestedGyroRange,
       requestedGyroScale := if issued > d + 1 then GyroScale(Gyro2000Dps) else c.requestedGyroScale,
       gyroRange := if issued > d + 1 && o.ok(n + d + 1) then Gyro2000Dps else c.gyroRange,
       gyroScale := if issued > d + 1 && o.ok(n + d + 1) then GyroScale(Gyro2000Dps) else c.gyroScale,
       requestedDlpf := if issued > d + 2 then Dlpf184Hz else c.requestedDlpf,
       dlpfBandwidth := if issued > d + 3 && o.ok(n + d + 3) then Dlpf184Hz else c.dlpfBandwidth,
       srd := if issued > d + 4 && o.ok(n + d + 4) then 0 else c.srd)
  }

  /** `Begin` runs its plan: it opens the bus, then issues the plan's steps
      in order and stops at the first that aborts; it succeeds exactly when
      the run does, and its configuration is the one the issued steps set. */
  lemma {:induction false} BeginModelRunsPlan(c: ConfigState, mode: MagMode, o: Oracle, id: byte, log0: seq<Op>)
    ensures
      var n := |log0| + 1;
      var run := Exec(BeginPlan(mode), o, id, n);
      BeginModel(c, mode, o, id, log0) == Outcome(log0 + [Opened] + run.ops, run.success, AfterBegin(c, mode, o, n, |run.ops|))
  {
    var plan := BeginPlan(mode);
    assert plan[0] == Put(PwrMgmt1, Reset, false);
    assert plan[1] == Put(PwrMgmt1, ClockPll, true);
    assert plan[2] == VerifyId;
    var L := log0 + [Opened];
    var n := |L|;
    var done: seq<Op> := [];
    assert L + done == L;
    IssuedPrefixNext(plan, o, id, n, done);
    LogAppend(L, done, Issued(plan[0], o, n));
    done := done + [Issued(plan[0], o, n)];
    if !o.ok(n + 1) {
      IssuedPrefixStop(plan, o, id, n, done);
      LogAppend(L, done, Issued(plan[1], o, n + 1));
      return;
    }
    IssuedPrefixNext(plan, o, id, n, done);
    LogAppend(L, done, Issued(plan[1], o, n + 1));
    done := done + [Issued(plan[1], o, n + 1)];
    if !o.ok(n + 2) || o.byteAt(n + 2, 0) != id {
      IssuedPrefixStop(plan, o, id, n, done);
      LogAppend(L, done, Issued(plan[2], o, n + 2));
      return;
    }
    IssuedPrefixNext(plan, o, id, n, done);
    LogAppend(L, done, Issued(plan[2], o, n + 2));
    done := done + [Issued(plan[2], o, n + 2)];
    ConnectRunsPlan(c, mode, o, id, log0, done);
  }

  /** The configuration `Begin` has once the identity matched. */
  function Identified(c: ConfigState, mode: MagMode, o: Oracle, n: nat): ConfigState {
    c.(magMode := mode, whoAmI := o.byteAt(n + 2, 0))
  }

  /** `BeginModelRunsPlan` after the identity check. */
  lemma {:induction false} ConnectRunsPlan(c: ConfigState, mode: MagMode, o: Oracle, id: byte, log0: seq<Op>, done: seq<Op>)
    requires IssuedPrefix(BeginPlan(mode), o, id, |log0| + 1, done) && |done| == 3
    requires o.ok(|log0| + 3)
    ensures
      var n := |log0| + 1;
      var run := Exec(BeginPlan(mode), o, id, n);
      ConnectModel(Identified(c, mode, o, n), o, log0 + [Opened] + done)
        == Outcome(log0 + [Opened] + run.ops, run.success, AfterBegin(c, mode, o, n, |run.ops|))
  {
    var plan, d := BeginPlan(mode), DefaultsAt(mode);
    assert mode.MagPassthrough? ==> plan[3] == Put(IntPinCfg, PinCfg(false, true), true);
    assert plan[d - 1] == Put(PwrMgmt1, ClockPll, true);
    var L := log0 + [Opened];
    var n := |L|;
    var done := done;
    if mode.MagPassthrough? {
      if !o.ok(n + 3) {
        IssuedPrefixStop(plan, o, id, n, done);
        LogAppend(L, done, Issued(plan[3], o, n + 3));
        return;
      }
      IssuedPrefixNext(plan, o, id, n, done);
      LogAppend(L, done, Issued(plan[3], o, n + 3));
      done := done + [Issued(plan[3], o, n + 3)];
    }
    if !o.ok(n + d - 1) {
      IssuedPrefixStop(plan, o, id, n, done);
      LogAppend(L, done, Issued(plan[d - 1], o, n + d - 1));
      return;
    }
    IssuedPrefixNext(plan, o, id, n, done);
    LogAppend(L, done, Issued(plan[d - 1], o, n + d - 1));
    done := done + [Issued(plan[d - 1], o, n + d - 1)];
    DefaultsRunPlan(c, mode, o, id, log0, done);
  }

  /** `BeginModelRunsPlan` from the defaults on. */
  lemma {:induction false} DefaultsRunPlan(c: ConfigState, mode: MagMode, o: Oracle, id: byte, log0: seq<Op>, done: seq<Op>)
    requires IssuedPrefix(BeginPlan(mode), o, id, |log0| + 1, done) && |done| == DefaultsAt(mode)
    requires o.ok(|log0| + 3)
    ensures
      var n := |log0| + 1;
      var run := Exec(BeginPlan(mode), o, id, n);
      DefaultsModel(Identified(c, mode, o, n), o, log0 + [Opened] + done)
        == Outcome(log0 + [Opened] + run.ops, run.success, AfterBegin(c, mode, o, n, |run.ops|))
  {
    var plan, d := BeginPlan(mode), DefaultsAt(mode);
    var L := log0 + [Opened];
    var n := |L|;
    var done := done;
    if !o.ok(n + d) {
      IssuedPrefixStop(plan, o, id, n, done);
      LogAppend(L, done, Issued(plan[d], o, n + d));
      return;
    }
    IssuedPrefixNext(plan, o, id, n, done);
    LogAppend(L, done, Issued(plan[d], o, n + d));
    done := done + [Issued(plan[d], o, n + d)];
    if !o.ok(n + d + 1) {
      IssuedPrefixStop(plan, o, id, n, done);
      LogAppend(L, done, Issued(plan[d + 1], o, n + d + 1));
      return;
    }
    IssuedPrefixNext(plan, o, id, n, done);
    LogAppend(L, done, Issued(plan[d + 1], o, n + d + 1));
    done := done + [Issued(plan[d + 1], o, n + d + 1)];
    FilterRunsPlan(c, mode, o, id, log0, done);
  }

  /** `BeginModelRunsPlan` from the filter writes on. */
  lemma {:induction false} FilterRunsPlan(c: ConfigState, mode: MagMode, o: Oracle, id: byte, log0: seq<Op>, done: seq<Op>)
    requires IssuedPrefix(BeginPlan(mode), o, id, |log0| + 1, done) && |done| == DefaultsAt(mode) + 2
    requires o.ok(|log0| + 3)
    requires o.ok(|log0| + 1 + DefaultsAt(mode)) && o.ok(|log0| + 2 + DefaultsAt(mode))
    ensures
      var n := |log0| + 1;
      var run := Exec(BeginPlan(mode), o, id, n);
      var c' := WithGyroRange(WithAccelRange(Identified(c, mode, o, n), Accel16G, true), Gyro2000Dps, true);
      FilterModel(c', o, log0 + [Opened] + done)
        == Outcome(log0 + [Opened] + run.ops, run.success, AfterBegin(c, mode, o, n, |run.ops|))
  {
    var plan, d := BeginPlan(mode), DefaultsAt(mode);
    var L := log0 + [Opened];
    var n := |L|;
    var done := done;
    if !o.ok(n + d + 2) {
      IssuedPrefixStop(plan, o, id, n, done);
      LogAppend(L, done, Issued(plan[d + 2], o, n + d + 2));
      return;
    }
    IssuedPrefixNext(plan, o, id, n, done);
    LogAppend(L, done, Issued(plan[d + 2], o, n + d + 2));
    done := done + [Issued(plan[d + 2], o, n + d + 2)];
    if !o.ok(n + d + 3) {
      IssuedPrefixStop(plan, o, id, n, done);
      LogAppend(L, done, Issued(plan[d + 3], o, n + d + 3));
      return;
    }
    IssuedPrefixNext(plan, o, id, n, done);
    LogAppend(L, done, Issued(plan[d + 3], o, n + d + 3));
    done := done + [Issued(plan[d + 3], o, n + d + 3)];
    if !o.ok(n + d + 4) {
      IssuedPrefixStop(plan, o, id, n, done);
      LogAppend(L, done, Issued(plan[d + 4], o, n + d + 4));
      return;
    }
    IssuedPrefixNext(plan, o, id, n, done);
    LogAppend(L, done, Issued(plan[d + 4], o, n + d + 4));
    done := done + [Issued(plan[d + 4], o, n + d + 4)];
    IssuedPrefixEnd(plan, o, id, n, done);
  }

  /** A successful `Begin` leaves the driver in its default configuration:
      the identity byte it read is the expected one, both ranges are 16 g
      and 2000 deg/s with their scales, the filter is at 184 Hz and the
      divider at 0. */
  lemma BeginEstablishesDefaults(c: ConfigState, mode: MagMode, o: Oracle, id: byte, n: nat)
    ensures
      var run := Exec(BeginPlan(mode), o, id, n);
      var c' := AfterBegin(c, mode, o, n, |run.ops|);
      run.success ==>
        && c'.magMode == mode && c'.whoAmI == id
        && c'.accelRange == c'.requestedAccelRange == Accel16G
        && c'.accelScale == c'.requestedAccelScale == AccelScale(Accel16G)
        && c'.gyroRange == c'.requestedGyroRange == Gyro2000Dps
        && c'.gyroScale == c'.requestedGyroScale == GyroScale(Gyro2000Dps)
        && c'.dlpfBandwidth == c'.requestedDlpf == Dlpf184Hz
        && c'.srd == 0
        && ScalesMatch(c')
  {
    BeginSucceedsIff(mode, o, id, n);
  }

  /** When the clock write or the identity check fails, `Begin` fails and
      no active setting changes. */
  lemma BeginFailsBeforeDefaults(c: ConfigState, mode: MagMode, o: Oracle, id: byte, n: nat)
    ensures
      var run := Exec(BeginPlan(mode), o, id, n);
      var c' := AfterBegin(c, mode, o, n, |run.ops|);
      !(o.ok(n + 1) && o.ok(n + 2) && o.byteAt(n + 2, 0) == id) ==>
        && !run.success
        && c'.accelRange == c.accelRange && c'.accelScale == c.accelScale
        && c'.gyroRange == c.gyroRange && c'.gyroScale == c.gyroScale
        && c'.dlpfBandwidth == c.dlpfBandwidth && c'.srd == c.srd
  {
    var plan := BeginPlan(mode);
    ExecIssuesInOrder(plan, o, id, n);
    BeginSucceedsIff(mode, o, id, n);
    assert plan[1] == Put(PwrMgmt1, ClockPll, true);
    assert plan[2] == VerifyId;
  }

  /** Whatever `Begin` reached, the scales it leaves match their ranges if
      they did before. */
  lemma AfterBeginKeepsScales(c: ConfigState, mode: MagMode, o: Oracle, n: nat, issued: nat)
    requires ScalesMatch(c)
    ensures ScalesMatch(AfterBegin(c, mode, o, n, issued))
  {
  }

  // Samples.

  /** The sample `Read()` stores for the frame `f`: the counts as sent, the
      accelerometer in m/s^2 and the gyroscope in rad/s, both remapped to
      the host axes, and the die temperature. */
  function Converted(f: Frame, c: ConfigState, h: Header): SampleState
    requires WellFormed(f) && h.tempScale != 0.0
  {
    SampleState(true, f.accel, f.temp, f.gyro,
                Scale(Remap(f.accel), Factor(c.accelScale, h.gMps2)),
                DieTemp(f.temp, h.tempScale),
                Scale(Remap(f.gyro), Factor(c.gyroScale, h.deg2Rad)))
  }

  // FIFO polls.

  /** What one `ReadFifo(data, len)` poll returns, issues and leaves in the
      FIFO fields. */
  datatype Poll = Poll(ret: int, ops: seq<Op>, fifo: FifoState)

  /** The first two reads of `ReadFifo(data, len)`, the bus log at length
      `n` when they start and `oflow` the overflow bit of INT_STATUS_: the
      status byte, whose overflow bit is latched, then the two count bytes,
      high byte first. `ret` is -1 if either read fails, 0 otherwise. */
  function CountPoll(f: FifoState, o: Oracle, n: nat, oflow: byte): Poll {
    if !o.ok(n) then Poll(-1, [Fetched(IntStatus, 1, false)], f)
    else
      var f1 := f.(overflowed := HasBits(o.byteAt(n, 0), oflow));
      var read := [Fetched(IntStatus, 1, true), Fetched(FifoCountH, 2, o.ok(n + 1))];
      if !o.ok(n + 1) then Poll(-1, read, f1)
      else Poll(0, read, f1.(count := BigEndian16(o.byteAt(n + 1, 0), o.byteAt(n + 1, 1))))
  }

  /** `ReadFifo(data, len)` with a non-null `data`: after the two reads of
      `CountPoll`, drain `min(len, count)` bytes if the count is positive.
      The burst read's count is 8 bits wide. */
  function FifoPoll(f: FifoState, o: Oracle, n: nat, len: nat, oflow: byte): Poll {
    var p := CountPoll(f, o, n, oflow);
    if p.ret == -1 || p.fifo.count == 0 then p
    else
      var m := DrainLength(len, p.fifo.count);
      var ok := o.ok(n + 2);
      Poll(if ok then ToInt16(m) else -1,
           p.ops + [Drained(FifoRW, BurstCount(m), ok)],
           p.fifo.(bytesToRead := m))
  }

  /** The poll returns -1 when a transfer fails; 0 when every read succeeds
      and the FIFO is empty, or when `len` is 0 and the burst read succeeds;
      and otherwise `min(len, count)` taken as a 16-bit value, which is the
      drain length itself below 2^15 (65535 reads as -1). */
  lemma FifoPollResult(f: FifoState, o: Oracle, n: nat, len: nat, oflow: byte)
    ensures var p := FifoPoll(f, o, n, len, oflow);
      var count := BigEndian16(o.byteAt(n + 1, 0), o.byteAt(n + 1, 1));
      var m := DrainLength(len, count);
      && (!o.ok(n) || !o.ok(n + 1) ==> p.ret == -1)
      && (o.ok(n) && o.ok(n + 1) && count == 0 ==> p.ret == 0)
      && (o.ok(n) && o.ok(n + 1) && count > 0 ==>
            && (!o.ok(n + 2) ==> p.ret == -1)
            && (o.ok(n + 2) ==> p.ret == ToInt16(m))
            && (o.ok(n + 2) && m < 32768 ==> p.ret == m)
            && (o.ok(n + 2) && len == 0 ==> p.ret == 0))
  {
    var p := FifoPoll(f, o, n, len, oflow);
    var q := CountPoll(f, o, n, oflow);
    if o.ok(n) && o.ok(n + 1) {
      var count := BigEndian16(o.byteAt(n + 1, 0), o.byteAt(n + 1, 1));
      assert q.ret == 0 && q.fifo.count == count;
      if count > 0 && o.ok(n + 2) {
        var m := DrainLength(len, count);
        assert p.ret == ToInt16(m);
        if m < 32768 {
          ToInt16Unique(m, m);
        }
      }
    }
  }

  /** Whenever the caller's buffer holds fewer than 2^15 bytes, a poll
      returns -1 or a count no larger than `len` or the FIFO count. */
  lemma {:induction false} FifoPollBounded(f: FifoState, o: Oracle, n: nat, len: nat, oflow: byte)
    requires len < 32768
    ensures var p := FifoPoll(f, o, n, len, oflow);
      p.ret == -1 || (0 <= p.ret <= len && p.ret <= p.fifo.count)
  {
    FifoPollResult(f, o, n, len, oflow);
    var p := FifoPoll(f, o, n, len, oflow);
    if o.ok(n) && o.ok(n + 1) {
      var count := BigEndian16(o.byteAt(n + 1, 0), o.byteAt(n + 1, 1));
      var q := CountPoll(f, o, n, oflow);
      assert q.ret == 0 && q.fifo.count == count;
      if count > 0 && o.ok(n + 2) {
        var m := DrainLength(len, count);
        assert p.fifo.count == count && p.ret == m;
      }
    }
  }

  /** The overflow flag is latched from the status byte whenever it was
      read, whatever happens afterwards; a failed status read leaves every
      FIFO field as it was. */
  lemma FifoPollLatchesOverflow(f: FifoState, o: Oracle, n: nat, len: nat, oflow: byte)
    ensures var p := FifoPoll(f, o, n, len, oflow);
      && (o.ok(n) ==> p.fifo.overflowed == HasBits(o.byteAt(n, 0), oflow))
      && (!o.ok(n) ==> p.fifo == f)
  {
  }

  /** The burst read transfers the drain length only while it is below 256:
      from 256 on, the result reports more bytes than were drained. */
  lemma FifoPollBurst(f: FifoState, o: Oracle, n: nat, len: nat, oflow: byte)
    requires o.ok(n) && o.ok(n + 1) && o.ok(n + 2)
    requires BigEndian16(o.byteAt(n + 1, 0), o.byteAt(n + 1, 1)) > 0
    ensures var p := FifoPoll(f, o, n, len, oflow);
      && |p.ops| == 3 && p.ops[2].Drained?
      && (p.ops[2].count == p.fifo.bytesToRead <==> p.fifo.bytesToRead < 256)
  {
    BurstMatchesOnlyBelow256(FifoPoll(f, o, n, len, oflow).fifo.bytesToRead);
  }

  // FIFO records.

  /** Entries `0` to `c - 1` of the six columns hold records `0` to `c - 1`
      of `data`, remapped to the host axes and scaled by `ka` (accelerometer)
      and `kg` (gyroscope). */
  ghost predicate ColumnsHold(data: seq<byte>, c: nat, ka: real, kg: real,
                              gx: seq<real>, gy: seq<real>, gz: seq<real>,
                              ax: seq<real>, ay: seq<real>, az: seq<real>)
  {
    && RecordLen * c <= |data|
    && c <= |gx| && c <= |gy| && c <= |gz| && c <= |ax| && c <= |ay| && c <= |az|
    && forall j :: 0 <= j < c ==>
         var a := Scale(Remap(FifoRecord(data, j).accel), ka);
         var g := Scale(Remap(FifoRecord(data, j).gyro), kg);
         && ax[j] == a.x && ay[j] == a.y && az[j] == a.z
         && gx[j] == g.x && gy[j] == g.y && gz[j] == g.z
  }

  /** Writing record `c`, converted, at index `c` of the six columns extends
      the decoded prefix by one. */
  lemma {:induction false} ColumnsHoldNext(data: seq<byte>, c: nat, ka: real, kg: real,
                                           gx: seq<real>, gy: seq<real>, gz: seq<real>,
                                           ax: seq<real>, ay: seq<real>, az: seq<real>)
    requires ColumnsHold(data, c, ka, kg, gx, gy, gz, ax, ay, az)
    requires RecordLen * (c + 1) <= |data|
    requires c < |gx| && c < |gy| && c < |gz| && c < |ax| && c < |ay| && c < |az|
    ensures var a := Scale(Remap(FifoRecord(data, c).accel), ka);
      var g := Scale(Remap(FifoRecord(data, c).gyro), kg);
      ColumnsHold(data, c + 1, ka, kg, gx[c := g.x], gy[c := g.y], gz[c := g.z],
                  ax[c := a.x], ay[c := a.y], az[c := a.z])
  {
    var a := Scale(Remap(FifoRecord(data, c).accel), ka);
    var g := Scale(Remap(FifoRecord(data, c).gyro), kg);
    var gx', gy', gz' := gx[c := g.x], gy[c := g.y], gz[c := g.z];
    var ax', ay', az' := ax[c := a.x], ay[c := a.y], az[c := a.z];
    forall j | 0 <= j < c + 1
      ensures var a := Scale(Remap(FifoRecord(data, j).accel), ka);
        var g := Scale(Remap(FifoRecord(data, j).gyro), kg);
        && ax'[j] == a.x && ay'[j] == a.y && az'[j] == a.z
        && gx'[j] == g.x && gy'[j] == g.y && gz'[j] == g.z
    {
      if j < c {
        assert ax'[j] == ax[j] && ay'[j] == ay[j] && az'[j] == az[j];
        assert gx'[j] == gx[j] && gy'[j] == gy[j] && gz'[j] == gz[j];
      }
    }
  }

  /** The sample after the first `c` records of `data` went through
      `ProcessFifoData`: the counts of the last one, sensor axes. */
  function LastRecordCounts(s: SampleState, data: seq<byte>, c: nat): (t: SampleState)
    requires RecordLen * c <= |data|
    ensures c == 0 ==> t == s
    ensures c > 0 ==> t.accelCnts == FifoRecord(data, c - 1).accel && t.gyroCnts == FifoRecord(data, c - 1).gyro
    ensures t.(accelCnts := s.accelCnts, gyroCnts := s.gyroCnts) == s
  {
    if c == 0 then s
    else s.(accelCnts := FifoRecord(data, c - 1).accel, gyroCnts := FifoRecord(data, c - 1).gyro)
  }

  /** Overwriting index `j` keeps the agreement of a column with `o` past `j`. */
  lemma {:induction false} TailKept(s: seq<real>, o: seq<real>, j: nat, v: real)
    requires j < |s| && j <= |o| && s[j..] == o[j..]
    ensures s[j := v][j + 1..] == o[j + 1..]
  {
    assert s[j + 1..] == o[j + 1..] by {
      assert s[j..][1..] == o[j..][1..];
    }
  }

  /** Six references, none equal to another. */
  predicate Distinct6<T>(a: array?<T>, b: array?<T>, c: array?<T>, d: array?<T>, e: array?<T>, f: array?<T>) {
    && a != b && a != c && a != d && a != e && a != f
    && b != c && b != d && b != e && b != f
    && c != d && c != e && c != f
    && d != e && d != f
    && e != f
  }
}
