/** Structured views of the byte buffers the driver decodes: the 15-byte
    sample frame read from INT_STATUS_ on, and the 12-byte records the FIFO
    delivers; the fixed axis remap; the scaling into physical units. */
module Frames {
  import opened Bytes

  /** Three counts, one per sensor axis (`accel_cnts_`, `gyro_cnts_`). */
  datatype Axes = Axes(x: int, y: int, z: int)

  /** Three converted values, one per axis (`accel_`, `gyro_`). */
  datatype Vec = Vec(x: real, y: real, z: real)

  predicate IsAxes(v: Axes) {
    IsInt16(v.x) && IsInt16(v.y) && IsInt16(v.z)
  }

  /** The three big-endian counts in the six bytes from `off` on. */
  function DecodeAxes(b: seq<byte>, off: nat): (v: Axes)
    requires off + 6 <= |b|
    ensures IsAxes(v)
  {
    Axes(Decode16(b[off], b[off + 1]), Decode16(b[off + 2], b[off + 3]), Decode16(b[off + 4], b[off + 5]))
  }

  function EncodeAxes(v: Axes): (b: seq<byte>)
    requires IsAxes(v)
    ensures |b| == 6
  {
    [Encode16(v.x).0, Encode16(v.x).1,
     Encode16(v.y).0, Encode16(v.y).1,
     Encode16(v.z).0, Encode16(v.z).1]
  }

  lemma DecodeEncodeAxes(v: Axes, pre: seq<byte>, post: seq<byte>)
    requires IsAxes(v)
    ensures DecodeAxes(pre + EncodeAxes(v) + post, |pre|) == v
  {
    var b := pre + EncodeAxes(v) + post;
    var k := |pre|;
    Decode16Encode16(v.x);
    Decode16Encode16(v.y);
    Decode16Encode16(v.z);
    assert b[k] == Encode16(v.x).0 && b[k + 1] == Encode16(v.x).1;
    assert b[k + 2] == Encode16(v.y).0 && b[k + 3] == Encode16(v.y).1;
    assert b[k + 4] == Encode16(v.z).0 && b[k + 5] == Encode16(v.z).1;
  }

  lemma EncodeDecodeAxes(b: seq<byte>, off: nat)
    requires off + 6 <= |b|
    ensures EncodeAxes(DecodeAxes(b, off)) == b[off..off + 6]
  {
    Encode16Decode16(b[off], b[off + 1]);
    Encode16Decode16(b[off + 2], b[off + 3]);
    Encode16Decode16(b[off + 4], b[off + 5]);
  }

  // The single-sample frame.

  /** Length of the buffer a single-sample read fills (`data_buf_`). */
  const FrameLen: nat := 15

  /** The sample frame: status byte, accelerometer X Y Z, temperature and
      gyroscope X Y Z, each count big-endian, in sensor axes. */
  datatype Frame = Frame(status: byte, accel: Axes, temp: int, gyro: Axes)

  predicate WellFormed(f: Frame) {
    IsAxes(f.accel) && IsInt16(f.temp) && IsAxes(f.gyro)
  }

  function DecodeFrame(buf: seq<byte>): (f: Frame)
    requires |buf| == FrameLen
    ensures WellFormed(f)
  {
    Frame(buf[0], DecodeAxes(buf, 1), Decode16(buf[7], buf[8]), DecodeAxes(buf, 9))
  }

  /** The bytes the sensor sends for a frame. */
  function EncodeFrame(f: Frame): (buf: seq<byte>)
    requires WellFormed(f)
    ensures |buf| == FrameLen
  {
    [f.status] + EncodeAxes(f.accel) + [Encode16(f.temp).0, Encode16(f.temp).1] + EncodeAxes(f.gyro)
  }

  lemma DecodeEncodeFrame(f: Frame)
    requires WellFormed(f)
    ensures DecodeFrame(EncodeFrame(f)) == f
  {
    var buf := EncodeFrame(f);
    DecodeEncodeAxes(f.accel, [f.status], [Encode16(f.temp).0, Encode16(f.temp).1] + EncodeAxes(f.gyro));
    assert buf == [f.status] + EncodeAxes(f.accel) + ([Encode16(f.temp).0, Encode16(f.temp).1] + EncodeAxes(f.gyro));
    DecodeEncodeAxes(f.gyro, [f.status] + EncodeAxes(f.accel) + [Encode16(f.temp).0, Encode16(f.temp).1], []);
    assert buf == [f.status] + EncodeAxes(f.accel) + [Encode16(f.temp).0, Encode16(f.temp).1] + EncodeAxes(f.gyro) + [];
    Decode16Encode16(f.temp);
  }

  lemma EncodeDecodeFrame(buf: seq<byte>)
    requires |buf| == FrameLen
    ensures EncodeFrame(DecodeFrame(buf)) == buf
  {
    var f := DecodeFrame(buf);
    EncodeDecodeAxes(buf, 1);
    EncodeDecodeAxes(buf, 9);
    Encode16Decode16(buf[7], buf[8]);
    assert buf == [buf[0]] + buf[1..7] + [buf[7], buf[8]] + buf[9..15];
  }

  /** The seven counts in the order `Read_raw` stores them: accelerometer
      X Y Z, gyroscope X Y Z, temperature (sensor axes, no remap). */
  function RawLayout(f: Frame): (v: seq<int>)
    ensures |v| == 7
    ensures v[0] == f.accel.x && v[1] == f.accel.y && v[2] == f.accel.z
    ensures v[3] == f.gyro.x && v[4] == f.gyro.y && v[5] == f.gyro.z && v[6] == f.temp
  {
    [f.accel.x, f.accel.y, f.accel.z, f.gyro.x, f.gyro.y, f.gyro.z, f.temp]
  }

  // Axis remap and scaling.

  /** Sensor axes to the host frame: X from the sensor's Y, Y from the
      sensor's X, Z from the negated sensor Z. */
  function Remap(v: Axes): Axes {
    Axes(v.y, v.x, -v.z)
  }

  /** Applying the remap twice gives back the sensor axes. */
  lemma RemapInvolution(v: Axes)
    ensures Remap(Remap(v)) == v
  {
  }

  /** Remap is a signed permutation: it swaps X and Y, flips the sign of Z
      only, and keeps the squared magnitude. */
  lemma RemapPermutesAxes(v: Axes)
    ensures var w := Remap(v);
      && w.x == v.y && w.y == v.x && w.z == -v.z
      && w.x * w.x + w.y * w.y + w.z * w.z == v.x * v.x + v.y * v.y + v.z * v.z
  {
  }

  /** Each count times the factor `k`. */
  function Scale(v: Axes, k: real): Vec {
    Vec(v.x as real * k, v.y as real * k, v.z as real * k)
  }

  /** A conversion factor made of a scale `s` and a unit factor `u`. */
  function Factor(s: real, u: real): real {
    s * u
  }

  /** Scaling the remapped counts by a product of two factors is what the
      driver computes per axis: the count, times the first factor, times -1
      for Z, times the second. */
  lemma ScaleRemapInSteps(v: Axes, s: real, u: real)
    ensures Scale(Remap(v), Factor(s, u)) == Vec(v.y as real * s * u, v.x as real * s * u, v.z as real * s * -1.0 * u)
    ensures Scale(Remap(v), s) == Vec(v.y as real * s, v.x as real * s, v.z as real * s * -1.0)
  {
  }

  /** Temperature in degrees Celsius as `Read()` computes it. */
  function DieTemp(cnt: int, tempScale: real): real
    requires tempScale != 0.0
  {
    cnt as real / tempScale + 35.0
  }

  /** Temperature in degrees Celsius as `Read(float*)` computes it. */
  function DieTempOffset21(cnt: int, tempScale: real): real
    requires tempScale != 0.0
  {
    (cnt as real - 21.0) / tempScale + 21.0
  }

  /** The two temperature formulas do not agree: for every count they differ
      by the same amount, which is zero only if TEMP_SCALE_ is -1.5. */
  lemma TemperatureFormulasDiffer(cnt: int, tempScale: real)
    requires tempScale != 0.0
    ensures DieTemp(cnt, tempScale) - DieTempOffset21(cnt, tempScale) == 14.0 + 21.0 / tempScale
    ensures DieTemp(cnt, tempScale) == DieTempOffset21(cnt, tempScale) <==> tempScale == -1.5
  {
    assert (cnt as real - 21.0) / tempScale == cnt as real / tempScale - 21.0 / tempScale;
  }

  // FIFO records.

  /** Bytes per FIFO record: accelerometer X Y Z then gyroscope X Y Z. */
  const RecordLen: nat := 12

  datatype Record = Record(accel: Axes, gyro: Axes)

  predicate IsRecord(r: Record) {
    IsAxes(r.accel) && IsAxes(r.gyro)
  }

  /** Record `j` of a drained FIFO buffer. */
  function FifoRecord(data: seq<byte>, j: nat): (r: Record)
    requires RecordLen * j + RecordLen <= |data|
    ensures IsRecord(r)
  {
    Record(DecodeAxes(data, RecordLen * j), DecodeAxes(data, RecordLen * j + 6))
  }

  /** The bytes the FIFO delivers for a run of records. */
  function EncodeRecords(rs: seq<Record>): (data: seq<byte>)
    requires forall i :: 0 <= i < |rs| ==> IsRecord(rs[i])
    ensures |data| == RecordLen * |rs|
  {
    if rs == [] then []
    else
      var last := rs[|rs| - 1];
      assert IsRecord(last);
      EncodeRecords(rs[..|rs| - 1]) + EncodeAxes(last.accel) + EncodeAxes(last.gyro)
  }

  /** Decoding record `j` of encoded records gives back record `j`. */
  lemma {:induction false} FifoRecordOfEncoded(rs: seq<Record>, j: nat)
    requires forall i :: 0 <= i < |rs| ==> IsRecord(rs[i])
    requires j < |rs|
    ensures FifoRecord(EncodeRecords(rs), j) == rs[j]
    decreases |rs|
  {
    var init := rs[..|rs| - 1];
    var last := rs[|rs| - 1];
    var pre := EncodeRecords(init);
    var data := EncodeRecords(rs);
    assert data == pre + EncodeAxes(last.accel) + EncodeAxes(last.gyro);
    if j == |rs| - 1 {
      DecodeEncodeAxes(last.accel, pre, EncodeAxes(last.gyro));
      assert data == pre + EncodeAxes(last.accel) + EncodeAxes(last.gyro) + [];
      DecodeEncodeAxes(last.gyro, pre + EncodeAxes(last.accel), []);
    } else {
      FifoRecordOfEncoded(init, j);
      assert data[..|pre|] == pre;
      assert data[RecordLen * j..RecordLen * j + RecordLen] == pre[RecordLen * j..RecordLen * j + RecordLen];
      assert FifoRecord(data, j) == FifoRecord(pre, j);
    }
  }

  /** Number of records `ProcessFifoData` decodes from `len` bytes: one per
      iteration of `i = 0, 12, 24, ...` while `i < len`, so a partial record
      at the end counts as a whole one. */
  function RecordCount(len: nat): (c: nat)
    ensures len == 0 <==> c == 0
    ensures RecordLen * c >= len
    ensures c > 0 ==> RecordLen * (c - 1) < len
  {
    (len + RecordLen - 1) / RecordLen
  }

  /** `RecordCount` is the least number of whole records that covers `len`
      bytes. It is exact when `len` is a multiple of 12; otherwise it is one
      more than the number of complete records, and the last record reaches
      past `len`. */
  lemma RecordCountLeast(len: nat, c: nat)
    requires RecordLen * c >= len
    ensures RecordCount(len) <= c
    ensures len % RecordLen == 0 ==> RecordLen * RecordCount(len) == len
    ensures len % RecordLen != 0 ==> RecordCount(len) == len / RecordLen + 1 && RecordLen * RecordCount(len) > len
  {
  }

  // FIFO drain sizes.

  /** Bytes `ReadFifo` drains: the caller's buffer size caps the FIFO count. */
  function DrainLength(len: nat, count: nat): (m: nat)
    ensures m <= len && m <= count
    ensures m == len || m == count
  {
    if len < count then len else count
  }

  /** The burst read takes an 8-bit count, so it transfers the drain length
      modulo 256. */
  function BurstCount(bytesToRead: nat): (c: nat)
    ensures c < 256
    ensures c <= bytesToRead
    ensures (bytesToRead - c) % 256 == 0
  {
    bytesToRead % 256
  }

  /** The burst transfers exactly the bytes `ReadFifo` reports only while the
      drain length fits in a byte; from 256 on it transfers fewer. */
  lemma BurstMatchesOnlyBelow256(bytesToRead: nat)
    ensures BurstCount(bytesToRead) == bytesToRead <==> bytesToRead < 256
  {
  }
}
