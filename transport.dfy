/** The two-wire bus the driver talks through (its `imu_` member), as an
    abstract transport: it records every operation the driver issues, and an
    oracle fixed at construction decides each operation's outcome and the
    bytes it returns. The oracle is indexed by the operation's position in the
    log; since the driver's next request depends only on earlier answers, any
    device behaviour is some oracle. */
module Transport {
  import opened Bytes
  import opened Registers

  /** What the device does with the operation at position `n` of the log. */
  datatype Oracle = Oracle(ok: nat -> bool, byteAt: (nat, nat) -> byte) {
    /** The `count` bytes returned by a successful read at position `n`. */
    function Reply(n: nat, count: nat): (bs: seq<byte>)
      ensures |bs| == count
      ensures forall k :: 0 <= k < count ==> bs[k] == byteAt(n, k)
    {
      seq(count, k requires 0 <= k < count => byteAt(n, k))
    }
  }

  /** One bus operation as the driver issued it, with its outcome. */
  datatype Op =
    | Opened                                    // imu_.Begin()
    | Wrote(reg: Reg, val: Setting, ok: bool)   // imu_.WriteRegister
    | Fetched(reg: Reg, count: nat, ok: bool)   // imu_.ReadRegisters
    | Drained(reg: Reg, count: nat, ok: bool)   // imu_.ReadFifo

  class Bus {
    const oracle: Oracle
    var log: seq<Op>

    constructor (oracle: Oracle)
      ensures this.oracle == oracle && log == []
    {
      this.oracle := oracle;
      log := [];
    }

    method Open()
      modifies this
      ensures log == old(log) + [Opened]
    {
      log := log + [Opened];
    }

    method WriteRegister(reg: Reg, val: Setting) returns (ok: bool)
      modifies this
      ensures ok == oracle.ok(|old(log)|)
      ensures log == old(log) + [Wrote(reg, val, ok)]
    {
      ok := oracle.ok(|log|);
      log := log + [Wrote(reg, val, ok)];
    }

    /** Reads `count` registers from `reg` on into `dst`; on failure nothing
        is promised about what `dst` holds. */
    method ReadRegisters(reg: Reg, count: nat, dst: array<byte>) returns (ok: bool)
      requires count <= dst.Length
      modifies this, dst
      ensures ok == oracle.ok(|old(log)|)
      ensures log == old(log) + [Fetched(reg, count, ok)]
      ensures ok ==> dst[..count] == oracle.Reply(|old(log)|, count)
      ensures ok ==> dst[count..] == old(dst[count..])
    {
      ok := Transfer(count, dst);
      log := log + [Fetched(reg, count, ok)];
    }

    /** Burst-reads `count` bytes of the FIFO register `reg` into `dst`. */
    method ReadFifo(reg: Reg, count: nat, dst: array<byte>) returns (ok: bool)
      requires count <= dst.Length
      modifies this, dst
      ensures ok == oracle.ok(|old(log)|)
      ensures log == old(log) + [Drained(reg, count, ok)]
      ensures ok ==> dst[..count] == oracle.Reply(|old(log)|, count)
      ensures ok ==> dst[count..] == old(dst[count..])
    {
      ok := Transfer(count, dst);
      log := log + [Drained(reg, count, ok)];
    }

    method Transfer(count: nat, dst: array<byte>) returns (ok: bool)
      requires count <= dst.Length
      modifies dst
      ensures ok == oracle.ok(|log|)
      ensures ok ==> dst[..count] == oracle.Reply(|log|, count)
      ensures ok ==> dst[count..] == old(dst[count..])
    {
      var n := |log|;
      ok := oracle.ok(n);
      if ok {
        forall k | 0 <= k < count {
          dst[k] := oracle.byteAt(n, k);
        }
      }
    }
  }
}
