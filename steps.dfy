/** Configuration sequences: a fixed list of register writes (and the
    identity check) issued in order, stopping at the first step whose failure
    is checked. `Exec` is the reference semantics the driver's `Begin` is
    proved against. */
module Steps {
  import opened Bytes
  import opened Registers
  import opened Transport

  /** One step of a configuration sequence. */
  datatype Step =
    | Put(reg: Reg, val: Setting, checked: bool)  // a write; `checked`: its failure aborts
    | VerifyId                                     // read WHOAMI_ (one byte) and compare it

  /** The operations a sequence issued, and whether it ran to the end. */
  datatype Run = Run(ops: seq<Op>, success: bool)

  /** The bus operation a step issues at log position `n`. */
  function Issued(s: Step, o: Oracle, n: nat): Op {
    match s
    case Put(reg, val, _) => Wrote(reg, val, o.ok(n))
    case VerifyId => Fetched(WhoAmI, 1, o.ok(n))
  }

  /** The step at log position `n` ends the sequence with failure. */
  predicate Aborts(s: Step, o: Oracle, id: byte, n: nat) {
    match s
    case Put(_, _, checked) => checked && !o.ok(n)
    case VerifyId => !o.ok(n) || o.byteAt(n, 0) != id
  }

  /** Runs `plan` from log position `n` against the device `o`, whose
      expected identity byte is `id`. */
  function Exec(plan: seq<Step>, o: Oracle, id: byte, n: nat): (r: Run)
    ensures |r.ops| <= |plan|
    ensures plan != [] ==> 0 < |r.ops|
    ensures r.success ==> |r.ops| == |plan|
    decreases |plan|
  {
    if plan == [] then Run([], true)
    else if Aborts(plan[0], o, id, n) then Run([Issued(plan[0], o, n)], false)
    else
      var rest := Exec(plan[1..], o, id, n + 1);
      Run([Issued(plan[0], o, n)] + rest.ops, rest.success)
  }

  /** A run issues the plan's steps in order, one bus operation each, and
      every step before the last one it issued went through. */
  lemma {:induction false} ExecIssuesInOrder(plan: seq<Step>, o: Oracle, id: byte, n: nat)
    ensures var r := Exec(plan, o, id, n);
      && (forall i :: 0 <= i < |r.ops| ==> r.ops[i] == Issued(plan[i], o, n + i))
      && (forall i :: 0 <= i < |r.ops| - 1 ==> !Aborts(plan[i], o, id, n + i))
    decreases |plan|
  {
    if plan != [] && !Aborts(plan[0], o, id, n) {
      var r := Exec(plan, o, id, n);
      var tail := plan[1..];
      var rest := Exec(tail, o, id, n + 1);
      ExecIssuesInOrder(tail, o, id, n + 1);
      forall i | 0 < i < |r.ops|
        ensures r.ops[i] == Issued(plan[i], o, n + i)
        ensures i < |r.ops| - 1 ==> !Aborts(plan[i], o, id, n + i)
      {
        assert r.ops[i] == rest.ops[i - 1];
        assert tail[i - 1] == plan[i];
      }
    }
  }

  /** A run succeeds exactly when none of the plan's steps aborts; when it
      fails, the last step it issued is the one that aborted. */
  lemma {:induction false} ExecStopsAtFirstAbort(plan: seq<Step>, o: Oracle, id: byte, n: nat)
    ensures var r := Exec(plan, o, id, n);
      && (r.success <==> forall i :: 0 <= i < |plan| ==> !Aborts(plan[i], o, id, n + i))
      && (!r.success ==> Aborts(plan[|r.ops| - 1], o, id, n + |r.ops| - 1))
    decreases |plan|
  {
    if plan != [] && !Aborts(plan[0], o, id, n) {
      var r := Exec(plan, o, id, n);
      var tail := plan[1..];
      var rest := Exec(tail, o, id, n + 1);
      ExecStopsAtFirstAbort(tail, o, id, n + 1);
      if r.success {
        forall i | 0 < i < |plan|
          ensures !Aborts(plan[i], o, id, n + i)
        {
          assert tail[i - 1] == plan[i];
        }
      } else {
        var j :| 0 <= j < |tail| && Aborts(tail[j], o, id, n + 1 + j);
        assert plan[j + 1] == tail[j];
        assert tail[|rest.ops| - 1] == plan[|r.ops| - 1];
      }
    }
  }

  /** Running `p + q` runs `p`, then, if `p` got through, `q`. */
  lemma {:induction false} ExecAppend(p: seq<Step>, q: seq<Step>, o: Oracle, id: byte, n: nat)
    ensures Exec(p + q, o, id, n) ==
      var a := Exec(p, o, id, n);
      if a.success then Run(a.ops + Exec(q, o, id, n + |p|).ops, Exec(q, o, id, n + |p|).success)
      else a
    decreases |p|
  {
    if p == [] {
      assert p + q == q;
    } else {
      assert (p + q)[0] == p[0];
      assert (p + q)[1..] == p[1..] + q;
      ExecAppend(p[1..], q, o, id, n + 1);
      var a := Exec(p, o, id, n);
      if !Aborts(p[0], o, id, n) && a.success {
        var rest := Exec(p[1..], o, id, n + 1);
        var b := Exec(q, o, id, n + |p|);
        assert [Issued(p[0], o, n)] + (rest.ops + b.ops) == ([Issued(p[0], o, n)] + rest.ops) + b.ops;
      }
    }
  }

  // Bookkeeping for a method that issues a plan step by step.

  /** `done` is what the first `|done|` steps of `plan` issued from log
      position `n` on, and none of them aborted. */
  ghost predicate IssuedPrefix(plan: seq<Step>, o: Oracle, id: byte, n: nat, done: seq<Op>)
    decreases |done|
  {
    && |done| <= |plan|
    && (done != [] ==>
          var k := |done| - 1;
          && IssuedPrefix(plan, o, id, n, done[..k])
          && done[k] == Issued(plan[k], o, n + k)
          && !Aborts(plan[k], o, id, n + k))
  }

  lemma IssuedPrefixNext(plan: seq<Step>, o: Oracle, id: byte, n: nat, done: seq<Op>)
    requires IssuedPrefix(plan, o, id, n, done)
    requires |done| < |plan| && !Aborts(plan[|done|], o, id, n + |done|)
    ensures IssuedPrefix(plan, o, id, n, done + [Issued(plan[|done|], o, n + |done|)])
  {
    assert (done + [Issued(plan[|done|], o, n + |done|)])[..|done|] == done;
  }

  /** Every operation of an issued prefix is its step's, and went through. */
  lemma {:induction false} IssuedPrefixAll(plan: seq<Step>, o: Oracle, id: byte, n: nat, done: seq<Op>)
    requires IssuedPrefix(plan, o, id, n, done)
    ensures forall i :: 0 <= i < |done| ==> done[i] == Issued(plan[i], o, n + i) && !Aborts(plan[i], o, id, n + i)
    decreases |done|
  {
    if done != [] {
      IssuedPrefixAll(plan, o, id, n, done[..|done| - 1]);
    }
  }

  /** The same, from the front: the rest of an issued prefix is an issued
      prefix of the rest of the plan. */
  lemma {:induction false} IssuedPrefixTail(plan: seq<Step>, o: Oracle, id: byte, n: nat, done: seq<Op>)
    requires |done| <= |plan| && done != []
    requires forall i :: 0 <= i < |done| ==> done[i] == Issued(plan[i], o, n + i) && !Aborts(plan[i], o, id, n + i)
    ensures IssuedPrefix(plan[1..], o, id, n + 1, done[1..])
    decreases |done|
  {
    var tail, rest := plan[1..], done[1..];
    if |rest| > 0 {
      var k := |rest| - 1;
      IssuedPrefixTail(plan, o, id, n, done[..|done| - 1]);
      assert done[..|done| - 1][1..] == rest[..k];
      assert rest[k] == done[k + 1] && tail[k] == plan[k + 1];
    }
  }

  /** Appending one more operation to a log that ends with `done`. */
  lemma LogAppend(log0: seq<Op>, done: seq<Op>, x: Op)
    ensures log0 + done + [x] == log0 + (done + [x])
  {
  }

  /** A run whose next step aborts after the prefix `done` issued `done` and
      that step, and fails. */
  lemma {:induction false} IssuedPrefixStop(plan: seq<Step>, o: Oracle, id: byte, n: nat, done: seq<Op>)
    requires IssuedPrefix(plan, o, id, n, done)
    requires |done| < |plan| && Aborts(plan[|done|], o, id, n + |done|)
    ensures Exec(plan, o, id, n) == Run(done + [Issued(plan[|done|], o, n + |done|)], false)
    decreases |done|
  {
    if done != [] {
      IssuedPrefixAll(plan, o, id, n, done);
      assert !Aborts(plan[0], o, id, n);
      IssuedPrefixTail(plan, o, id, n, done);
      assert plan[1..][|done| - 1] == plan[|done|];
      IssuedPrefixStop(plan[1..], o, id, n + 1, done[1..]);
      assert done == [done[0]] + done[1..];
    }
  }

  /** A run all of whose steps went through issued exactly `done`. */
  lemma {:induction false} IssuedPrefixEnd(plan: seq<Step>, o: Oracle, id: byte, n: nat, done: seq<Op>)
    requires IssuedPrefix(plan, o, id, n, done) && |done| == |plan|
    ensures Exec(plan, o, id, n) == Run(done, true)
    decreases |done|
  {
    if done != [] {
      IssuedPrefixAll(plan, o, id, n, done);
      assert !Aborts(plan[0], o, id, n);
      IssuedPrefixTail(plan, o, id, n, done);
      IssuedPrefixEnd(plan[1..], o, id, n + 1, done[1..]);
      assert done == [done[0]] + done[1..];
    }
  }

  // The initialisation sequence.

  /** The steps of `Begin(mode)`: reset (its outcome ignored), select the
      PLL clock, check the identity byte, enable I2C pass-through in
      pass-through mode only, select the clock again, then the defaults
      16 g, 2000 deg/s, 184 Hz (written to both filter registers) and
      sample-rate divider 0. */
  function BeginPlan(mode: MagMode): seq<Step> {
    [ Put(PwrMgmt1, Reset, false),
      Put(PwrMgmt1, ClockPll, true),
      VerifyId ]
    + (if mode.MagPassthrough? then [Put(IntPinCfg, PinCfg(false, true), true)] else [])
    + [ Put(PwrMgmt1, ClockPll, true),
        Put(AccelConfig, AccelSel(Accel16G), true),
        Put(GyroConfig, GyroSel(Gyro2000Dps), true),
        Put(AccelConfig2, DlpfSel(Dlpf184Hz), true),
        Put(Config, DlpfSel(Dlpf184Hz), true),
        Put(SmplrtDiv, Divider(0), true) ]
  }

  /** Position in `BeginPlan(mode)` of the accelerometer-range step, the
      first of the defaults. */
  function DefaultsAt(mode: MagMode): (k: nat)
    ensures |BeginPlan(mode)| == k + 5
    ensures BeginPlan(mode)[k] == Put(AccelConfig, AccelSel(Accel16G), true)
    ensures BeginPlan(mode)[k + 1] == Put(GyroConfig, GyroSel(Gyro2000Dps), true)
    ensures BeginPlan(mode)[k + 2] == Put(AccelConfig2, DlpfSel(Dlpf184Hz), true)
    ensures BeginPlan(mode)[k + 3] == Put(Config, DlpfSel(Dlpf184Hz), true)
    ensures BeginPlan(mode)[k + 4] == Put(SmplrtDiv, Divider(0), true)
  {
    if mode.MagPassthrough? then 5 else 4
  }

  /** `Begin` succeeds exactly when every checked step succeeds and the
      identity byte matches; the outcome of the reset write at position `n`
      plays no part. */
  lemma BeginSucceedsIff(mode: MagMode, o: Oracle, id: byte, n: nat)
    ensures
      var d := DefaultsAt(mode);
      Exec(BeginPlan(mode), o, id, n).success <==>
        && o.ok(n + 1)
        && o.ok(n + 2) && o.byteAt(n + 2, 0) == id
        && (mode.MagPassthrough? ==> o.ok(n + 3))
        && o.ok(n + d - 1)
        && o.ok(n + d) && o.ok(n + d + 1) && o.ok(n + d + 2) && o.ok(n + d + 3) && o.ok(n + d + 4)
  {
    var plan := BeginPlan(mode);
    var d := DefaultsAt(mode);
    ExecStopsAtFirstAbort(plan, o, id, n);
    assert plan[0] == Put(PwrMgmt1, Reset, false);
    assert plan[1] == Put(PwrMgmt1, ClockPll, true);
    assert plan[2] == VerifyId;
    assert mode.MagPassthrough? ==> plan[3] == Put(IntPinCfg, PinCfg(false, true), true);
    assert plan[d - 1] == Put(PwrMgmt1, ClockPll, true);
    assert |plan| == d + 5;
  }
}
