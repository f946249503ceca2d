/** Every run of a rate-limited bufferevent, libevent/bufferevent_ratelim.c: when a wake-up is lost,
    and how many bytes are read in a stretch of time. */
module RateRuns {
  import opened Pointers
  import opened TokenBucket
  import opened RateLimit

  // Ticks are counted without end; the code sees them modulo 2^32.
  datatype Op =
    | DoEnable(r: bool, w: bool)
    | DoDisable(r: bool, w: bool)
    | DoRlimMax(isWrite: bool, tick: int, group: GroupView)
    | DoReadCallback(tick: int, want: nat, group: GroupView)
    | DoWriteCallback(tick: int, want: nat, group: GroupView)
    | DoReadBuckets(bytes: int)
    | DoWriteBuckets(bytes: int)
    | DoReadLimit(decr: int)
    | DoWriteLimit(decr: int)
    | DoRefill(tick: int)
    | DoSetRateLimit(cfg: Option<CfgRef>, tick: int)
  {
    ghost predicate Valid() {
      DoSetRateLimit? && cfg.Some? ==> cfg.value.cfg.Valid()
    }
  }

  predicate Fits(limit: int, decr: int) {
    SSIZE_MIN <= limit - decr <= SSIZE_MAX
  }

  // One operation.  A charge that overflows an ev_ssize_t is left out, and the refill callback runs
  // only when its timer is pending.
  function Step(s: Snap, op: Op): Snap {
    match op
    case DoEnable(r, w) => Enabled(s, r, w)
    case DoDisable(r, w) => Disabled(s, r, w)
    case DoRlimMax(isWrite, tick, group) => Held(Refreshed(s, tick % TWO32), isWrite, group)
    case DoReadCallback(tick, want, group) => ReadDone(s, tick % TWO32, want, group)
    case DoWriteCallback(tick, want, group) => WriteDone(s, tick % TWO32, want, group)
    case DoReadBuckets(bytes) => if Fits(s.read.limit, bytes) then ReadCharged(s, bytes) else s
    case DoWriteBuckets(bytes) => if Fits(s.write.limit, bytes) then WriteCharged(s, bytes) else s
    case DoReadLimit(decr) => if s.cfg.Some? && Fits(s.read.limit, decr) then ReadAdjusted(s, decr) else s
    case DoWriteLimit(decr) => if s.cfg.Some? && Fits(s.write.limit, decr) then WriteAdjusted(s, decr) else s
    case DoRefill(tick) => if s.cfg.Some? && s.pending then CalledBack(s, tick % TWO32) else s
    case DoSetRateLimit(c, tick) => Configured(s, c, tick % TWO32)
  }

  function Steps(s: Snap, ops: seq<Op>): Snap {
    if ops == [] then s else Step(Steps(s, ops[..|ops| - 1]), ops[|ops| - 1])
  }

  // The bytes an operation reads.
  function Got(s: Snap, op: Op): nat {
    if op.DoReadCallback? then Took(Held(Refreshed(s, op.tick % TWO32), false, op.group), false, op.want, op.group) else 0
  }

  function BytesRead(s: Snap, ops: seq<Op>): nat {
    if ops == [] then 0
    else var m := |ops| - 1; BytesRead(s, ops[..m]) + Got(Steps(s, ops[..m]), ops[m])
  }

  // The bytes an operation writes.
  function Put(s: Snap, op: Op): nat {
    if op.DoWriteCallback? then Took(Held(Refreshed(s, op.tick % TWO32), true, op.group), true, op.want, op.group) else 0
  }

  function BytesWritten(s: Snap, ops: seq<Op>): nat {
    if ops == [] then 0
    else var m := |ops| - 1; BytesWritten(s, ops[..m]) + Put(Steps(s, ops[..m]), ops[m])
  }

  method RunOne(bev: Bev, op: Op) returns (read: nat, written: nat)
    requires bev.Sound() && op.Valid()
    modifies bev, bev.limit
    ensures bev.Sound() && bev.State() == Step(old(bev.State()), op)
    ensures read == Got(old(bev.State()), op) && written == Put(old(bev.State()), op)
  {
    hide Refreshed, Held, ReadDone, WriteDone, ReadCharged, WriteCharged, ReadAdjusted, WriteAdjusted, CalledBack, Configured, Enabled, Disabled, Took;
    read, written := 0, 0;
    match op {
      case DoEnable(r, w) => bev.Enable(r, w);
      case DoDisable(r, w) => bev.Disable(r, w);
      case DoRlimMax(isWrite, tick, group) =>
        var _ := bev.GetRlimMax(isWrite, tick % TWO32, group, MAX_SINGLE_DEFAULT);
      case DoReadCallback(tick, want, group) =>
        read := bev.ReadCallback(tick % TWO32, want, group);
      case DoWriteCallback(tick, want, group) =>
        written := bev.WriteCallback(tick % TWO32, want, group);
      case DoReadBuckets(n) =>
        if Fits(bev.limit.readLimit, n) { bev.DecrementReadBuckets(n); }
      case DoWriteBuckets(n) =>
        if Fits(bev.limit.writeLimit, n) { bev.DecrementWriteBuckets(n); }
      case DoReadLimit(decr) =>
        if bev.cfg.Some? && Fits(bev.limit.readLimit, decr) { bev.DecrementReadLimit(decr); }
      case DoWriteLimit(decr) =>
        if bev.cfg.Some? && Fits(bev.limit.writeLimit, decr) { bev.DecrementWriteLimit(decr); }
      case DoRefill(tick) =>
        if bev.cfg.Some? && bev.refillPending { bev.RefillCallback(tick % TWO32); }
      case DoSetRateLimit(c, tick) =>
        bev.SetRateLimit(c, tick % TWO32);
    }
  }

  // Every run of the bufferevent takes the steps above, and reads and writes the bytes they say.
  method Run(bev: Bev, ops: seq<Op>) returns (read: nat, written: nat)
    requires bev.Sound() && forall i :: 0 <= i < |ops| ==> ops[i].Valid()
    modifies bev, bev.limit
    ensures bev.Sound() && bev.State() == Steps(old(bev.State()), ops)
    ensures read == BytesRead(old(bev.State()), ops) && written == BytesWritten(old(bev.State()), ops)
  {
    hide Step, Got, Put;
    read, written := 0, 0;
    var i := 0;
    while i < |ops|
      invariant 0 <= i <= |ops|
      invariant bev.Sound() && bev.State() == Steps(old(bev.State()), ops[..i])
      invariant read == BytesRead(old(bev.State()), ops[..i]) && written == BytesWritten(old(bev.State()), ops[..i])
    {
      assert ops[..i + 1][..i] == ops[..i];
      var r, w := RunOne(bev, ops[i]);
      read, written := read + r, written + w;
      i := i + 1;
    }
    assert ops[..|ops|] == ops;
  }

  // ----- wake-ups -----

  lemma RefilledRange(limit: int, maximum: int, rate: int, n: int)
    requires n > 0 && SSIZE_MIN <= maximum <= SSIZE_MAX
    ensures SSIZE_MIN <= Refilled(limit, maximum, rate, n) <= SSIZE_MAX
  {
    hide U64;
  }

  lemma RefreshSound(s: Snap, tick: int)
    requires s.Sound() && 0 <= tick < TWO32
    ensures Refreshed(s, tick).Sound()
  {
    hide Refilled;
    if s.cfg.Some? {
      var n, c := Elapsed(tick, s.last), s.cfg.value.cfg;
      if 0 < n <= INT_MAX {
        RefilledRange(s.read.limit, c.readMaximum, c.readRate, n);
        RefilledRange(s.write.limit, c.writeMaximum, c.writeRate, n);
      }
    }
  }

  lemma StepSound(s: Snap, op: Op)
    requires s.Sound() && op.Valid()
    ensures Step(s, op).Sound()
  {
    hide Refreshed;
    if op.DoRlimMax? || op.DoReadCallback? || op.DoWriteCallback? || op.DoRefill? {
      RefreshSound(s, op.tick % TWO32);
      RefreshKeeps(s, op.tick % TWO32);
    }
  }

  lemma RefreshKeeps(s: Snap, tick: int)
    ensures var t := Refreshed(s, tick); t.cfg == s.cfg && t.pending == s.pending
    ensures var t := Refreshed(s, tick); t.read.suspended == s.read.suspended && t.write.suspended == s.write.suspended
  {
    hide Refilled, Elapsed;
  }

  lemma {:induction false} StepsSound(s: Snap, ops: seq<Op>)
    requires s.Sound() && forall i :: 0 <= i < |ops| ==> ops[i].Valid()
    ensures Steps(s, ops).Sound()
  {
    hide Step;
    if ops != [] {
      StepsSound(s, ops[..|ops| - 1]);
      StepSound(Steps(s, ops[..|ops| - 1]), ops[|ops| - 1]);
    }
  }

  // A refill keeps the wake-ups exactly when it does not wrap the bucket of an unsuspended direction.
  lemma RefreshWakes(s: Snap, tick: int)
    requires s.Sound() && s.NoLostWakeup()
    ensures Refreshed(s, tick).NoLostWakeup() <==> !s.RefillWraps(tick)
  {
    hide Refilled, Wraps;
    if s.cfg.Some? {
      var n, c := Elapsed(tick, s.last), s.cfg.value.cfg;
      if 0 < n <= INT_MAX {
        if s.read.limit > 0 { RefillSign(s.read.limit, c.readMaximum, c.readRate, n); }
        if s.write.limit > 0 { RefillSign(s.write.limit, c.writeMaximum, c.writeRate, n); }
      }
    }
  }

  // The operation refills the bucket of an unsuspended direction past the range of an ev_ssize_t.
  predicate StepWraps(s: Snap, op: Op) {
    || ((op.DoRlimMax? || op.DoReadCallback? || op.DoWriteCallback?) && s.RefillWraps(op.tick % TWO32))
    || (op.DoRefill? && s.pending && s.RefillWraps(op.tick % TWO32))
  }

  // The timer is pending and every suspended direction that has no tokens waits for it, so that only
  // a wrap can lose a wake-up; and every wrap does.
  lemma StepWakes(s: Snap, op: Op)
    requires s.Sound() && s.NoLostWakeup() && op.Valid()
    ensures Step(s, op).NoLostWakeup() <==> !StepWraps(s, op)
  {
    hide Refreshed, Snap.RefillWraps;
    if op.DoRlimMax? || op.DoReadCallback? || op.DoWriteCallback? || op.DoRefill? {
      RefreshWakes(s, op.tick % TWO32);
      RefreshKeeps(s, op.tick % TWO32);
    }
  }

  // Over a whole run: every state keeps its wake-ups if and only if no step wraps.
  lemma RunWakes(s: Snap, ops: seq<Op>)
    requires s.Sound() && s.NoLostWakeup() && forall i :: 0 <= i < |ops| ==> ops[i].Valid()
    ensures (forall i :: 0 <= i <= |ops| ==> Steps(s, ops[..i]).NoLostWakeup()) <==>
            (forall i :: 0 <= i < |ops| ==> !StepWraps(Steps(s, ops[..i]), ops[i]))
  {
    hide Step, StepWraps, Snap.NoLostWakeup;
    if forall i :: 0 <= i <= |ops| ==> Steps(s, ops[..i]).NoLostWakeup() {
      forall i | 0 <= i < |ops| ensures !StepWraps(Steps(s, ops[..i]), ops[i]) {
        StepsNext(s, ops, i);
        StepsSound(s, ops[..i]);
        StepWakes(Steps(s, ops[..i]), ops[i]);
        assert Steps(s, ops[..i + 1]).NoLostWakeup();
      }
    }
    if forall i :: 0 <= i < |ops| ==> !StepWraps(Steps(s, ops[..i]), ops[i]) {
      forall i | 0 <= i <= |ops| ensures Steps(s, ops[..i]).NoLostWakeup() {
        WakesUpTo(s, ops, i);
      }
    }
  }

  lemma StepsNext(s: Snap, ops: seq<Op>, i: nat)
    requires i < |ops|
    ensures Steps(s, ops[..i + 1]) == Step(Steps(s, ops[..i]), ops[i])
    ensures BytesRead(s, ops[..i + 1]) == BytesRead(s, ops[..i]) + Got(Steps(s, ops[..i]), ops[i])
  {
    hide Step, Got;
    assert ops[..i + 1][..i] == ops[..i];
  }

  lemma {:induction false} WakesUpTo(s: Snap, ops: seq<Op>, i: nat)
    requires s.Sound() && s.NoLostWakeup() && forall j :: 0 <= j < |ops| ==> ops[j].Valid()
    requires i <= |ops| && forall j :: 0 <= j < |ops| ==> !StepWraps(Steps(s, ops[..j]), ops[j])
    ensures Steps(s, ops[..i]).NoLostWakeup()
  {
    hide Step, StepWraps, Snap.NoLostWakeup;
    if i == 0 {
      assert ops[..0] == [];
    } else {
      WakesUpTo(s, ops, i - 1);
      StepsNext(s, ops, i - 1);
      StepsSound(s, ops[..i - 1]);
      StepWakes(Steps(s, ops[..i - 1]), ops[i - 1]);
    }
  }

  // No tokens are given back.
  predicate NoRefund(op: Op) {
    && (op.DoReadBuckets? || op.DoWriteBuckets? ==> op.bytes >= 0)
    && (op.DoReadLimit? || op.DoWriteLimit? ==> op.decr >= 0)
  }

  lemma RefreshWithin(s: Snap, tick: int)
    requires s.Sound() && s.Within()
    ensures Refreshed(s, tick).Within() && !s.RefillWraps(tick)
  {
    hide Refilled;
    if s.cfg.Some? {
      var n, c := Elapsed(tick, s.last), s.cfg.value.cfg;
      if 0 < n <= INT_MAX {
        RefillExact(s.read.limit, c.readMaximum, c.readRate, n);
        RefillExact(s.write.limit, c.writeMaximum, c.writeRate, n);
      }
    }
  }

  lemma StepWithin(s: Snap, op: Op)
    requires s.Sound() && s.Within() && op.Valid() && NoRefund(op)
    ensures Step(s, op).Within() && !StepWraps(s, op)
  {
    hide Refreshed, Snap.RefillWraps;
    if op.DoRlimMax? || op.DoReadCallback? || op.DoWriteCallback? || op.DoRefill? {
      RefreshWithin(s, op.tick % TWO32);
      RefreshKeeps(s, op.tick % TWO32);
    }
  }

  // As long as no tokens are given back, no wake-up is ever lost.
  lemma {:induction false} NoRefundWakes(s: Snap, ops: seq<Op>)
    requires s.Sound() && s.NoLostWakeup() && s.Within() && forall i :: 0 <= i < |ops| ==> ops[i].Valid() && NoRefund(ops[i])
    ensures var t := Steps(s, ops); t.Sound() && t.NoLostWakeup() && t.Within()
  {
    hide Step, StepWraps, Snap.NoLostWakeup, Snap.Within, Snap.Sound;
    if ops != [] {
      var m := |ops| - 1;
      NoRefundWakes(s, ops[..m]);
      StepSound(Steps(s, ops[..m]), ops[m]);
      StepWithin(Steps(s, ops[..m]), ops[m]);
      StepWakes(Steps(s, ops[..m]), ops[m]);
    }
  }

  // A wrap that the code reaches: a refund has raised the limit to just below the largest ev_ssize_t,
  // and one tick at a rate of 10 turns it into a debt, with nobody suspended and no timer.
  method WrapLosesWakeup() returns (bev: Bev)
    ensures bev.Sound() && !bev.State().NoLostWakeup() && !bev.refillPending && bev.read.suspended == {}
    ensures bev.limit.readLimit == SSIZE_MIN + 5
  {
    bev := new Bev();
    bev.SetRateLimit(Some(CfgRef(1, Cfg(10, 1000, 10, 1000, 1000))), 0);
    bev.DecrementReadLimit(-(SSIZE_MAX - 14));
    bev.UpdateBuckets(1);
  }
}
