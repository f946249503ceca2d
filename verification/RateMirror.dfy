/** Reading and writing exchanged, libevent/bufferevent_ratelim.c: what is proved of one direction of a
    rate-limited bufferevent holds of the other. */
module RateMirror {
  import opened Pointers
  import opened TokenBucket
  import opened RateLimit
  import opened RateRuns
  import opened RateBound

  function FlipCfg(c: Cfg): Cfg {
    Cfg(c.writeRate, c.writeMaximum, c.readRate, c.readMaximum, c.msecPerTick)
  }

  function FlipRef(c: Option<CfgRef>): Option<CfgRef> {
    if c.None? then None else Some(CfgRef(c.value.address, FlipCfg(c.value.cfg)))
  }

  function Flip(s: Snap): Snap {
    Snap(s.write, s.read, s.last, FlipRef(s.cfg), s.pending)
  }

  function FlipOp(op: Op): Op {
    match op
    case DoEnable(r, w) => DoEnable(w, r)
    case DoDisable(r, w) => DoDisable(w, r)
    case DoRlimMax(isWrite, tick, group) => DoRlimMax(!isWrite, tick, group)
    case DoReadCallback(tick, want, group) => DoWriteCallback(tick, want, group)
    case DoWriteCallback(tick, want, group) => DoReadCallback(tick, want, group)
    case DoReadBuckets(bytes) => DoWriteBuckets(bytes)
    case DoWriteBuckets(bytes) => DoReadBuckets(bytes)
    case DoReadLimit(decr) => DoWriteLimit(decr)
    case DoWriteLimit(decr) => DoReadLimit(decr)
    case DoRefill(tick) => DoRefill(tick)
    case DoSetRateLimit(c, tick) => DoSetRateLimit(FlipRef(c), tick)
  }

  function FlipOps(ops: seq<Op>): seq<Op> {
    seq(|ops|, i requires 0 <= i < |ops| => FlipOp(ops[i]))
  }

  lemma FlipRefreshed(s: Snap, tick: int)
    ensures Refreshed(Flip(s), tick) == Flip(Refreshed(s, tick))
  {
    hide Refilled;
  }

  lemma FlipHeld(s: Snap, isWrite: bool, group: GroupView)
    ensures Held(Flip(s), !isWrite, group) == Flip(Held(s, isWrite, group))
  {
  }

  lemma FlipTook(s: Snap, isWrite: bool, want: nat, group: GroupView)
    ensures Took(Flip(s), !isWrite, want, group) == Took(s, isWrite, want, group)
  {
  }

  lemma FlipCharged(s: Snap, bytes: int)
    ensures ReadCharged(Flip(s), bytes) == Flip(WriteCharged(s, bytes))
    ensures WriteCharged(Flip(s), bytes) == Flip(ReadCharged(s, bytes))
    ensures ReadAdjusted(Flip(s), bytes) == Flip(WriteAdjusted(s, bytes))
    ensures WriteAdjusted(Flip(s), bytes) == Flip(ReadAdjusted(s, bytes))
  {
  }

  lemma FlipConfigured(s: Snap, c: Option<CfgRef>, tick: int)
    ensures Configured(Flip(s), FlipRef(c), tick) == Flip(Configured(s, c, tick))
  {
    assert FlipRef(FlipRef(c)) == c && FlipRef(FlipRef(s.cfg)) == s.cfg;
    assert FlipRef(c) == FlipRef(s.cfg) <==> c == s.cfg;
  }

  lemma FlipDone(s: Snap, tick: int, want: nat, group: GroupView)
    ensures ReadDone(Flip(s), tick, want, group) == Flip(WriteDone(s, tick, want, group))
    ensures WriteDone(Flip(s), tick, want, group) == Flip(ReadDone(s, tick, want, group))
  {
    hide Refreshed, Held, Took, ReadCharged, WriteCharged;
    var t := Refreshed(s, tick);
    FlipRefreshed(s, tick);
    FlipHeld(t, true, group);
    FlipHeld(t, false, group);
    var r, w := Held(t, false, group), Held(t, true, group);
    FlipTook(r, false, want, group);
    FlipTook(w, true, want, group);
    FlipCharged(r, Took(r, false, want, group));
    FlipCharged(w, Took(w, true, want, group));
  }

  // The state machine does not tell the directions apart.
  lemma FlipStep(s: Snap, op: Op)
    ensures Step(Flip(s), FlipOp(op)) == Flip(Step(s, op))
    ensures Got(Flip(s), FlipOp(op)) == Put(s, op) && Put(Flip(s), FlipOp(op)) == Got(s, op)
  {
    hide Refreshed, Held, Took, ReadDone, WriteDone, ReadCharged, WriteCharged, ReadAdjusted, WriteAdjusted, Configured, FlipRef;
    match op
    case DoEnable(r, w) =>
    case DoDisable(r, w) =>
    case DoRlimMax(isWrite, tick, group) =>
      FlipRefreshed(s, tick % TWO32);
      FlipHeld(Refreshed(s, tick % TWO32), isWrite, group);
    case DoReadCallback(tick, want, group) => FlipCallback(s, false, tick % TWO32, want, group);
    case DoWriteCallback(tick, want, group) => FlipCallback(s, true, tick % TWO32, want, group);
    case DoReadBuckets(bytes) => FlipCharged(s, bytes);
    case DoWriteBuckets(bytes) => FlipCharged(s, bytes);
    case DoReadLimit(decr) => FlipAdjust(s, decr);
    case DoWriteLimit(decr) => FlipAdjust(s, decr);
    case DoRefill(tick) => FlipCalledBack(s, tick % TWO32);
    case DoSetRateLimit(c, tick) => FlipConfigured(s, c, tick % TWO32);
  }

  lemma FlipAdjust(s: Snap, decr: int)
    ensures ReadAdjusted(Flip(s), decr) == Flip(WriteAdjusted(s, decr))
    ensures WriteAdjusted(Flip(s), decr) == Flip(ReadAdjusted(s, decr))
    ensures Flip(s).cfg.Some? <==> s.cfg.Some?
  {
    FlipCharged(s, decr);
  }

  lemma FlipCalledBack(s: Snap, tick: int)
    ensures CalledBack(Flip(s), tick) == Flip(CalledBack(s, tick))
    ensures Flip(s).cfg.Some? <==> s.cfg.Some?
  {
    hide Refreshed;
    FlipRefreshed(s, tick);
  }

  lemma FlipCallback(s: Snap, isWrite: bool, tick: int, want: nat, group: GroupView)
    ensures ReadDone(Flip(s), tick, want, group) == Flip(WriteDone(s, tick, want, group))
    ensures WriteDone(Flip(s), tick, want, group) == Flip(ReadDone(s, tick, want, group))
    ensures Took(Held(Refreshed(Flip(s), tick), !isWrite, group), !isWrite, want, group) ==
            Took(Held(Refreshed(s, tick), isWrite, group), isWrite, want, group)
  {
    hide Refreshed, Held, Took, ReadDone, WriteDone;
    FlipDone(s, tick, want, group);
    FlipRefreshed(s, tick);
    FlipHeld(Refreshed(s, tick), isWrite, group);
    FlipTook(Held(Refreshed(s, tick), isWrite, group), isWrite, want, group);
  }

  lemma {:induction false} FlipRun(s: Snap, ops: seq<Op>)
    ensures Steps(Flip(s), FlipOps(ops)) == Flip(Steps(s, ops))
    ensures BytesRead(Flip(s), FlipOps(ops)) == BytesWritten(s, ops)
  {
    hide Step, Got, Put, Flip, FlipOp;
    if ops != [] {
      var m := |ops| - 1;
      assert FlipOps(ops)[..m] == FlipOps(ops[..m]) && FlipOps(ops)[m] == FlipOp(ops[m]);
      FlipRun(s, ops[..m]);
      FlipStep(Steps(s, ops[..m]), ops[m]);
    }
  }

  // No refund of write tokens and no other configuration.
  ghost predicate ModestWriting(ops: seq<Op>) {
    forall i :: 0 <= i < |ops| ==>
      && !ops[i].DoSetRateLimit?
      && (ops[i].DoWriteBuckets? ==> ops[i].bytes >= 0)
      && (ops[i].DoWriteLimit? ==> ops[i].decr >= 0)
  }

  ghost predicate LimitedWriting(s: Snap) {
    s.Sound() && s.cfg.Some? && s.write.limit <= s.cfg.value.cfg.writeMaximum
  }

  // In every stretch of every run: between its operations i and j, through k ticks of a clock that
  // goes forward, no more is written than the maximum and k times the rate.
  lemma EveryWindowWritten(s: Snap, ops: seq<Op>, i: nat, j: nat, start: int, k: nat)
    requires LimitedWriting(s) && ModestWriting(ops) && i <= j <= |ops| && InWindow(ops[i..j], start, k)
    ensures BytesWritten(s, ops[..j]) - BytesWritten(s, ops[..i]) <= s.cfg.value.cfg.writeMaximum + k * s.cfg.value.cfg.writeRate
  {
    hide Steps, BytesRead, BytesWritten;
    var t, fs := Flip(s), FlipOps(ops);
    assert fs[..i] == FlipOps(ops[..i]) && fs[..j] == FlipOps(ops[..j]);
    FlipRun(s, ops[..i]);
    FlipRun(s, ops[..j]);
    FlipWindow(ops, i, j, start, k);
    FlipModest(ops);
    EveryWindow(t, fs, i, j, start, k);
  }

  lemma FlipModest(ops: seq<Op>)
    requires ModestWriting(ops)
    ensures AllModest(FlipOps(ops))
  {
  }

  lemma FlipWindow(ops: seq<Op>, i: nat, j: nat, start: int, k: nat)
    requires i <= j <= |ops| && InWindow(ops[i..j], start, k)
    ensures InWindow(FlipOps(ops)[i..j], start, k)
  {
    var fs, gs := FlipOps(ops)[i..j], ops[i..j];
    forall a | 0 <= a < |fs| ensures (HasTick(fs[a]) <==> HasTick(gs[a])) && (HasTick(gs[a]) ==> fs[a].tick == gs[a].tick) {
      assert fs[a] == FlipOp(gs[a]);
    }
  }
}
