/** How much a bufferevent reads under its rate limit, libevent/bufferevent_ratelim.c: for a clock
    that goes forward no more than its maximum and its rate times the ticks, in any stretch of any
    run; and for any clock exactly when. */
module RateBound {
  import opened Pointers
  import opened TokenBucket
  import opened RateLimit
  import opened RateRuns

  // No refund of read tokens and no other configuration.
  ghost predicate Modest(op: Op) {
    && !op.DoSetRateLimit?
    && (op.DoReadBuckets? ==> op.bytes >= 0)
    && (op.DoReadLimit? ==> op.decr >= 0)
  }

  ghost predicate AllModest(ops: seq<Op>) {
    forall i :: 0 <= i < |ops| ==> Modest(ops[i])
  }

  // The bufferevent has a configuration and no more read tokens than its maximum.
  ghost predicate Limited(s: Snap) {
    s.Sound() && s.cfg.Some? && s.read.limit <= s.cfg.value.cfg.readMaximum
  }

  predicate HasTick(op: Op) {
    op.DoRlimMax? || op.DoReadCallback? || op.DoWriteCallback? || op.DoRefill?
  }

  // The operation looks at the clock.
  predicate Looks(s: Snap, op: Op) {
    HasTick(op) && (op.DoRefill? ==> s.cfg.Some? && s.pending)
  }

  // The ticks at which a run looks at the clock.
  function Ticks(s: Snap, ops: seq<Op>): seq<int> {
    if ops == [] then []
    else
      var m := |ops| - 1;
      Ticks(s, ops[..m]) + if Looks(Steps(s, ops[..m]), ops[m]) then [ops[m].tick] else []
  }

  // What a look at the clock makes of last_updated, and the ticks it gives tokens for.
  function Moved(tick: int, last: int): int {
    if 0 < Elapsed(tick % TWO32, last) <= INT_MAX then tick % TWO32 else last
  }

  function Gain(tick: int, last: int): nat {
    var n := Elapsed(tick % TWO32, last);
    if 0 < n <= INT_MAX then n else 0
  }

  function LastAfter(ticks: seq<int>, last: int): int {
    if ticks == [] then last
    else Moved(ticks[|ticks| - 1], LastAfter(ticks[..|ticks| - 1], last))
  }

  // The ticks for which tokens are given after the first look at the clock, which finds at most a
  // full bucket.
  function Credited(ticks: seq<int>, last: int): nat {
    if |ticks| <= 1 then 0
    else
      var m := |ticks| - 1;
      Credited(ticks[..m], last) + Gain(ticks[m], LastAfter(ticks[..m], last))
  }

  // ----- any clock -----

  // What was read, and what is left, is paid for.
  ghost predicate Paid(limit: int, total: int, most: int) {
    total <= most && limit + total <= most
  }

  lemma RefreshPays(s: Snap, tick: int)
    requires Limited(s)
    ensures var t, c := Refreshed(s, tick % TWO32), s.cfg.value.cfg;
            && t.cfg == s.cfg && t.last == Moved(tick, s.last)
            && t.read.limit <= c.readMaximum && t.read.limit <= s.read.limit + Gain(tick, s.last) * c.readRate
  {
    hide Refilled;
    var n, c := Elapsed(tick % TWO32, s.last), s.cfg.value.cfg;
    if 0 < n <= INT_MAX {
      RefillExact(s.read.limit, c.readMaximum, c.readRate, n);
    }
  }

  lemma StepPays(s: Snap, op: Op)
    requires Limited(s) && Modest(op)
    ensures var t, c := Step(s, op), s.cfg.value.cfg;
            && Limited(t) && t.cfg == s.cfg
            && (!Looks(s, op) ==> t.last == s.last && t.read.limit <= s.read.limit && Got(s, op) == 0)
            && (Looks(s, op) ==>
                  && t.last == Moved(op.tick, s.last)
                  && t.read.limit + Got(s, op) <= c.readMaximum
                  && t.read.limit + Got(s, op) <= s.read.limit + Gain(op.tick, s.last) * c.readRate
                  && (Got(s, op) > 0 ==> t.read.limit >= 0))
  {
    hide Refreshed, Moved, Gain;
    StepSound(s, op);
    if HasTick(op) {
      RefreshPays(s, op.tick);
    }
  }

  lemma GainPays(limit: int, total: int, maximum: int, rate: int, credit: int, gain: int, limit': int, got: nat)
    requires Paid(limit, total, maximum + credit * rate)
    requires limit' + got <= limit + gain * rate && (got > 0 ==> limit' >= 0) && 0 <= gain * rate
    ensures Paid(limit', total + got, maximum + (credit + gain) * rate)
  {
    assert (credit + gain) * rate == credit * rate + gain * rate;
  }

  // The account of a run from s that has got to t.
  ghost predicate Account(s: Snap, t: Snap, ticks: seq<int>, total: nat) {
    s.cfg.Some? &&
    var c := s.cfg.value.cfg;
    && Limited(t) && t.cfg == s.cfg && t.last == LastAfter(ticks, s.last)
    && (ticks == [] ==> total == 0)
    && (ticks != [] ==> Paid(t.read.limit, total, c.readMaximum + Credited(ticks, s.last) * c.readRate))
  }

  lemma AccountNext(s: Snap, t: Snap, ticks: seq<int>, total: nat, op: Op)
    requires Account(s, t, ticks, total) && Modest(op)
    ensures Account(s, Step(t, op), ticks + if Looks(t, op) then [op.tick] else [], total + Got(t, op))
  {
    hide Step, Got, Moved, Gain, Paid, Modest, Credited, LastAfter, Looks;
    var c, got, limit := s.cfg.value.cfg, Got(t, op), Step(t, op).read.limit;
    StepPays(t, op);
    if !Looks(t, op) {
      assert ticks + [] == ticks;
      if ticks != [] {
        PaidLess(t.read.limit, total, c.readMaximum + Credited(ticks, s.last) * c.readRate, limit);
      }
    } else {
      LooksTick(t, op);
      CreditedNext(ticks, op.tick, s.last);
      if ticks == [] {
        PaidFirst(limit, got, c.readMaximum);
      } else {
        var gain := Gain(op.tick, t.last);
        MulMono(gain, 0, c.readRate);
        GainPays(t.read.limit, total, c.readMaximum, c.readRate, Credited(ticks, s.last), gain, limit, got);
      }
    }
  }

  lemma LooksTick(s: Snap, op: Op)
    ensures Looks(s, op) ==> HasTick(op)
  {
  }

  // Whatever the clock does, a run reads no more than the maximum and the rate for the ticks credited.
  lemma {:induction false} RunPays(s: Snap, ops: seq<Op>)
    requires Limited(s) && AllModest(ops)
    ensures Account(s, Steps(s, ops), Ticks(s, ops), BytesRead(s, ops))
  {
    hide Step, Got, Looks, Account, Modest;
    if ops == [] {
      AccountOpens(s);
    } else {
      var m := |ops| - 1;
      RunPays(s, ops[..m]);
      LooksTick(Steps(s, ops[..m]), ops[m]);
      AccountNext(s, Steps(s, ops[..m]), Ticks(s, ops[..m]), BytesRead(s, ops[..m]), ops[m]);
    }
  }

  lemma AccountOpens(s: Snap)
    requires Limited(s)
    ensures Account(s, s, [], 0)
  {
  }

  lemma PaidLess(limit: int, total: int, most: int, limit': int)
    requires Paid(limit, total, most) && limit' <= limit
    ensures Paid(limit', total, most)
  {
  }

  lemma PaidFirst(limit: int, got: nat, maximum: int)
    requires limit + got <= maximum && (got > 0 ==> limit >= 0) && maximum >= 0
    ensures Paid(limit, got, maximum)
  {
  }

  lemma CreditedNext(ticks: seq<int>, tick: int, last: int)
    ensures LastAfter(ticks + [tick], last) == Moved(tick, LastAfter(ticks, last))
    ensures Credited(ticks + [tick], last) ==
            if ticks == [] then 0 else Credited(ticks, last) + Gain(tick, LastAfter(ticks, last))
  {
    hide Moved, Gain;
    assert (ticks + [tick])[..|ticks|] == ticks;
  }

  // ----- a clock that goes forward -----

  // After a look at the clock the counter is level with it, or so far behind that it seems ahead; a
  // later look is then credited with no more ticks than have passed in between.
  ghost predicate Level(tick: int, last: int) {
    Gain(tick, last) == 0
  }

  lemma MovedLevel(tick: int, last: int)
    ensures Level(tick, Moved(tick, last))
  {
  }

  lemma GainPassed(tick: int, later: int, last: int)
    requires Level(tick, last) && tick <= later
    ensures Gain(later, last) <= later - tick
  {
    ElapsedIs(tick, last);
    ElapsedIs(later, last);
    var x, y := tick - last, later - last;
    if 0 < y % TWO32 <= INT_MAX {
      Between(x / TWO32, x % TWO32, y / TWO32, y % TWO32);
    }
  }

  lemma ElapsedIs(tick: int, last: int)
    ensures Elapsed(tick % TWO32, last) == (tick - last) % TWO32
  {
    ModEq(tick % TWO32 - last, tick - last, tick / TWO32);
  }

  lemma ModEq(a: int, b: int, k: int)
    requires a + TWO32 * k == b
    ensures a % TWO32 == b % TWO32
  {
  }

  // A counter that was level, or seemed ahead by e, and now shows n has moved by at least n.
  lemma Between(a: int, e: nat, b: int, n: nat)
    requires TWO32 * a + e <= TWO32 * b + n && e < TWO32 && (e == 0 || e > INT_MAX) && 0 < n <= INT_MAX
    ensures n <= TWO32 * b + n - (TWO32 * a + e)
  {
    if e == 0 {
      assert a <= b;
    } else {
      assert a + 1 <= b;
    }
  }

  ghost predicate Forward(ticks: seq<int>) {
    forall i, j :: 0 <= i < j < |ticks| ==> ticks[i] <= ticks[j]
  }

  lemma {:induction false} ForwardCredit(ticks: seq<int>, last: int)
    requires ticks != [] && Forward(ticks)
    ensures Credited(ticks, last) <= ticks[|ticks| - 1] - ticks[0]
    ensures Level(ticks[|ticks| - 1], LastAfter(ticks, last))
  {
    hide Moved, Gain, Level;
    var m := |ticks| - 1;
    MovedLevel(ticks[m], LastAfter(ticks[..m], last));
    if m > 0 {
      ForwardCredit(ticks[..m], last);
      GainPassed(ticks[m - 1], ticks[m], LastAfter(ticks[..m], last));
    }
  }

  // The clock goes forward over these operations, through at most k ticks from start.
  ghost predicate InWindow(ops: seq<Op>, start: int, k: int) {
    && (forall i :: 0 <= i < |ops| && HasTick(ops[i]) ==> start <= ops[i].tick <= start + k)
    && (forall i, j :: 0 <= i < j < |ops| && HasTick(ops[i]) && HasTick(ops[j]) ==> ops[i].tick <= ops[j].tick)
  }

  lemma {:induction false} TicksInWindow(s: Snap, ops: seq<Op>, start: int, k: int)
    requires InWindow(ops, start, k)
    ensures Forward(Ticks(s, ops))
    ensures forall t :: t in Ticks(s, ops) ==> exists i :: 0 <= i < |ops| && HasTick(ops[i]) && ops[i].tick == t
  {
    hide Steps;
    if ops != [] {
      var m := |ops| - 1;
      TicksInWindow(s, ops[..m], start, k);
      forall t | t in Ticks(s, ops) ensures exists i :: 0 <= i < |ops| && HasTick(ops[i]) && ops[i].tick == t {
        if t in Ticks(s, ops[..m]) {
          var i :| 0 <= i < m && HasTick(ops[..m][i]) && ops[..m][i].tick == t;
          assert HasTick(ops[i]) && ops[i].tick == t;
        } else {
          assert HasTick(ops[m]) && ops[m].tick == t;
        }
      }
      var before := Ticks(s, ops[..m]);
      forall i | 0 <= i < |before| && HasTick(ops[m]) ensures before[i] <= ops[m].tick {
        assert before[i] in before;
        var j :| 0 <= j < m && HasTick(ops[..m][j]) && ops[..m][j].tick == before[i];
        assert HasTick(ops[j]);
      }
    }
  }

  // From any state, with any time of the last update, a run through k ticks reads no more than the
  // maximum and k times the rate.
  lemma RateHolds(s: Snap, ops: seq<Op>, start: int, k: nat)
    requires Limited(s) && AllModest(ops) && InWindow(ops, start, k)
    ensures BytesRead(s, ops) <= s.cfg.value.cfg.readMaximum + k * s.cfg.value.cfg.readRate
  {
    hide Steps, BytesRead, Ticks, Credited, LastAfter;
    RunPays(s, ops);
    TicksInWindow(s, ops, start, k);
    var ticks, rate := Ticks(s, ops), s.cfg.value.cfg.readRate;
    MulMono(rate, 0, k);
    if ticks != [] {
      ForwardCredit(ticks, s.last);
      assert ticks[0] in ticks && ticks[|ticks| - 1] in ticks;
      MulMono(rate, Credited(ticks, s.last), k);
    }
  }

  lemma {:induction false} Split(s: Snap, ops: seq<Op>, i: nat, j: nat)
    requires i <= j <= |ops|
    ensures Steps(s, ops[..j]) == Steps(Steps(s, ops[..i]), ops[i..j])
    ensures BytesRead(s, ops[..j]) == BytesRead(s, ops[..i]) + BytesRead(Steps(s, ops[..i]), ops[i..j])
  {
    hide Step, Got;
    if j == i {
      assert ops[i..j] == [];
    } else {
      Split(s, ops, i, j - 1);
      StepsNext(s, ops, j - 1);
      assert ops[i..j][..j - 1 - i] == ops[i..j - 1] && ops[i..j][j - 1 - i] == ops[j - 1];
    }
  }

  // In every stretch of every run: between its operations i and j, through k ticks of a clock that
  // goes forward, no more is read than the maximum and k times the rate.
  lemma EveryWindow(s: Snap, ops: seq<Op>, i: nat, j: nat, start: int, k: nat)
    requires Limited(s) && AllModest(ops) && i <= j <= |ops| && InWindow(ops[i..j], start, k)
    ensures BytesRead(s, ops[..j]) - BytesRead(s, ops[..i]) <= s.cfg.value.cfg.readMaximum + k * s.cfg.value.cfg.readRate
  {
    hide Steps, BytesRead, InWindow;
    Split(s, ops, i, j);
    RunPays(s, ops[..i]);
    assert AllModest(ops[i..j]);
    RateHolds(Steps(s, ops[..i]), ops[i..j], start, k);
  }

  // ----- a clock that steps back -----

  // The bound for every configuration, every state and all that can happen at these ticks.
  ghost predicate Bounded(ticks: seq<int>, last: int, k: nat) {
    forall s, ops :: Limited(s) && AllModest(ops) && s.last == last && Ticks(s, ops) == ticks ==>
      BytesRead(s, ops) <= s.cfg.value.cfg.readMaximum + k * s.cfg.value.cfg.readRate
  }

  // It holds if and only if no more ticks are credited than it allows for.
  lemma RateExact(ticks: seq<int>, last: int, k: nat)
    requires 0 <= last < TWO32
    ensures Bounded(ticks, last, k) <==> Credited(ticks, last) <= k
  {
    hide Steps, BytesRead, Ticks, Credited, LastAfter, Snap.Sound, AllModest;
    if Credited(ticks, last) <= k {
      forall s, ops | Limited(s) && AllModest(ops) && s.last == last && Ticks(s, ops) == ticks
        ensures BytesRead(s, ops) <= s.cfg.value.cfg.readMaximum + k * s.cfg.value.cfg.readRate
      {
        CreditBounds(s, ops, k);
      }
    }
    if Bounded(ticks, last, k) {
      if ticks != [] {
        Greedy(ticks, last);
        assert BytesRead(Full(last), GreedyOps(ticks, last)) <= GREEDY.readMaximum + k * GREEDY.readRate;
      } else {
        assert Credited(ticks, last) == 0 by { NoTicks(last); }
      }
    }
  }

  lemma NoTicks(last: int)
    ensures Credited([], last) == 0
  {
  }

  lemma CreditBounds(s: Snap, ops: seq<Op>, k: nat)
    requires Limited(s) && AllModest(ops) && Credited(Ticks(s, ops), s.last) <= k
    ensures BytesRead(s, ops) <= s.cfg.value.cfg.readMaximum + k * s.cfg.value.cfg.readRate
  {
    hide Steps, BytesRead, Ticks, Credited, LastAfter;
    RunPays(s, ops);
    var c := s.cfg.value.cfg;
    MulMono(c.readRate, Credited(Ticks(s, ops), s.last), k);
    MulMono(c.readRate, 0, k);
  }

  // A reader that always leaves one token, so that it is never suspended.
  const GREEDY := Cfg(2, 2 * INT_MAX + 1, 2, 2, 1)

  function Full(last: int): Snap {
    Snap(Dir(true, {}, GREEDY.readMaximum), Dir(true, {}, 1), last, Some(CfgRef(1, GREEDY)), false)
  }

  function GreedyOps(ticks: seq<int>, last: int): seq<Op> {
    if ticks == [] then []
    else
      var m := |ticks| - 1;
      var want := if m == 0 then GREEDY.readMaximum - 1 else 2 * Gain(ticks[m], LastAfter(ticks[..m], last));
      GreedyOps(ticks[..m], last) + [DoReadCallback(ticks[m], want, NoGroup)]
  }

  // The state of the greedy reader after a read: one token is left.
  ghost predicate OneLeft(s: Snap) {
    && s.read == Dir(true, {}, 1) && s.cfg == Some(CfgRef(1, GREEDY))
    && 0 < s.write.limit <= 2 && s.write.suspended == {}
  }

  // It reads all but one of the tokens there can be.
  lemma {:induction false} Greedy(ticks: seq<int>, last: int)
    requires ticks != [] && 0 <= last < TWO32
    ensures var s, ops := Full(last), GreedyOps(ticks, last);
            && Limited(s) && AllModest(ops) && s.last == last && Ticks(s, ops) == ticks
            && BytesRead(s, ops) == GREEDY.readMaximum - 1 + GREEDY.readRate * Credited(ticks, last)
            && OneLeft(Steps(s, ops)) && Steps(s, ops).last == LastAfter(ticks, last) && 0 <= Steps(s, ops).last < TWO32
  {
    hide Step, Got, Moved, Gain, OneLeft;
    var m := |ticks| - 1;
    var s, ops, tick := Full(last), GreedyOps(ticks, last), ticks[m];
    var before := GreedyOps(ticks[..m], last);
    assert ops[..|ops| - 1] == before;
    assert ticks == ticks[..m] + [tick];
    assert Looks(Steps(s, before), ops[|ops| - 1]);
    if m == 0 {
      assert ticks[..m] == [] && before == [];
      FirstGreedy(tick, last);
    } else {
      Greedy(ticks[..m], last);
      NextGreedy(Steps(s, before), tick);
    }
  }

  lemma FirstGreedy(tick: int, last: int)
    requires 0 <= last < TWO32
    ensures var s, op := Full(last), DoReadCallback(tick, GREEDY.readMaximum - 1, NoGroup);
            && Got(s, op) == GREEDY.readMaximum - 1 && OneLeft(Step(s, op))
            && Step(s, op).last == Moved(tick, last) && 0 <= Step(s, op).last < TWO32
  {
    hide Refilled;
    var n := Elapsed(tick % TWO32, last);
    if 0 < n <= INT_MAX {
      RefillExact(GREEDY.readMaximum, GREEDY.readMaximum, 2, n);
      RefillExact(1, 2, 2, n);
    }
  }

  lemma NextGreedy(s: Snap, tick: int)
    requires OneLeft(s) && 0 <= s.last < TWO32
    ensures var op := DoReadCallback(tick, 2 * Gain(tick, s.last), NoGroup);
            && Got(s, op) == 2 * Gain(tick, s.last) && OneLeft(Step(s, op))
            && Step(s, op).last == Moved(tick, s.last) && 0 <= Step(s, op).last < TWO32
  {
    hide Refilled;
    var n := Elapsed(tick % TWO32, s.last);
    if 0 < n <= INT_MAX {
      RefillExact(1, GREEDY.readMaximum, 2, n);
      RefillExact(s.write.limit, 2, 2, n);
    }
  }

  const SLOW := Some(CfgRef(1, Cfg(1, 1000, 1, 1000, 1000)))

  // A bufferevent that has just been given a full bucket.
  method FullBucket() returns (bev: Bev)
    ensures fresh(bev) && fresh(bev.limit) && bev.Sound()
    ensures bev.State() == Snap(Dir(true, {}, 1000), Dir(true, {}, 1000), 2000, SLOW, false)
  {
    hide Refilled;
    bev := new Bev();
    bev.Enable(true, true);
    bev.SetRateLimit(SLOW, 0);
    RefillExact(1, 1000, 1, 2000);
    bev.UpdateBuckets(2000);
  }

  // 2^31 ticks after the last update a thousand bytes are read: the update is ignored, ...
  lemma ReadUnrefreshed(s: Snap)
    requires s == Snap(Dir(true, {}, 1000), Dir(true, {}, 1000), 2000, SLOW, false)
    ensures Step(s, DoReadCallback(2000 + 0x8000_0000, 1000, NoGroup)) == Snap(Dir(true, {BW}, 0), Dir(true, {}, 1000), 2000, SLOW, true)
    ensures Got(s, DoReadCallback(2000 + 0x8000_0000, 1000, NoGroup)) == 1000
  {
    assert Refreshed(s, 2000 + 0x8000_0000) == s;
  }

  // ... one tick back the refill callback fills the bucket, ...
  lemma RefilledBack(s: Snap)
    requires s == Snap(Dir(true, {BW}, 0), Dir(true, {}, 1000), 2000, SLOW, true)
    ensures Step(s, DoRefill(2000 + 0x7fff_ffff)) == Snap(Dir(true, {}, 1000), Dir(true, {}, 1000), 2000 + 0x7fff_ffff, SLOW, false)
  {
    hide Refilled;
    RefillExact(0, 1000, 1, INT_MAX);
    RefillExact(1000, 1000, 1, INT_MAX);
  }

  // ... and a thousand more are read.
  lemma ReadAgain(s: Snap)
    requires s == Snap(Dir(true, {}, 1000), Dir(true, {}, 1000), 2000 + 0x7fff_ffff, SLOW, false)
    ensures Got(s, DoReadCallback(2000 + 0x7fff_ffff, 1000, NoGroup)) == 1000
  {
    assert Refreshed(s, 2000 + 0x7fff_ffff) == s;
  }

  lemma BackReads(s: Snap, ops: seq<Op>)
    requires s == Snap(Dir(true, {}, 1000), Dir(true, {}, 1000), 2000, SLOW, false)
    requires ops == [DoReadCallback(2000 + 0x8000_0000, 1000, NoGroup), DoRefill(2000 + 0x7fff_ffff), DoReadCallback(2000 + 0x7fff_ffff, 1000, NoGroup)]
    ensures BytesRead(s, ops) == 2000
  {
    hide Step;
    var s1 := Step(s, ops[0]);
    var s2 := Step(s1, ops[1]);
    ReadUnrefreshed(s);
    RefilledBack(s1);
    ReadAgain(s2);
    assert Got(s1, ops[1]) == 0;
    hide Got;
    assert Steps(s, ops[..0]) == s && BytesRead(s, ops[..0]) == 0;
    StepsNext(s, ops, 0);
    StepsNext(s, ops, 1);
    StepsNext(s, ops, 2);
    assert ops[..3] == ops;
  }

  // So that a bufferevent reads twice its maximum within one tick.
  method ClockStepsBack() returns (bev: Bev, ops: seq<Op>, read: nat)
    ensures AllModest(ops) && forall i :: 0 <= i < |ops| ==> HasTick(ops[i]) && 2000 + 0x7fff_ffff <= ops[i].tick <= 2000 + 0x7fff_ffff + 1
    ensures bev.cfg == SLOW && read == 2000 > SLOW.value.cfg.readMaximum + 1 * SLOW.value.cfg.readRate
  {
    hide Step, Got, Put, Steps, BytesRead, BytesWritten;
    bev := FullBucket();
    ghost var s := bev.State();
    ops := [DoReadCallback(2000 + 0x8000_0000, 1000, NoGroup), DoRefill(2000 + 0x7fff_ffff), DoReadCallback(2000 + 0x7fff_ffff, 1000, NoGroup)];
    BackReads(s, ops);
    RunPays(s, ops);
    var written;
    read, written := Run(bev, ops);
  }
}
