/** Rate limiting of one bufferevent, libevent/bufferevent_ratelim.c, with the suspend reasons it
    drives, libevent/bufferevent.c, and the callbacks that read and write under it,
    libevent/bufferevent_sock.c. */
module RateLimit {
  import opened Pointers
  import opened TokenBucket

  const MAX_SINGLE_DEFAULT := 16384

  // The BEV_SUSPEND_ flags.
  datatype Reason = WM | BW | BW_GROUP | LOOKUP | FILT_READ

  // One direction of a bufferevent: what the user enabled, what holds it back, and whether the
  // backend was last told to go on.
  datatype Side = Side(enabled: bool, suspended: set<Reason>, active: bool)
  {
    // The backend works exactly when the user wants it and nothing holds it back.
    ghost predicate Valid() {
      active <==> enabled && suspended == {}
    }
  }

  // A configuration is known by its address.
  datatype CfgRef = CfgRef(address: int, cfg: Cfg)

  // What a bufferevent sees of its group.
  datatype GroupView = NoGroup | GroupSuspended | InGroup(limit: int, members: nat, minShare: int)
  {
    // An equal share of the group's tokens, rounded toward zero, but not less than min_share.
    function Share(): int
      requires InGroup?
    {
      var equal := if members == 0 then 0 else if limit >= 0 then limit / members else -(-limit / members);
      if equal < minShare then minShare else equal
    }
  }

  // ----- the state as a value -----

  // A direction with its tokens.
  datatype Dir = Dir(enabled: bool, suspended: set<Reason>, limit: int)

  datatype Snap = Snap(read: Dir, write: Dir, last: int, cfg: Option<CfgRef>, pending: bool)
  {
    ghost predicate Sound() {
      && 0 <= last < TWO32
      && SSIZE_MIN <= read.limit <= SSIZE_MAX && SSIZE_MIN <= write.limit <= SSIZE_MAX
      && (cfg.Some? ==> cfg.value.cfg.Valid())
      && (cfg.None? ==> BW !in read.suspended && BW !in write.suspended && !pending)
    }

    // A direction without tokens is suspended, and while a direction is, the refill timer is pending.
    ghost predicate NoLostWakeup() {
      cfg.Some? ==>
        && (read.limit <= 0 ==> BW in read.suspended)
        && (write.limit <= 0 ==> BW in write.suspended)
        && (BW in read.suspended || BW in write.suspended ==> pending)
    }

    // No refund has raised a bucket over its maximum.
    ghost predicate Within() {
      cfg.Some? ==> read.limit <= cfg.value.cfg.readMaximum && write.limit <= cfg.value.cfg.writeMaximum
    }

    // The refill at this tick takes the tokens of a direction that is not suspended: the sum of its
    // limit, which refunds have raised over the maximum, and of what is added leaves the range.
    predicate RefillWraps(tick: int) {
      cfg.Some? &&
      var n, c := Elapsed(tick, last), cfg.value.cfg;
      && 0 < n <= INT_MAX
      && ((BW !in read.suspended && Wraps(read.limit, c.readMaximum, c.readRate, n)) ||
          (BW !in write.suspended && Wraps(write.limit, c.writeMaximum, c.writeRate, n)))
    }

    // The two directions exchanged.
    function Mirror(): Snap {
      Snap(write, read, last, cfg, pending)
    }
  }

  function Enabled(s: Snap, r: bool, w: bool): Snap {
    s.(read := s.read.(enabled := s.read.enabled || r), write := s.write.(enabled := s.write.enabled || w))
  }

  function Disabled(s: Snap, r: bool, w: bool): Snap {
    s.(read := s.read.(enabled := s.read.enabled && !r), write := s.write.(enabled := s.write.enabled && !w))
  }

  // The bucket brought up to a tick.
  function Refreshed(s: Snap, tick: int): Snap {
    if s.cfg.None? then s else
    var n, c := Elapsed(tick, s.last), s.cfg.value.cfg;
    if !(0 < n <= INT_MAX) then s else
    s.(read := s.read.(limit := Refilled(s.read.limit, c.readMaximum, c.readRate, n)),
       write := s.write.(limit := Refilled(s.write.limit, c.writeMaximum, c.writeRate, n)),
       last := tick)
  }

  // A direction whose group is suspended is held back with it.
  function Held(s: Snap, isWrite: bool, group: GroupView): Snap {
    if !group.GroupSuspended? then s
    else if isWrite then s.(write := s.write.(suspended := s.write.suspended + {BW_GROUP}))
    else s.(read := s.read.(suspended := s.read.suspended + {BW_GROUP}))
  }

  // The tokens there are, or the maximum for a single call, and no more than the share of the group.
  function RlimMax(s: Snap, isWrite: bool, group: GroupView, maxSingle: nat): (r: nat)
    ensures s.cfg.Some? && r > 0 ==> r <= if isWrite then s.write.limit else s.read.limit
    ensures group.InGroup? && r > 0 ==> r <= group.Share()
  {
    var most := if s.cfg.None? then maxSingle else if isWrite then s.write.limit else s.read.limit;
    if most <= 0 || group.GroupSuspended? || (group.InGroup? && group.Share() <= 0) then 0
    else if group.InGroup? && group.Share() < most then group.Share() else most
  }

  // Bytes taken off a bucket; the direction is suspended exactly when nothing is left, and the timer
  // stops when that frees the last direction.
  function ReadCharged(s: Snap, bytes: int): Snap {
    if s.cfg.None? then s else
    var left := s.read.limit - bytes;
    if left <= 0 then
      s.(read := s.read.(limit := left, suspended := s.read.suspended + {BW}), pending := true)
    else
      s.(read := s.read.(limit := left, suspended := s.read.suspended - {BW}),
         pending := s.pending && !(BW in s.read.suspended && BW !in s.write.suspended))
  }

  function WriteCharged(s: Snap, bytes: int): Snap {
    ReadCharged(s.Mirror(), bytes).Mirror()
  }

  // A charge or a refund by the user; only crossing zero changes the suspension.
  function ReadAdjusted(s: Snap, decr: int): Snap {
    var left := s.read.limit - decr;
    if s.read.limit > 0 >= left then
      s.(read := s.read.(limit := left, suspended := s.read.suspended + {BW}), pending := true)
    else if s.read.limit <= 0 < left then
      s.(read := s.read.(limit := left, suspended := s.read.suspended - {BW}),
         pending := s.pending && BW in s.write.suspended)
    else
      s.(read := s.read.(limit := left))
  }

  function WriteAdjusted(s: Snap, decr: int): Snap {
    ReadAdjusted(s.Mirror(), decr).Mirror()
  }

  function Freed(d: Dir): Dir {
    if d.limit > 0 then d.(suspended := d.suspended - {BW}) else d
  }

  // Every suspended direction with tokens goes on, and the timer is set again while one has none.
  function CalledBack(s: Snap, tick: int): Snap {
    var t := Refreshed(s, tick);
    var r, w := Freed(t.read), Freed(t.write);
    t.(read := r, write := w, pending := BW in r.suspended || BW in w.suspended)
  }

  // The suspension for tokens, set anew.
  function Judged(d: Dir): Dir {
    d.(suspended := if d.limit > 0 then d.suspended - {BW} else d.suspended + {BW})
  }

  function Clipped(d: Dir, maximum: int): Dir {
    if d.limit > maximum then d.(limit := maximum) else d
  }

  // A configuration installed, replaced or removed.
  function Configured(s: Snap, c: Option<CfgRef>, tick: int): Snap {
    if c == s.cfg then s
    else if c.None? then
      s.(read := s.read.(suspended := s.read.suspended - {BW}), write := s.write.(suspended := s.write.suspended - {BW}),
         cfg := None, pending := false)
    else
      var k := c.value.cfg;
      var r := Judged(if s.cfg.Some? then Clipped(s.read, k.readMaximum) else s.read.(limit := k.readRate));
      var w := Judged(if s.cfg.Some? then Clipped(s.write, k.writeMaximum) else s.write.(limit := k.writeRate));
      Snap(r, w, if s.cfg.Some? then s.last else tick, c, r.limit <= 0 || w.limit <= 0)
  }

  // What a callback moves: nothing while its direction is suspended, otherwise what it would, within
  // the limit.
  function Took(s: Snap, isWrite: bool, want: nat, group: GroupView): nat {
    var max := RlimMax(s, isWrite, group, MAX_SINGLE_DEFAULT);
    if (if isWrite then s.write else s.read).suspended != {} then 0 else if want < max then want else max
  }

  function ReadDone(s: Snap, tick: int, want: nat, group: GroupView): Snap {
    var t := Held(Refreshed(s, tick), false, group);
    var bytes := Took(t, false, want, group);
    if bytes > 0 then ReadCharged(t, bytes) else t
  }

  function WriteDone(s: Snap, tick: int, want: nat, group: GroupView): Snap {
    var t := Held(Refreshed(s, tick), true, group);
    var bytes := Took(t, true, want, group);
    if bytes > 0 then WriteCharged(t, bytes) else t
  }

  // ----- the bufferevent -----

  class Bev {
    var read: Side
    var write: Side
    const limit: Bucket
    var cfg: Option<CfgRef>
    var refillPending: bool

    ghost function State(): Snap
      reads this, limit
    {
      Snap(Dir(read.enabled, read.suspended, limit.readLimit), Dir(write.enabled, write.suspended, limit.writeLimit),
           limit.lastUpdated, cfg, refillPending)
    }

    // The backend does as it is told, and the numbers fit their types.
    ghost predicate Sound()
      reads this, limit
    {
      read.Valid() && write.Valid() && State().Sound()
    }

    constructor ()
      ensures Sound() && State() == Snap(Dir(false, {}, 0), Dir(true, {}, 0), 0, None, false) && fresh(limit)
    {
      read, write, cfg, refillPending := Side(false, {}, false), Side(true, {}, true), None, false;
      limit := new Bucket.Zeroed();
    }

    // bufferevent_suspend_read_
    method SuspendRead(what: Reason)
      requires read.Valid()
      modifies this`read
      ensures read.Valid() && read.enabled == old(read.enabled) && read.suspended == old(read.suspended) + {what}
    {
      if read.suspended == {} {
        read := read.(active := false);
      }
      read := read.(suspended := read.suspended + {what});
    }

    // bufferevent_unsuspend_read_
    method UnsuspendRead(what: Reason)
      requires read.Valid()
      modifies this`read
      ensures read.Valid() && read.enabled == old(read.enabled) && read.suspended == old(read.suspended) - {what}
    {
      read := read.(suspended := read.suspended - {what});
      if read.suspended == {} && read.enabled {
        read := read.(active := true);
      }
    }

    // bufferevent_suspend_write_
    method SuspendWrite(what: Reason)
      requires write.Valid()
      modifies this`write
      ensures write.Valid() && write.enabled == old(write.enabled) && write.suspended == old(write.suspended) + {what}
    {
      if write.suspended == {} {
        write := write.(active := false);
      }
      write := write.(suspended := write.suspended + {what});
    }

    // bufferevent_unsuspend_write_
    method UnsuspendWrite(what: Reason)
      requires write.Valid()
      modifies this`write
      ensures write.Valid() && write.enabled == old(write.enabled) && write.suspended == old(write.suspended) - {what}
    {
      write := write.(suspended := write.suspended - {what});
      if write.suspended == {} && write.enabled {
        write := write.(active := true);
      }
    }

    // bufferevent_enable
    method Enable(r: bool, w: bool)
      requires Sound()
      modifies this`read, this`write
      ensures Sound() && State() == Enabled(old(State()), r, w)
    {
      var implRead, implWrite := r, w;
      if read.suspended != {} {
        implRead := false;
      }
      if write.suspended != {} {
        implWrite := false;
      }
      read, write := read.(enabled := read.enabled || r), write.(enabled := write.enabled || w);
      if implRead {
        read := read.(active := true);
      }
      if implWrite {
        write := write.(active := true);
      }
    }

    // bufferevent_disable
    method Disable(r: bool, w: bool)
      requires Sound()
      modifies this`read, this`write
      ensures Sound() && State() == Disabled(old(State()), r, w)
    {
      read, write := read.(enabled := read.enabled && !r), write.(enabled := write.enabled && !w);
      if r {
        read := read.(active := false);
      }
      if w {
        write := write.(active := false);
      }
    }

    // bufferevent_update_buckets: it may give tokens to a suspended direction, which stays suspended
    // until the refill callback runs
    method UpdateBuckets(tick: int)
      requires Sound() && cfg.Some? && 0 <= tick < TWO32
      modifies limit
      ensures Sound() && State() == Refreshed(old(State()), tick)
    {
      hide Refilled;
      if tick != limit.lastUpdated {
        var _ := limit.Update(cfg.value.cfg, tick);
      }
    }

    // bufferevent_get_rlim_max_
    method GetRlimMax(isWrite: bool, tick: int, group: GroupView, maxSingle: nat) returns (r: nat)
      requires Sound() && 0 <= tick < TWO32
      modifies this`read, this`write, limit
      ensures Sound() && State() == Held(Refreshed(old(State()), tick), isWrite, group)
      ensures r == RlimMax(State(), isWrite, group, maxSingle)
    {
      hide Refilled;
      var max: int := maxSingle;
      if cfg.Some? {
        UpdateBuckets(tick);
        max := if isWrite then limit.writeLimit else limit.readLimit;
      }
      if !group.NoGroup? {
        var share := 0;
        if group.GroupSuspended? {
          if isWrite {
            SuspendWrite(BW_GROUP);
          } else {
            SuspendRead(BW_GROUP);
          }
        } else {
          share := group.Share();
        }
        if max > share {
          max := share;
        }
      }
      r := if max < 0 then 0 else max;
    }

    // bufferevent_decrement_read_buckets_, the part on the bufferevent's own bucket
    method DecrementReadBuckets(bytes: int)
      requires Sound() && (cfg.Some? ==> SSIZE_MIN <= limit.readLimit - bytes <= SSIZE_MAX)
      modifies this`read, this`refillPending, limit`readLimit
      ensures Sound() && State() == ReadCharged(old(State()), bytes)
    {
      if cfg.Some? {
        limit.readLimit := limit.readLimit - bytes;
        if limit.readLimit <= 0 {
          SuspendRead(BW);
          refillPending := true;
        } else if BW in read.suspended {
          if BW !in write.suspended {
            refillPending := false;
          }
          UnsuspendRead(BW);
        }
      }
    }

    // bufferevent_decrement_write_buckets_, likewise
    method DecrementWriteBuckets(bytes: int)
      requires Sound() && (cfg.Some? ==> SSIZE_MIN <= limit.writeLimit - bytes <= SSIZE_MAX)
      modifies this`write, this`refillPending, limit`writeLimit
      ensures Sound() && State() == WriteCharged(old(State()), bytes)
    {
      if cfg.Some? {
        limit.writeLimit := limit.writeLimit - bytes;
        if limit.writeLimit <= 0 {
          SuspendWrite(BW);
          refillPending := true;
        } else if BW in write.suspended {
          if BW !in read.suspended {
            refillPending := false;
          }
          UnsuspendWrite(BW);
        }
      }
    }

    // bufferevent_decrement_read_limit; a negative amount is a refund
    method DecrementReadLimit(decr: int)
      requires Sound() && cfg.Some? && SSIZE_MIN <= limit.readLimit - decr <= SSIZE_MAX
      modifies this`read, this`refillPending, limit`readLimit
      ensures Sound() && State() == ReadAdjusted(old(State()), decr)
    {
      var oldLimit := limit.readLimit;
      limit.readLimit := limit.readLimit - decr;
      var newLimit := limit.readLimit;
      if oldLimit > 0 && newLimit <= 0 {
        SuspendRead(BW);
        refillPending := true;
      } else if oldLimit <= 0 && newLimit > 0 {
        if BW !in write.suspended {
          refillPending := false;
        }
        UnsuspendRead(BW);
      }
    }

    // bufferevent_decrement_write_limit
    method DecrementWriteLimit(decr: int)
      requires Sound() && cfg.Some? && SSIZE_MIN <= limit.writeLimit - decr <= SSIZE_MAX
      modifies this`write, this`refillPending, limit`writeLimit
      ensures Sound() && State() == WriteAdjusted(old(State()), decr)
    {
      var oldLimit := limit.writeLimit;
      limit.writeLimit := limit.writeLimit - decr;
      var newLimit := limit.writeLimit;
      if oldLimit > 0 && newLimit <= 0 {
        SuspendWrite(BW);
        refillPending := true;
      } else if oldLimit <= 0 && newLimit > 0 {
        if BW !in read.suspended {
          refillPending := false;
        }
        UnsuspendWrite(BW);
      }
    }

    // bev_refill_callback_, called when its timer, which is then no longer pending, runs out
    method RefillCallback(tick: int)
      requires Sound() && cfg.Some? && refillPending && 0 <= tick < TWO32
      modifies this`read, this`write, this`refillPending, limit
      ensures Sound() && State() == CalledBack(old(State()), tick)
    {
      hide Refilled;
      refillPending := false;
      var _ := limit.Update(cfg.value.cfg, tick);
      var again := false;
      if BW in read.suspended {
        if limit.readLimit > 0 {
          UnsuspendRead(BW);
        } else {
          again := true;
        }
      }
      if BW in write.suspended {
        if limit.writeLimit > 0 {
          UnsuspendWrite(BW);
        } else {
          again := true;
        }
      }
      if again {
        refillPending := true;
      }
    }

    // bufferevent_set_rate_limit
    method SetRateLimit(c: Option<CfgRef>, tick: int)
      requires Sound() && 0 <= tick < TWO32 && (c.Some? ==> c.value.cfg.Valid())
      modifies this`read, this`write, this`refillPending, this`cfg, limit
      ensures Sound() && State() == Configured(old(State()), c, tick)
    {
      if c.None? {
        cfg := None;
        UnsuspendRead(BW);
        UnsuspendWrite(BW);
        refillPending := false;
        return;
      }
      if cfg == c {
        return;
      }
      var reinit := cfg.Some?;
      cfg := c;
      if reinit {
        limit.Reinit(c.value.cfg);
        refillPending := false;
      } else {
        limit.Init(c.value.cfg, tick);
      }
      var suspended := false;
      if limit.readLimit > 0 {
        UnsuspendRead(BW);
      } else {
        SuspendRead(BW);
        suspended := true;
      }
      if limit.writeLimit > 0 {
        UnsuspendWrite(BW);
      } else {
        SuspendWrite(BW);
        suspended := true;
      }
      if suspended {
        refillPending := true;
      }
    }

    // bufferevent_readcb, as far as the limit goes: want is what the watermark and the socket allow
    method ReadCallback(tick: int, want: nat, group: GroupView) returns (bytes: nat)
      requires Sound() && 0 <= tick < TWO32
      modifies this`read, this`write, this`refillPending, limit
      ensures Sound() && State() == ReadDone(old(State()), tick, want, group)
      ensures bytes == Took(Held(Refreshed(old(State()), tick), false, group), false, want, group)
    {
      hide Refreshed, ReadCharged;
      bytes := GetRlimMax(false, tick, group, MAX_SINGLE_DEFAULT);
      if want < bytes {
        bytes := want;
      }
      if read.suspended != {} {
        bytes := 0;
      }
      if bytes > 0 {
        DecrementReadBuckets(bytes);
      }
    }

    // bufferevent_writecb, likewise: want is what the output buffer holds and the socket takes
    method WriteCallback(tick: int, want: nat, group: GroupView) returns (bytes: nat)
      requires Sound() && 0 <= tick < TWO32
      modifies this`read, this`write, this`refillPending, limit
      ensures Sound() && State() == WriteDone(old(State()), tick, want, group)
      ensures bytes == Took(Held(Refreshed(old(State()), tick), true, group), true, want, group)
    {
      hide Refreshed, WriteCharged;
      bytes := GetRlimMax(true, tick, group, MAX_SINGLE_DEFAULT);
      if want < bytes {
        bytes := want;
      }
      if write.suspended != {} {
        bytes := 0;
      }
      if bytes > 0 {
        DecrementWriteBuckets(bytes);
      }
    }
  }
}
