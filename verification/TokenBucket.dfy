/** Token buckets, libevent/bufferevent_ratelim.c: ev_token_bucket_cfg_new, ev_token_bucket_init_ and
    ev_token_bucket_update_, with the wrap-around of size_t (64 bits), of ev_ssize_t and of the 32-bit
    tick counter written out. */
module TokenBucket {
  import opened Pointers

  const TWO32: int := 0x1_0000_0000
  const TWO64: int := 0x1_0000_0000_0000_0000
  const INT_MAX: int := 0x7fff_ffff
  const SSIZE_MAX: int := 0x7fff_ffff_ffff_ffff
  const SSIZE_MIN: int := -0x8000_0000_0000_0000
  const RATE_LIMIT_MAX: int := SSIZE_MAX

  // Conversions to size_t and to ev_ssize_t.
  function U64(x: int): int {
    x % TWO64
  }

  function S64(x: int): int {
    if x % TWO64 > SSIZE_MAX then x % TWO64 - TWO64 else x % TWO64
  }

  datatype Cfg = Cfg(readRate: int, readMaximum: int, writeRate: int, writeMaximum: int, msecPerTick: int)
  {
    ghost predicate Valid() {
      && 1 <= readRate <= readMaximum <= RATE_LIMIT_MAX
      && 1 <= writeRate <= writeMaximum <= RATE_LIMIT_MAX
      && 0 <= msecPerTick < TWO32
    }
  }

  // A struct timeval.
  datatype Timeval = Timeval(sec: int, usec: int)
  {
    ghost predicate Valid() {
      0 <= sec && 0 <= usec < 1000000
    }

    function Msec(): int {
      sec * 1000 + usec / 1000
    }
  }

  const ONE_SECOND := Timeval(1, 0)
  const MICROSECONDS_MASK: int := 0xfffff

  // ev_token_bucket_cfg_new; the milliseconds of a tick are an unsigned int
  function CfgNew(readRate: nat, readBurst: nat, writeRate: nat, writeBurst: nat, tickLen: Option<Timeval>): (r: Option<Cfg>)
    requires tickLen.Some? ==> tickLen.value.Valid()
    ensures r.Some? <==> 1 <= readRate <= readBurst <= RATE_LIMIT_MAX && 1 <= writeRate <= writeBurst <= RATE_LIMIT_MAX
    ensures r.Some? ==> r.value.Valid() && (r.value.readRate, r.value.readMaximum, r.value.writeRate, r.value.writeMaximum) == (readRate, readBurst, writeRate, writeBurst)
    ensures r.Some? ==> r.value.msecPerTick == if tickLen.None? then 1000 else tickLen.value.Msec() % TWO32
  {
    var len := if tickLen.None? then ONE_SECOND else tickLen.value;
    if readRate > readBurst || writeRate > writeBurst || readRate < 1 || writeRate < 1 then None
    else if readRate > RATE_LIMIT_MAX || writeRate > RATE_LIMIT_MAX || readBurst > RATE_LIMIT_MAX || writeBurst > RATE_LIMIT_MAX then None
    else Some(Cfg(readRate, readBurst, writeRate, writeBurst,
                  (len.sec * 1000 + len.usec % (MICROSECONDS_MASK + 1) / 1000) % TWO32))
  }

  // A configuration whose ticks have no milliseconds, by which ev_token_bucket_get_tick_ would
  // divide, is accepted exactly for ticks of less than a millisecond, and for those of a multiple of
  // 2^32 milliseconds.
  lemma TickOfNoLength(rate: nat, burst: nat, len: Timeval)
    requires 1 <= rate <= burst <= RATE_LIMIT_MAX && len.Valid()
    ensures CfgNew(rate, burst, rate, burst, Some(len)).value.msecPerTick == 0 <==>
            (len.sec == 0 && len.usec < 1000) || (len.Msec() >= TWO32 && len.Msec() % TWO32 == 0)
    ensures len.sec == 0 && len.usec < 1000 <==> len.Msec() == 0
  {
    hide CfgNew;
    MsecZero(len);
    assert CfgNew(rate, burst, rate, burst, Some(len)).value.msecPerTick == len.Msec() % TWO32;
    hide Timeval.Msec;
    SmallMod(len.Msec());
  }

  lemma MsecZero(len: Timeval)
    requires len.Valid()
    ensures len.Msec() >= 0 && (len.Msec() == 0 <==> len.sec == 0 && len.usec < 1000)
  {
  }

  lemma SmallMod(n: nat)
    ensures n < TWO32 ==> n % TWO32 == n
  {
  }

  // The ticks since the epoch, as a number without end.
  function RealTick(now: Timeval, msecPerTick: int): int
    requires msecPerTick > 0
  {
    now.Msec() / msecPerTick
  }

  // ev_token_bucket_get_tick_
  function GetTick(now: Timeval, cfg: Cfg): int
    requires cfg.msecPerTick > 0
  {
    U64(U64(now.sec * 1000) + now.usec / 1000) / cfg.msecPerTick % TWO32
  }

  // The counter shows the ticks since the epoch modulo 2^32 ...
  lemma TickShown(now: Timeval, cfg: Cfg)
    requires cfg.msecPerTick > 0 && now.Valid() && now.Msec() < TWO64
    ensures GetTick(now, cfg) == RealTick(now, cfg.msecPerTick) % TWO32
  {
    assert U64(now.sec * 1000) == now.sec * 1000;
    assert U64(U64(now.sec * 1000) + now.usec / 1000) == now.Msec();
  }

  // ... and they go forward with the time.
  lemma TicksGoForward(now: Timeval, later: Timeval, msecPerTick: int)
    requires msecPerTick > 0 && now.Valid() && later.Valid()
    requires now.sec < later.sec || (now.sec == later.sec && now.usec <= later.usec)
    ensures RealTick(now, msecPerTick) <= RealTick(later, msecPerTick)
  {
    assert now.Msec() <= later.Msec();
    DivMono(now.Msec(), later.Msec(), msecPerTick);
  }

  lemma DivMono(a: nat, b: nat, n: nat)
    requires n > 0 && a <= b
    ensures a / n <= b / n
  {
    DivLess(a, n, b / n + 1);
    DivLess(b, n, b / n + 1);
  }

  // What a bucket should hold after n ticks.
  function Topped(limit: int, maximum: int, rate: int, n: int): int {
    if limit + n * rate > maximum then maximum else limit + n * rate
  }

  // The refill as it is computed.
  function Refilled(limit: int, maximum: int, rate: int, n: int): int
    requires n > 0
  {
    if U64(maximum - limit) / n < rate then maximum else S64(limit + U64(n * rate))
  }

  // A quotient compared with r is the dividend compared with n * r.
  lemma DivLess(d: nat, n: nat, r: nat)
    requires n > 0
    ensures d / n < r <==> d < n * r
  {
    var q := d / n;
    assert n * q <= d < n * q + n;
    if q < r {
      MulMono(n, q + 1, r);
      assert n * (q + 1) == n * q + n;
    } else {
      MulMono(n, r, q);
    }
  }

  lemma MulMono(n: nat, a: int, b: int)
    requires a <= b
    ensures n * a <= n * b
  {
    assert n * b - n * a == n * (b - a);
  }

  // For a bucket that is not over its maximum, in debt or not, the refill never overflows.
  lemma RefillExact(limit: int, maximum: int, rate: int, n: int)
    requires 1 <= rate <= maximum <= SSIZE_MAX && SSIZE_MIN <= limit <= maximum && 1 <= n <= INT_MAX
    ensures Refilled(limit, maximum, rate, n) == Topped(limit, maximum, rate, n)
    ensures limit < Refilled(limit, maximum, rate, n) <= maximum || limit == maximum == Refilled(limit, maximum, rate, n)
  {
    var d := maximum - limit;
    DivLess(d, n, rate);
    MulMono(n, 1, rate);
    assert U64(d) == d;
    if d >= n * rate {
      assert U64(n * rate) == n * rate;
    }
  }

  // What the code computes for a bucket that refunds have raised over its maximum: the difference
  // wraps around, and the sum may.
  lemma RefilledOver(limit: int, maximum: int, rate: int, n: int)
    requires 1 <= rate <= maximum <= SSIZE_MAX && maximum < limit <= SSIZE_MAX && 1 <= n <= INT_MAX
    ensures var sum := limit + n * rate;
            && sum > limit
            && Refilled(limit, maximum, rate, n) ==
               if sum >= TWO64 + maximum then maximum
               else if sum >= TWO64 then sum - TWO64
               else if sum > SSIZE_MAX then sum - TWO64 else sum
  {
    MulMono(n, 1, rate);
    var d := TWO64 - (limit - maximum);
    assert U64(maximum - limit) == d;
    DivLess(d, n, rate);
    if n * rate <= d {
      assert U64(n * rate) == n * rate;
    }
  }

  // Such a bucket is brought back to its maximum exactly when the amount added is as large as the
  // difference that has wrapped around ...
  lemma RefillOver(limit: int, maximum: int, rate: int, n: int)
    requires 1 <= rate <= maximum <= SSIZE_MAX && maximum < limit <= SSIZE_MAX && 1 <= n <= INT_MAX
    ensures Topped(limit, maximum, rate, n) == maximum
    ensures Refilled(limit, maximum, rate, n) == maximum <==> n * rate >= TWO64 - (limit - maximum)
  {
    RefilledOver(limit, maximum, rate, n);
  }

  // ... and keeps growing as long as the sum can be represented.
  lemma RefillOverGrows(limit: int, maximum: int, rate: int, n: int)
    requires 1 <= rate <= maximum <= SSIZE_MAX && maximum < limit <= SSIZE_MAX && 1 <= n <= INT_MAX
    ensures Refilled(limit, maximum, rate, n) > limit <==> limit + n * rate <= SSIZE_MAX
    ensures limit + n * rate <= SSIZE_MAX ==> Refilled(limit, maximum, rate, n) == limit + n * rate
  {
    RefilledOver(limit, maximum, rate, n);
  }

  // The ticks that have passed, as the 32-bit counter shows them.
  function Elapsed(tick: int, lastUpdated: int): int {
    (tick - lastUpdated) % TWO32
  }

  class Bucket {
    var readLimit: int
    var writeLimit: int
    var lastUpdated: int

    ghost predicate Valid()
      reads this
    {
      && 0 <= lastUpdated < TWO32
      && SSIZE_MIN <= readLimit <= SSIZE_MAX && SSIZE_MIN <= writeLimit <= SSIZE_MAX
    }

    // No refund has raised the bucket over its maxima.
    ghost predicate Within(cfg: Cfg)
      reads this
    {
      readLimit <= cfg.readMaximum && writeLimit <= cfg.writeMaximum
    }

    // ev_token_bucket_init_ when not reinitializing
    method Init(cfg: Cfg, tick: int)
      requires cfg.Valid() && 0 <= tick < TWO32
      modifies this
      ensures Valid() && Within(cfg) && readLimit == cfg.readRate && writeLimit == cfg.writeRate && lastUpdated == tick
    {
      readLimit, writeLimit, lastUpdated := cfg.readRate, cfg.writeRate, tick;
    }

    // a bucket in memory cleared by calloc
    constructor Zeroed()
      ensures Valid() && readLimit == writeLimit == lastUpdated == 0
    {
      readLimit, writeLimit, lastUpdated := 0, 0, 0;
    }

    // ev_token_bucket_init_ for a bucket in use: it is clipped to the new maxima
    method Reinit(cfg: Cfg)
      requires cfg.Valid() && Valid()
      modifies this
      ensures Valid() && Within(cfg) && lastUpdated == old(lastUpdated)
      ensures readLimit == if old(readLimit) > cfg.readMaximum then cfg.readMaximum else old(readLimit)
      ensures writeLimit == if old(writeLimit) > cfg.writeMaximum then cfg.writeMaximum else old(writeLimit)
      ensures (readLimit > 0 <==> old(readLimit) > 0) && (writeLimit > 0 <==> old(writeLimit) > 0)
    {
      if readLimit > cfg.readMaximum {
        readLimit := cfg.readMaximum;
      }
      if writeLimit > cfg.writeMaximum {
        writeLimit := cfg.writeMaximum;
      }
    }

    // ev_token_bucket_update_
    method Update(cfg: Cfg, tick: int) returns (r: bool)
      requires cfg.Valid() && Valid() && 0 <= tick < TWO32
      modifies this
      ensures Valid()
      ensures r <==> 0 < Elapsed(tick, old(lastUpdated)) <= INT_MAX
      ensures !r ==> readLimit == old(readLimit) && writeLimit == old(writeLimit) && lastUpdated == old(lastUpdated)
      ensures r ==> var n := Elapsed(tick, old(lastUpdated));
                    && lastUpdated == tick
                    && readLimit == Refilled(old(readLimit), cfg.readMaximum, cfg.readRate, n)
                    && writeLimit == Refilled(old(writeLimit), cfg.writeMaximum, cfg.writeRate, n)
      ensures r && old(Within(cfg)) ==> var n := Elapsed(tick, old(lastUpdated));
                    && readLimit == Topped(old(readLimit), cfg.readMaximum, cfg.readRate, n)
                    && writeLimit == Topped(old(writeLimit), cfg.writeMaximum, cfg.writeRate, n)
      ensures old(Within(cfg)) ==> Within(cfg)
    {
      hide Refilled, Topped;
      var n := (tick - lastUpdated) % TWO32;
      if n == 0 || n > INT_MAX {
        return false;
      }
      if Within(cfg) {
        RefillExact(readLimit, cfg.readMaximum, cfg.readRate, n);
        RefillExact(writeLimit, cfg.writeMaximum, cfg.writeRate, n);
      }
      RefilledIs(readLimit, cfg.readMaximum, cfg.readRate, n);
      RefilledIs(writeLimit, cfg.writeMaximum, cfg.writeRate, n);
      if U64(cfg.readMaximum - readLimit) / n < cfg.readRate {
        readLimit := cfg.readMaximum;
      } else {
        readLimit := S64(readLimit + U64(n * cfg.readRate));
      }
      if U64(cfg.writeMaximum - writeLimit) / n < cfg.writeRate {
        writeLimit := cfg.writeMaximum;
      } else {
        writeLimit := S64(writeLimit + U64(n * cfg.writeRate));
      }
      lastUpdated := tick;
      return true;
    }
  }

  // The sum leaves the range of an ev_ssize_t, so that a bucket over its maximum ends without tokens.
  predicate Wraps(limit: int, maximum: int, rate: int, n: int) {
    limit > maximum && SSIZE_MAX < limit + n * rate <= TWO64
  }

  // Only then does a refill take a positive limit away.
  lemma RefillSign(limit: int, maximum: int, rate: int, n: int)
    requires 1 <= rate <= maximum <= SSIZE_MAX && 0 < limit <= SSIZE_MAX && 1 <= n <= INT_MAX
    ensures Refilled(limit, maximum, rate, n) <= 0 <==> Wraps(limit, maximum, rate, n)
  {
    if limit <= maximum {
      RefillExact(limit, maximum, rate, n);
    } else {
      RefilledOver(limit, maximum, rate, n);
    }
  }

  lemma RefilledIs(limit: int, maximum: int, rate: int, n: int)
    requires n > 0
    ensures Refilled(limit, maximum, rate, n) ==
            if U64(maximum - limit) / n < rate then maximum else S64(limit + U64(n * rate))
  {
  }
}
