/** Token buckets: how many bytes may be read or written before more ticks have gone by. */
module TokenBucket {
  import opened Options
  import EventTime
  import Memory

  const TWO32: nat := 0x1_0000_0000
  const TWO64: nat := 0x1_0000_0000_0000_0000
  /** EV_RATE_LIMIT_MAX */
  const RATE_LIMIT_MAX: int := Memory.SSIZE_MAX

  datatype Dir = Reading | Writing {
    function Other(): Dir {
      if Reading? then Writing else Reading
    }
  }

  /** One value for each direction. */
  datatype Pair<T> = Pair(read: T, write: T) {
    function At(d: Dir): T {
      if d.Reading? then read else write
    }

    function With(d: Dir, x: T): Pair<T> {
      if d.Reading? then Pair(x, write) else Pair(read, x)
    }
  }

  /** struct ev_token_bucket_cfg, known by its address. */
  datatype Cfg = Cfg(address: nat, rate: Pair<nat>, maximum: Pair<nat>, msecPerTick: nat) {

    ghost predicate Valid() {
      0 < msecPerTick < TWO32 && forall d :: 1 <= rate.At(d) <= maximum.At(d) <= RATE_LIMIT_MAX
    }

    /** The number of whole ticks in `ms` milliseconds, before it is cut to 32 bits. */
    function Tick(ms: nat): nat
      requires msecPerTick > 0
    {
      ms / msecPerTick
    }
  }

  /** struct ev_token_bucket. The limits are signed 64-bit numbers, the time an unsigned 32-bit one. */
  datatype Bucket = Bucket(limit: Pair<int>, lastUpdated: nat)

  function Min(a: int, b: int): int {
    if a < b then a else b
  }

  /** Conversions to ev_uint64_t and to ev_ssize_t. */
  function U64(x: int): nat {
    x % TWO64
  }

  function S64(x: int): int {
    if U64(x) > Memory.SSIZE_MAX then U64(x) - TWO64 else U64(x)
  }

  /**
   * ev_token_bucket_cfg_new. The tick length is not checked: of the lengths that fit in 32 bits, those
   * of at least a millisecond give a usable configuration.
   */
  function CfgNew(address: nat, rate: Pair<nat>, burst: Pair<nat>, tickLen: Option<EventTime.Timeval>): (r: Option<Cfg>)
    ensures r.Some? <==> forall d :: 1 <= rate.At(d) <= burst.At(d) <= RATE_LIMIT_MAX
    ensures r.Some? ==> r.value.address == address && r.value.rate == rate && r.value.maximum == burst
    ensures r.Some? && tickLen.None? ==> r.value.Valid() && r.value.msecPerTick == 1000
    ensures r.Some? && tickLen.Some? && 0 <= tickLen.value.sec && tickLen.value.Us() < TWO32 * 1000
            ==> r.value.msecPerTick == tickLen.value.Us() / 1000
    ensures r.Some? && tickLen.Some? && 0 <= tickLen.value.sec && tickLen.value.Us() < TWO32 * 1000
            ==> (r.value.Valid() <==> tickLen.value.Us() >= 1000)
  {
    var g := if tickLen.Some? then tickLen.value else EventTime.Timeval(1, 0);
    if rate.read > burst.read || rate.write > burst.write || rate.read < 1 || rate.write < 1 then
      assert !(1 <= rate.At(Reading) <= burst.At(Reading)) || !(1 <= rate.At(Writing) <= burst.At(Writing));
      None
    else if rate.read > RATE_LIMIT_MAX || rate.write > RATE_LIMIT_MAX
            || burst.read > RATE_LIMIT_MAX || burst.write > RATE_LIMIT_MAX then
      assert !(burst.At(Reading) <= RATE_LIMIT_MAX) || !(burst.At(Writing) <= RATE_LIMIT_MAX);
      None
    else
      Some(Cfg(address, rate, burst, Milliseconds(g)))
  }

  /** (tick_len->tv_sec * 1000) + (tick_len->tv_usec & MASK) / 1000, as an unsigned number. */
  function Milliseconds(tv: EventTime.Timeval): (ms: nat)
    ensures ms < TWO32 && (0 <= tv.sec && tv.Us() < TWO32 * 1000 ==> ms == tv.Us() / 1000)
  {
    MillisecondsOf(tv.sec, tv.Micros());
    (tv.sec * 1000 + tv.Micros() / 1000) % TWO32
  }

  lemma MillisecondsOf(sec: int, micros: nat)
    ensures (sec * 1000000 + micros) / 1000 == sec * 1000 + micros / 1000
  {
    var q, r := micros / 1000, micros % 1000;
    assert sec * 1000000 + micros == (sec * 1000 + q) * 1000 + r;
  }

  /** A tick has as many milliseconds as the configuration says. */
  lemma TickLength(c: Cfg, ms: nat)
    requires c.msecPerTick > 0
    ensures c.Tick(ms) * c.msecPerTick <= ms < (c.Tick(ms) + 1) * c.msecPerTick
  {
    var q, m := ms / c.msecPerTick, c.msecPerTick;
    assert ms == q * m + ms % m;
  }

  /** ev_token_bucket_get_tick_ */
  function GetTick(ms: nat, cfg: Cfg): nat
    requires cfg.msecPerTick > 0
  {
    cfg.Tick(ms) % TWO32
  }

  /** ev_token_bucket_init_ */
  method Init(bucket: Bucket, cfg: Cfg, currentTick: nat, reinitialize: bool) returns (r: Bucket)
    ensures reinitialize ==> r.lastUpdated == bucket.lastUpdated
                             && forall d :: r.limit.At(d) == Min(bucket.limit.At(d), cfg.maximum.At(d))
    ensures !reinitialize ==> r.lastUpdated == currentTick && forall d :: r.limit.At(d) == cfg.rate.At(d)
  {
    r := bucket;
    if reinitialize {
      if r.limit.read > cfg.maximum.read {
        r := r.(limit := r.limit.(read := cfg.maximum.read));
      }
      if r.limit.write > cfg.maximum.write {
        r := r.(limit := r.limit.(write := cfg.maximum.write));
      }
    } else {
      r := Bucket(Pair(cfg.rate.read, cfg.rate.write), currentTick);
    }
  }

  /** The new limit after `n` ticks, computed without overflow: `rate` and `maximum` are size_t. */
  function Topped(limit: int, maximum: nat, rate: nat, n: nat): int
    requires n > 0
  {
    if U64(maximum - limit) / n < rate then S64(maximum) else S64(limit + U64(n * rate))
  }

  /** It is what it would be with numbers of any size, for negative limits too. */
  lemma ToppedUp(limit: int, maximum: nat, rate: nat, n: nat)
    requires Memory.SSIZE_MIN <= limit <= maximum <= RATE_LIMIT_MAX && 1 <= n
    ensures Topped(limit, maximum, rate, n) == Min(maximum, limit + n * rate)
  {
    var room := maximum - limit;
    Small(room);
    RoomFor(room, rate, n);
    if room / n < rate {
      Signed(maximum);
    } else {
      Small(n * rate);
      Signed(limit + n * rate);
    }
  }

  lemma Small(x: nat)
    requires x < TWO64
    ensures U64(x) == x
  {
  }

  lemma Signed(x: int)
    requires Memory.SSIZE_MIN <= x <= Memory.SSIZE_MAX
    ensures S64(x) == x
  {
    if x < 0 {
      assert (x + TWO64) % TWO64 == x % TWO64;
    }
  }

  /** The division tells whether `n` ticks at this rate fit, give or take less than a tick. */
  lemma RoomFor(room: nat, rate: nat, n: nat)
    requires n > 0
    ensures room / n < rate ==> room < n * rate
    ensures room / n >= rate ==> n * rate <= room
  {
    var q := room / n;
    assert n * q <= room < n * q + n;
    if q < rate {
      Times(n, q + 1, rate);
    } else {
      Times(n, rate, q);
    }
  }

  lemma Times(n: nat, a: nat, b: nat)
    requires a <= b
    ensures n * a <= n * b
  {
  }

  /**
   * With a limit above the maximum the room left is read as a huge number. The result is what it
   * should be if and only if the limit is not above the maximum, or the tokens come to that number.
   */
  lemma ToppedExactly(limit: int, maximum: nat, rate: nat, n: nat)
    requires Memory.SSIZE_MIN <= limit <= Memory.SSIZE_MAX && maximum <= RATE_LIMIT_MAX && 1 <= n
    ensures Topped(limit, maximum, rate, n) == Min(maximum, limit + n * rate)
            <==> limit <= maximum || n * rate >= TWO64 - (limit - maximum)
  {
    if limit <= maximum {
      ToppedUp(limit, maximum, rate, n);
    } else {
      var room := TWO64 - (limit - maximum);
      Wraps(maximum - limit);
      RoomFor(room, rate, n);
      Signed(maximum);
      Times(n, 0, rate);
      if room / n >= rate {
        Small(n * rate);
        Above(limit, maximum, n * rate);
      }
    }
  }

  lemma Wraps(x: int)
    requires 0 <= x + TWO64 && x < 0
    ensures U64(x) == TWO64 + x
  {
  }

  /** Going around past the maximum leads back to it with one number of tokens only. */
  lemma Above(limit: int, maximum: nat, tokens: nat)
    requires maximum < limit <= Memory.SSIZE_MAX && tokens <= TWO64 - (limit - maximum)
    ensures S64(limit + tokens) == maximum <==> tokens == TWO64 - (limit - maximum)
  {
    if limit + tokens < TWO64 {
      Small(limit + tokens);
    } else {
      Once(limit + tokens);
    }
  }

  lemma Once(x: nat)
    requires TWO64 <= x < 2 * TWO64
    ensures U64(x) == x - TWO64
  {
  }

  /** The number of ticks that an update at tick `now` finds: none if time seems to run backwards. */
  function Elapsed(lastUpdated: nat, now: nat): (n: nat)
    ensures n <= INT_MAX
  {
    var n := (now - lastUpdated) % TWO32;
    if n > INT_MAX then 0 else n
  }

  /** ev_token_bucket_update_ */
  method Update(bucket: Bucket, cfg: Cfg, currentTick: nat) returns (r: Bucket, updated: bool)
    requires cfg.Valid() && forall d :: Memory.SSIZE_MIN <= bucket.limit.At(d) <= Memory.SSIZE_MAX
    ensures updated <==> Elapsed(bucket.lastUpdated, currentTick) > 0
    ensures r.lastUpdated == if updated then currentTick else bucket.lastUpdated
    ensures forall d ::
              r.limit.At(d) == if updated then Topped(bucket.limit.At(d), cfg.maximum.At(d), cfg.rate.At(d),
                                                      Elapsed(bucket.lastUpdated, currentTick))
                               else bucket.limit.At(d)
    ensures forall d | bucket.limit.At(d) <= cfg.maximum.At(d) :: r.limit.At(d) == Credit(bucket, cfg, currentTick, d)
  {
    r := bucket;
    var n := (currentTick - bucket.lastUpdated) % TWO32;
    if n == 0 || n > INT_MAX {
      return r, false;
    }
    forall d | bucket.limit.At(d) <= cfg.maximum.At(d) {
      ToppedUp(bucket.limit.At(d), cfg.maximum.At(d), cfg.rate.At(d), n);
    }
    ghost var dr, dw := Reading, Writing;
    assert bucket.limit.At(dr) == bucket.limit.read && bucket.limit.At(dw) == bucket.limit.write;
    r := Bucket(Pair(Topped(bucket.limit.read, cfg.maximum.read, cfg.rate.read, n),
                     Topped(bucket.limit.write, cfg.maximum.write, cfg.rate.write, n)),
                currentTick);
    updated := true;
  }

  /** What the limit is once an update at tick `now` has been made. */
  function Credit(bucket: Bucket, cfg: Cfg, now: nat, d: Dir): int {
    Min(cfg.maximum.At(d), bucket.limit.At(d) + Elapsed(bucket.lastUpdated, now) * cfg.rate.At(d))
  }

  lemma ElapsedCut(lastUpdated: nat, now: nat)
    ensures Elapsed(lastUpdated, now % TWO32) == Elapsed(lastUpdated, now)
  {
    var q := now / TWO32;
    assert now == q * TWO32 + now % TWO32;
    SameRemainder(now % TWO32 - lastUpdated, q);
  }

  lemma SameRemainder(x: int, q: int)
    ensures (x + q * TWO32) % TWO32 == x % TWO32
  {
  }

  /** However the 32-bit tick wraps, an update `k` ticks later finds at most `k` more ticks. */
  lemma ElapsedLater(lastUpdated: nat, now: nat, k: nat)
    ensures Elapsed(lastUpdated, now + k) <= Elapsed(lastUpdated, now) + k
  {
    var x := now - lastUpdated;
    var n := x % TWO32;
    SameRemainder(n + k, x / TWO32);
    assert (x + k) % TWO32 == (n + k) % TWO32;
    if n + k < TWO32 {
      assert (n + k) % TWO32 == n + k;
    } else {
      SameRemainder(n + k - TWO32, 1);
      assert (n + k - TWO32) % TWO32 <= n + k - TWO32;
    }
  }

  /** The ticks since an update are found exactly, as long as there are fewer than 2^31 of them. */
  lemma ElapsedExactly(updated: nat, k: nat)
    requires k <= INT_MAX
    ensures Elapsed(updated % TWO32, updated + k) == k
  {
    var q := updated / TWO32;
    assert updated + k - updated % TWO32 == k + q * TWO32;
    SameRemainder(k, q);
  }

  /** Each of them is worth what the rate gives, up to the maximum. */
  lemma Earned(bucket: Bucket, cfg: Cfg, updated: nat, k: nat, d: Dir)
    requires bucket.lastUpdated == updated % TWO32 && k <= INT_MAX
    ensures Credit(bucket, cfg, updated + k, d) ==
            if bucket.limit.At(d) + k * cfg.rate.At(d) > cfg.maximum.At(d) then cfg.maximum.At(d)
            else bucket.limit.At(d) + k * cfg.rate.At(d)
  {
    ElapsedExactly(updated, k);
  }

  /** So the credit grows by at most the rate, each tick. */
  lemma CreditLater(bucket: Bucket, cfg: Cfg, now: nat, k: nat, d: Dir)
    ensures Credit(bucket, cfg, now + k, d) <= Credit(bucket, cfg, now, d) + k * cfg.rate.At(d)
  {
    var rate := cfg.rate.At(d);
    var n, n' := Elapsed(bucket.lastUpdated, now), Elapsed(bucket.lastUpdated, now + k);
    ElapsedLater(bucket.lastUpdated, now, k);
    assert n' * rate <= (n + k) * rate == n * rate + k * rate;
    assert k * rate >= 0;
  }

  /** Right after an update the limit is the credit. */
  lemma CreditUpdated(was: Bucket, bucket: Bucket, cfg: Cfg, now: nat, d: Dir)
    requires bucket.limit.At(d) == Credit(was, cfg, now, d)
    requires bucket.lastUpdated == if Elapsed(was.lastUpdated, now) > 0 then now % TWO32 else was.lastUpdated
    ensures Credit(bucket, cfg, now, d) == bucket.limit.At(d) && Elapsed(bucket.lastUpdated, now) == 0
  {
    assert (now - now % TWO32) % TWO32 == 0 by {
      SameRemainder(0, now / TWO32);
    }
  }
}
