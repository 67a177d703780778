/** Rate limits of single bufferevents and of a group that shares one bucket among its members. */
module RateLimits {
  import opened Options
  import opened TokenBucket
  import opened Suspension

  const MAX_SINGLE_DEFAULT: nat := 16384
  const MIN_SHARE_DEFAULT: nat := 64

  /** A bufferevent: struct bufferevent_rate_limit, and the reasons why it is suspended. */
  datatype Bev = Bev(cfg: Option<Cfg>, bucket: Bucket, grouped: bool, suspended: Pair<set<Reason>>, refillPending: bool,
                     maxSingle: Pair<nat>)
  {
    function Suspend(d: Dir, r: Reason): Bev {
      this.(suspended := suspended.With(d, suspended.At(d) + {r}))
    }

    function Unsuspend(d: Dir, r: Reason): Bev {
      this.(suspended := suspended.With(d, suspended.At(d) - {r}))
    }

    predicate Has(d: Dir, r: Reason) {
      r in suspended.At(d)
    }
  }

  /** struct bufferevent_rate_limit_group */
  datatype Group = Group(cfg: Cfg, bucket: Bucket, suspended: Pair<bool>, pending: Pair<bool>, minShare: nat,
                         configured: nat, members: int)

  /** The number of bufferevents in the group. */
  ghost function Members(bevs: seq<Bev>): nat {
    if bevs == [] then 0 else (if bevs[0].grouped then 1 else 0) + Members(bevs[1..])
  }

  /** An exhausted bucket has suspended its bufferevent, and then the timer that refills it is pending. */
  ghost predicate OwnOk(b: Bev, d: Dir) {
    match b.cfg
    case None => !b.Has(d, Bandwidth)
    case Some(c) =>
      && c.Valid() && 0 <= b.bucket.limit.At(d) <= c.maximum.At(d)
      && (b.bucket.limit.At(d) == 0 ==> b.Has(d, Bandwidth))
      && (b.Has(d, Bandwidth) ==> b.refillPending)
  }

  /** Only the group suspends for the group; once it has resumed, it still owes that to some at most. */
  ghost predicate ShareOk(b: Bev, g: Group, d: Dir) {
    b.Has(d, GroupBandwidth) ==> b.grouped && (g.suspended.At(d) || g.pending.At(d))
  }

  ghost predicate BevOk(b: Bev, g: Group) {
    forall d :: OwnOk(b, d) && ShareOk(b, g, d)
  }

  ghost predicate BevsOk(bevs: seq<Bev>, g: Group) {
    forall i | 0 <= i < |bevs| :: BevOk(bevs[i], g)
  }

  /** The bucket of the group, while shares of at most `most` bytes, and of at least one if `positive`, are set. */
  ghost predicate DebtOk(g: Group, positive: bool, most: nat, d: Dir) {
    var low := if positive then 1 else 0;
    && low - most <= g.bucket.limit.At(d) <= g.cfg.maximum.At(d)
    && (!g.suspended.At(d) ==> g.bucket.limit.At(d) >= low)
    && (g.suspended.At(d) ==> !g.pending.At(d))
    && g.minShare <= g.cfg.rate.At(d)
  }

  ghost predicate GroupOk(g: Group, positive: bool, most: nat) {
    && g.cfg.Valid() && g.minShare <= g.configured <= most <= Memory.SSIZE_MAX
    && (positive ==> g.minShare > 0)
    && forall d :: DebtOk(g, positive, most, d)
  }

  /** The tick of the last refill, before it was cut to 32 bits. */
  ghost predicate ClockOk(g: Group, refilled: nat, now: nat) {
    g.cfg.msecPerTick > 0 && g.bucket.lastUpdated == refilled % TWO32 && refilled <= g.cfg.Tick(now)
  }

  /** `a / n` in C, where the quotient is rounded toward zero. */
  function Quotient(a: int, n: int): int
    requires n != 0
  {
    if a >= 0 then a / n else -((-a) / n)
  }

  /** What a member of the group may send or receive as far as the group is concerned. */
  function Share(g: Group, d: Dir): int
    requires g.members != 0
  {
    if g.suspended.At(d) then 0 else if Quotient(g.bucket.limit.At(d), g.members) < g.minShare then g.minShare
    else Quotient(g.bucket.limit.At(d), g.members)
  }

  /**
   * A group that is not suspended divides its limit among its members, rounding down, but to no less
   * than the least share.
   */
  lemma ShareDivides(g: Group, d: Dir)
    requires g.members > 0 && !g.suspended.At(d)
    ensures
      var s, limit := Share(g, d), g.bucket.limit.At(d);
      && s >= g.minShare
      && (s > g.minShare ==> s * g.members <= limit < (s + 1) * g.members)
      && (s == g.minShare ==> limit < (g.minShare + 1) * g.members)
  {
    var limit, n := g.bucket.limit.At(d), g.members;
    QuotientOf(limit, n);
    if Quotient(limit, n) < g.minShare {
      Below(Quotient(limit, n) + 1, g.minShare + 1, n);
    }
  }

  lemma QuotientOf(a: int, n: int)
    requires n > 0
    ensures a < (Quotient(a, n) + 1) * n
    ensures Quotient(a, n) > 0 ==> Quotient(a, n) * n <= a
  {
    if a < 0 {
      var q := (-a) / n;
      assert q * n <= -a < q * n + n;
    }
  }

  lemma Below(a: int, b: int, n: nat)
    requires a <= b
    ensures a * n <= b * n
  {
  }

  /** What the members take from one level of the group's bucket. */
  ghost function Sum(taken: seq<nat>): nat {
    if taken == [] then 0 else taken[0] + Sum(taken[1..])
  }

  /** Each takes at most what it is allowed, and only members take anything. */
  ghost predicate TakenByMembers(bevs: seq<Bev>, g: Group, d: Dir, taken: seq<nat>)
    requires g.members > 0
  {
    && |taken| == |bevs|
    && forall i | 0 <= i < |bevs| ::
         if bevs[i].grouped then exists a: nat :: IsAllowance(a, bevs[i], g, d) && taken[i] <= a else taken[i] == 0
  }

  /** If all members look at the same level, they together take no more than there is, or than the least shares. */
  lemma AllShares(bevs: seq<Bev>, g: Group, d: Dir, taken: seq<nat>)
    requires g.members == Members(bevs) > 0 && TakenByMembers(bevs, g, d, taken)
    ensures Sum(taken) <= g.bucket.limit.At(d) || Sum(taken) <= g.members * g.minShare
  {
    if g.suspended.At(d) {
      AllBelow(bevs, g, d, taken, 0);
    } else {
      var s := Share(g, d);
      ShareDivides(g, d);
      AllBelow(bevs, g, d, taken, s);
      assert s * g.members == g.members * s;
    }
  }

  lemma {:induction false} AllBelow(bevs: seq<Bev>, g: Group, d: Dir, taken: seq<nat>, most: nat)
    requires g.members > 0 && TakenByMembers(bevs, g, d, taken) && Share(g, d) <= most
    ensures Sum(taken) <= Members(bevs) * most
  {
    hide Share;
    if bevs != [] {
      AllBelow(bevs[1..], g, d, taken[1..], most);
      var m := Members(bevs[1..]);
      assert (m + 1) * most == m * most + most;
    }
  }

  lemma OwnShare(g: Group, d: Dir)
    requires g.members > 0 && !g.suspended.At(d)
    ensures forall own: int :: own <= Share(g, d) ==> own <= g.minShare || own * g.members <= g.bucket.limit.At(d)
  {
    ShareDivides(g, d);
    forall own: int | g.minShare < own <= Share(g, d) ensures own * g.members <= g.bucket.limit.At(d) {
      Below(own, Share(g, d), g.members);
    }
  }

  /** The largest amount that exceeds neither its own limit nor its share. */
  ghost predicate IsAllowance(a: nat, b: Bev, g: Group, d: Dir)
    requires b.grouped ==> g.members != 0
  {
    var own := if b.cfg.Some? then b.bucket.limit.At(d) else b.maxSingle.At(d);
    var room := if b.grouped then Min(own, Share(g, d)) else own;
    a == if room < 0 then 0 else room
  }

  /**
   * What this comes to: its own limit, unless that is more than the limit of the group divided by the
   * members, rounded down, and more than the least share; and nothing while the group is suspended.
   */
  ghost predicate Allows(a: int, b: Bev, g: Group, d: Dir) {
    var own, limit := if b.cfg.Some? then b.bucket.limit.At(d) else b.maxSingle.At(d), g.bucket.limit.At(d);
    && (!b.grouped ==> a == if own < 0 then 0 else own)
    && (b.grouped && g.suspended.At(d) ==> a == 0)
    && (b.grouped && !g.suspended.At(d) ==>
          && (a < own ==>
                && a >= g.minShare && (a > g.minShare ==> a * g.members <= limit < (a + 1) * g.members)
                && (a == g.minShare ==> limit < (g.minShare + 1) * g.members))
          && (a >= own ==> a == (if own < 0 then 0 else own) && (own <= g.minShare || own * g.members <= limit)))
  }

  lemma AllowanceIs(a: nat, b: Bev, g: Group, d: Dir)
    requires (b.grouped ==> g.members > 0) && IsAllowance(a, b, g, d)
    ensures Allows(a, b, g, d)
  {
    if b.grouped && !g.suspended.At(d) {
      ShareDivides(g, d);
      OwnShare(g, d);
    }
  }

  /** A bufferevent with the credit of this moment, suspended if the group is. */
  function Looked(b: Bev, g: Group, now: nat, d: Dir): Bev
    requires b.cfg.Some? ==> b.cfg.value.msecPerTick > 0
  {
    var b1 := if b.cfg.Some? then b.(bucket := Topup(b.bucket, b.cfg.value, now)) else b;
    if b.grouped && g.suspended.At(d) then b1.Suspend(d, GroupBandwidth) else b1
  }

  /** What looking at a bufferevent changes: its credit is there, and it is suspended if the group is. */
  ghost predicate HasLooked(b: Bev, b': Bev, g: Group, now: nat, d: Dir) {
    && b' == b.(bucket := b'.bucket, suspended := b'.suspended)
    && (b.cfg.None? ==> b'.bucket == b.bucket)
    && (b.cfg.Some? ==>
          b.cfg.value.msecPerTick > 0
          && forall e :: b'.bucket.limit.At(e) == Credit(b.bucket, b.cfg.value, b.cfg.value.Tick(now), e))
    && forall e :: b'.suspended.At(e) == b.suspended.At(e)
                   + if e == d && b.grouped && g.suspended.At(d) then {GroupBandwidth} else {}
  }

  lemma LookedIs(b: Bev, g: Group, now: nat, d: Dir)
    requires b.cfg.Some? ==> b.cfg.value.msecPerTick > 0
    ensures HasLooked(b, Looked(b, g, now, d), g, now, d)
  {
    hide Credit, Elapsed;
  }

  /** A bucket after an update at time `now`. */
  function Topup(b: Bucket, c: Cfg, now: nat): Bucket
    requires c.msecPerTick > 0
  {
    Bucket(Pair(Credit(b, c, c.Tick(now), Reading), Credit(b, c, c.Tick(now), Writing)),
           if Elapsed(b.lastUpdated, c.Tick(now)) > 0 then GetTick(now, c) else b.lastUpdated)
  }

  /** All members, except for those that are `busy` and cannot be locked, are suspended or resumed. */
  function Told(bevs: seq<Bev>, d: Dir, suspend: bool, busy: set<nat>): seq<Bev> {
    seq(|bevs|, i requires 0 <= i < |bevs| => Tell(bevs[i], d, suspend, i in busy))
  }

  function Tell(b: Bev, d: Dir, suspend: bool, busy: bool): Bev {
    if !b.grouped || busy then b
    else if suspend then b.Suspend(d, GroupBandwidth) else b.Unsuspend(d, GroupBandwidth)
  }

  lemma ToldAre(bevs: seq<Bev>, d: Dir, suspend: bool, busy: set<nat>)
    ensures
      var told := Told(bevs, d, suspend, busy);
      && |told| == |bevs|
      && (forall i | 0 <= i < |bevs| ::
            var b, b' := bevs[i], told[i];
            if b.grouped && i !in busy then
              b' == b.(suspended := b'.suspended) && b'.suspended.At(d.Other()) == b.suspended.At(d.Other())
              && b'.suspended.At(d)
                 == if suspend then b.suspended.At(d) + {GroupBandwidth} else b.suspended.At(d) - {GroupBandwidth}
            else b' == b)
      && (Missed(bevs, busy) <==> exists i | 0 <= i < |told| :: told[i].grouped && i in busy)
  {
    var told := Told(bevs, d, suspend, busy);
    assert forall i | 0 <= i < |bevs| :: told[i].grouped == bevs[i].grouped;
  }

  /** The first `n` have been told. */
  ghost function ToldSome(bevs: seq<Bev>, d: Dir, suspend: bool, busy: set<nat>, n: nat): seq<Bev>
    requires n <= |bevs|
  {
    Told(bevs, d, suspend, busy)[..n] + bevs[n..]
  }

  lemma ToldNone(bevs: seq<Bev>, d: Dir, suspend: bool, busy: set<nat>)
    ensures ToldSome(bevs, d, suspend, busy, 0) == bevs
    ensures ToldSome(bevs, d, suspend, busy, |bevs|) == Told(bevs, d, suspend, busy)
  {
  }

  lemma ToldNext(bevs: seq<Bev>, d: Dir, suspend: bool, busy: set<nat>, n: nat)
    requires n < |bevs|
    ensures |ToldSome(bevs, d, suspend, busy, n)| == |bevs| && ToldSome(bevs, d, suspend, busy, n)[n] == bevs[n]
    ensures ToldSome(bevs, d, suspend, busy, n + 1)
            == ToldSome(bevs, d, suspend, busy, n)[n := Tell(bevs[n], d, suspend, n in busy)]
  {
    assert bevs[n..] == [bevs[n]] + bevs[n + 1..];
  }

  /** Whether a member is missed then. */
  function Missed(bevs: seq<Bev>, busy: set<nat>): bool {
    exists i | 0 <= i < |bevs| :: bevs[i].grouped && i in busy
  }

  lemma MissedNone(bevs: seq<Bev>, busy: set<nat>)
    ensures !Missed(bevs[..0], busy) && bevs[..|bevs|] == bevs
  {
  }

  lemma MissedNext(bevs: seq<Bev>, busy: set<nat>, n: nat)
    requires n < |bevs|
    ensures Missed(bevs[..n + 1], busy) <==> Missed(bevs[..n], busy) || (bevs[n].grouped && n in busy)
  {
    forall i | 0 <= i < n ensures bevs[..n + 1][i] == bevs[..n][i] {
    }
    assert bevs[..n + 1][n] == bevs[n];
  }

  /** The group stops, or goes on. */
  function Turned(g: Group, d: Dir, suspend: bool, missed: bool): Group {
    g.(suspended := g.suspended.With(d, suspend), pending := g.pending.With(d, !suspend && missed))
  }

  /** A bufferevent whose own bucket, if it has one, has been charged. */
  function Charged(b: Bev, d: Dir, bytes: int): Bev {
    if b.cfg.None? then b else
      var left := b.bucket.limit.At(d) - bytes;
      var b1 := b.(bucket := b.bucket.(limit := b.bucket.limit.With(d, left)));
      if left <= 0 then b1.Suspend(d, Bandwidth).(refillPending := true)
      else if b.Has(d, Bandwidth) then
        b1.Unsuspend(d, Bandwidth).(refillPending := b.refillPending && b.Has(d.Other(), Bandwidth))
      else b1
  }

  function GroupCharged(g: Group, d: Dir, bytes: int): Group {
    g.(bucket := g.bucket.(limit := g.bucket.limit.With(d, g.bucket.limit.At(d) - bytes)))
  }

  /** What the level of the group's bucket means for the members. */
  function Settled(bevs: seq<Bev>, g: Group, d: Dir, busy: set<nat>): (seq<Bev>, Group) {
    if g.bucket.limit.At(d) <= 0 then (Told(bevs, d, true, busy), Turned(g, d, true, false))
    else if g.suspended.At(d) then (Told(bevs, d, false, busy), Turned(g, d, false, Missed(bevs, busy)))
    else (bevs, g)
  }

  /** Its own bucket, if it has one, is poorer by the bytes; if nothing is left it is suspended, and is refilled. */
  ghost predicate HasPaid(b: Bev, b': Bev, d: Dir, bytes: int) {
    && b'.cfg == b.cfg && b'.grouped == b.grouped
    && (b.cfg.Some? ==>
          var left := b.bucket.limit.At(d) - bytes;
          b'.bucket.limit.At(d) == left && (b'.Has(d, Bandwidth) <==> left <= 0) && (left <= 0 ==> b'.refillPending))
  }

  /** So is the bucket of the group; if nothing is left all members that are not busy are suspended. */
  ghost predicate GroupHasPaid(bevs: seq<Bev>, g: Group, g': Group, d: Dir, bytes: int, busy: set<nat>) {
    var left := g.bucket.limit.At(d) - bytes;
    && g'.bucket.limit.At(d) == left && (g'.suspended.At(d) <==> left <= 0)
    && forall j | 0 <= j < |bevs| && bevs[j].grouped && j !in busy ::
         (left <= 0 ==> bevs[j].Has(d, GroupBandwidth))
         && (left > 0 && g.suspended.At(d) ==> !bevs[j].Has(d, GroupBandwidth))
  }

  lemma ChargedIs(bevs: seq<Bev>, g: Group, i: nat, d: Dir, bytes: int, busy: set<nat>)
    requires i < |bevs|
    ensures
      var b := Charged(bevs[i], d, bytes);
      var r := Settled(bevs[i := b], GroupCharged(g, d, bytes), d, busy);
      && |r.0| == |bevs| && HasPaid(bevs[i], b, d, bytes) && HasPaid(bevs[i], r.0[i], d, bytes)
      && GroupHasPaid(r.0, g, r.1, d, bytes, busy)
  {
    hide Told, Missed;
    var b := Charged(bevs[i], d, bytes);
    ToldAre(bevs[i := b], d, true, busy);
    ToldAre(bevs[i := b], d, false, busy);
  }

  /** A direction that has something to spend again goes on. */
  function Awake(b: Bev, d: Dir): Bev {
    if b.Has(d, Bandwidth) && b.bucket.limit.At(d) > 0 then b.Unsuspend(d, Bandwidth) else b
  }

  /** A bufferevent with a limit of its own after its refill timer; the timer is set if one is not enough. */
  function Refreshed(b: Bev, now: nat): Bev
    requires b.cfg.Some? && b.cfg.value.msecPerTick > 0
  {
    var b1 := Awake(Awake(b.(bucket := Topup(b.bucket, b.cfg.value, now)), Reading), Writing);
    b1.(refillPending := b1.Has(Reading, Bandwidth) || b1.Has(Writing, Bandwidth))
  }

  lemma RefreshedIs(b: Bev, now: nat)
    requires b.cfg.Some? ==> b.cfg.value.msecPerTick > 0
    ensures b.cfg.Some? ==>
              var b' := Refreshed(b, now);
              && b'.cfg == b.cfg
              && (b'.refillPending <==> b'.Has(Reading, Bandwidth) || b'.Has(Writing, Bandwidth))
              && forall d ::
                   && b'.bucket.limit.At(d) == Credit(b.bucket, b.cfg.value, b.cfg.value.Tick(now), d)
                   && (b'.Has(d, Bandwidth) <==> b.Has(d, Bandwidth) && b'.bucket.limit.At(d) <= 0)
  {
    hide Credit, Elapsed;
  }

  /** The bucket under a new configuration: what is left of the old one, or what one tick gives. */
  function Started(b: Bev, c: Cfg, now: nat): Bucket
    requires c.msecPerTick > 0
  {
    if b.cfg.Some? then
      Bucket(Pair(Min(b.bucket.limit.read, c.maximum.read), Min(b.bucket.limit.write, c.maximum.write)),
             b.bucket.lastUpdated)
    else Bucket(Pair(c.rate.read, c.rate.write), GetTick(now, c))
  }

  function Judged(b: Bev, d: Dir): Bev {
    if b.bucket.limit.At(d) > 0 then b.Unsuspend(d, Bandwidth) else b.Suspend(d, Bandwidth)
  }

  /** A bufferevent with another limit of its own, or without one. */
  function Configured(b: Bev, cfg: Option<Cfg>, now: nat): Bev
    requires cfg.Some? ==> cfg.value.msecPerTick > 0
  {
    if cfg.None? then
      b.(cfg := None).Unsuspend(Reading, Bandwidth).Unsuspend(Writing, Bandwidth).(refillPending := false)
    else if b.cfg == cfg then b
    else
      var b1 := Judged(Judged(b.(cfg := cfg, bucket := Started(b, cfg.value, now)), Reading), Writing);
      b1.(refillPending := b1.Has(Reading, Bandwidth) || b1.Has(Writing, Bandwidth))
  }

  function Joined(b: Bev, g: Group): Bev {
    if b.grouped then b else
      var b1 := b.(grouped := true);
      var b2 := if g.suspended.read then b1.Suspend(Reading, GroupBandwidth) else b1;
      if g.suspended.write then b2.Suspend(Writing, GroupBandwidth) else b2
  }

  function Left(b: Bev): Bev {
    b.(grouped := false).Unsuspend(Reading, GroupBandwidth).Unsuspend(Writing, GroupBandwidth)
  }

  /** One direction of the group after its tick: it resumes if there is enough for a share. */
  function Resumed(bevs: seq<Bev>, g: Group, d: Dir, busy: set<nat>): (seq<Bev>, Group) {
    if g.pending.At(d) || (g.suspended.At(d) && g.bucket.limit.At(d) >= g.minShare) then
      (Told(bevs, d, false, busy), Turned(g, d, false, Missed(bevs, busy)))
    else (bevs, g)
  }

  function GroupRefreshed(bevs: seq<Bev>, g: Group, now: nat, busy: set<nat>): (seq<Bev>, Group)
    requires g.cfg.msecPerTick > 0
  {
    var r := Resumed(bevs, g.(bucket := Topup(g.bucket, g.cfg, now)), Reading, busy);
    Resumed(r.0, r.1, Writing, busy)
  }

  /**
   * The group's bucket has been refilled, and what was suspended has resumed if there is enough for a
   * share, or if a member is still owed that; then all members that are not busy have resumed.
   */
  ghost predicate HasResumed(bevs: seq<Bev>, g: Group, g': Group, now: nat, busy: set<nat>)
    requires g.cfg.msecPerTick > 0
  {
    && g'.cfg == g.cfg && g'.minShare == g.minShare
    && forall d ::
         && g'.bucket.limit.At(d) == Credit(g.bucket, g.cfg, g.cfg.Tick(now), d)
         && var resumes := g.pending.At(d) || (g.suspended.At(d) && g'.bucket.limit.At(d) >= g.minShare);
            g'.suspended.At(d) == (g.suspended.At(d) && !resumes)
            && (resumes ==> forall j | 0 <= j < |bevs| && bevs[j].grouped && j !in busy ::
               !bevs[j].Has(d, GroupBandwidth))
  }

  lemma GroupRefreshedIs(bevs: seq<Bev>, g: Group, now: nat, busy: set<nat>)
    requires g.cfg.msecPerTick > 0
    ensures var r := GroupRefreshed(bevs, g, now, busy); HasResumed(r.0, g, r.1, now, busy)
  {
    hide Told, Missed, Credit, Elapsed;
    ToldAre(bevs, Reading, false, busy);
    var r := Resumed(bevs, g.(bucket := Topup(g.bucket, g.cfg, now)), Reading, busy);
    ToldAre(r.0, Writing, false, busy);
  }

  function Reconfigured(g: Group, c: Cfg): Group {
    var limit := Pair(Min(g.bucket.limit.read, c.maximum.read), Min(g.bucket.limit.write, c.maximum.write));
    g.(cfg := c, bucket := g.bucket.(limit := limit), minShare := Min(g.configured, Min(c.rate.read, c.rate.write)))
  }

  lemma SamePair<T>(a: Pair<T>, b: Pair<T>)
    requires forall d :: a.At(d) == b.At(d)
    ensures a == b
  {
    assert a.At(Reading) == b.At(Reading) && a.At(Writing) == b.At(Writing);
  }

  /** Cutting the tick to 32 bits does not matter to an update. */
  lemma TopupIs(r: Bucket, b: Bucket, c: Cfg, now: nat)
    requires c.msecPerTick > 0
    requires forall d :: r.limit.At(d) == Credit(b, c, GetTick(now, c), d)
    ensures r.limit == Topup(b, c, now).limit
    ensures Elapsed(b.lastUpdated, GetTick(now, c)) == Elapsed(b.lastUpdated, c.Tick(now))
  {
    ElapsedCut(b.lastUpdated, c.Tick(now));
    SamePair(r.limit, Topup(b, c, now).limit);
  }

  class RateLimits {
    var bevs: seq<Bev>
    var group: Group
    /** The time in milliseconds. */
    var now: nat
    /** The tick in which the group was last refilled. */
    ghost var refilled: nat

    /** What holds all the time, as long as shares between `positive` and `most` are set. */
    ghost predicate Valid(positive: bool, most: nat)
      reads this
    {
      && BevsOk(bevs, group) && GroupOk(group, positive, most) && group.members == Members(bevs)
    }

    /** The group's time of update is that of its last refill, in ticks of the length they have now. */
    ghost predicate InClock()
      reads this
    {
      ClockOk(group, refilled, now)
    }

    /** bufferevent_rate_limit_group_new */
    constructor (cfg: Cfg, now: nat)
      requires cfg.Valid()
      ensures Valid(true, MIN_SHARE_DEFAULT) && InClock() && bevs == [] && this.now == now && group.cfg == cfg
    {
      var tick := GetTick(now, cfg);
      var bucket := Init(Bucket(Pair(0, 0), 0), cfg, tick, false);
      bevs, this.now, refilled := [], now, cfg.Tick(now);
      group := Group(cfg, bucket, Pair(false, false), Pair(false, false), 0, 0, 0);
      new;
      var r := SetMinShare(MIN_SHARE_DEFAULT);
      assert cfg.rate.At(Reading) >= 1 && cfg.rate.At(Writing) >= 1;
    }

    /** bufferevent_update_buckets */
    method UpdateBuckets(i: nat)
      requires i < |bevs| && BevOk(bevs[i], group) && OwnOk(bevs[i], Reading) && bevs[i].cfg.Some?
      modifies this`bevs
      ensures bevs == old(bevs)[i := old(bevs)[i].(bucket := Topup(old(bevs)[i].bucket, old(bevs)[i].cfg.value, now))]
    {
      var b := bevs[i];
      var cfg := b.cfg.value;
      assert OwnOk(b, Reading) && OwnOk(b, Writing);
      var tick := GetTick(now, cfg);
      ElapsedCut(b.bucket.lastUpdated, cfg.Tick(now));
      if tick != b.bucket.lastUpdated {
        var bucket, _ := Update(b.bucket, cfg, tick);
        TopupIs(bucket, b.bucket, cfg, now);
        bevs := bevs[i := b.(bucket := bucket)];
      } else {
        SamePair(b.bucket.limit, Topup(b.bucket, cfg, now).limit);
      }
    }

    /** bufferevent_get_rlim_max_ */
    method GetRlimMax(i: nat, d: Dir) returns (a: int)
      requires i < |bevs| && BevOk(bevs[i], group) && (bevs[i].grouped ==> group.members != 0)
      modifies this`bevs
      ensures |bevs| == |old(bevs)| && bevs == old(bevs)[i := bevs[i]]
      ensures OwnOk(old(bevs)[i], Reading) && bevs[i] == Looked(old(bevs)[i], group, now, d)
      ensures 0 <= a && IsAllowance(a, bevs[i], group, d)
      ensures HasLooked(old(bevs)[i], bevs[i], group, now, d)
      ensures group.members > 0 || !bevs[i].grouped ==> Allows(a, bevs[i], group, d)
    {
      hide HasLooked, Credit, Allows;
      assert OwnOk(bevs[i], Reading);
      LookedIs(bevs[i], group, now, d);
      a := bevs[i].maxSingle.At(d);
      if bevs[i].cfg.Some? {
        UpdateBuckets(i);
        a := bevs[i].bucket.limit.At(d);
      }
      if bevs[i].grouped {
        var share: int;
        if group.suspended.At(d) {
          bevs := bevs[i := bevs[i].Suspend(d, GroupBandwidth)];
          share := 0;
        } else {
          share := Quotient(group.bucket.limit.At(d), group.members);
          if share < group.minShare {
            share := group.minShare;
          }
        }
        if a > share {
          a := share;
        }
      }
      if a < 0 {
        a := 0;
      }
      if group.members > 0 || !bevs[i].grouped {
        AllowanceIs(a, bevs[i], group, d);
      }
    }

    /** bev_group_suspend_reading_ and its twin. */
    method SuspendGroup(d: Dir, busy: set<nat>)
      modifies this`bevs, this`group
      ensures bevs == Told(old(bevs), d, true, busy)
      ensures group == Turned(old(group), d, true, false) && group.suspended.At(d) && !group.pending.At(d)
      ensures |bevs| == |old(bevs)| && forall i | 0 <= i < |bevs| ::
                var b, b' := old(bevs)[i], bevs[i];
                if b.grouped && i !in busy then
                  b' == b.(suspended := b'.suspended) && b'.suspended.At(d) == b.suspended.At(d) + {GroupBandwidth}
                  && b'.suspended.At(d.Other()) == b.suspended.At(d.Other())
                else b' == b
    {
      ToldAre(bevs, d, true, busy);
      hide Told, ToldSome;
      group := group.(suspended := group.suspended.With(d, true), pending := group.pending.With(d, false));
      var i := 0;
      ghost var was, g := bevs, group;
      ToldNone(was, d, true, busy);
      while i < |bevs|
        invariant i <= |bevs| == |was| && bevs == ToldSome(was, d, true, busy, i) && group == g
      {
        ToldNext(was, d, true, busy, i);
        if bevs[i].grouped && i !in busy {
          bevs := bevs[i := bevs[i].Suspend(d, GroupBandwidth)];
        }
        i := i + 1;
      }
    }

    /** bev_group_unsuspend_reading_ and its twin. */
    method UnsuspendGroup(d: Dir, busy: set<nat>)
      modifies this`bevs, this`group
      ensures bevs == Told(old(bevs), d, false, busy)
      ensures group == Turned(old(group), d, false, Missed(old(bevs), busy)) && !group.suspended.At(d)
      ensures group.pending.At(d) <==> exists i | 0 <= i < |bevs| :: bevs[i].grouped && i in busy
      ensures |bevs| == |old(bevs)| && forall i | 0 <= i < |bevs| ::
                var b, b' := old(bevs)[i], bevs[i];
                if b.grouped && i !in busy then
                  b' == b.(suspended := b'.suspended) && b'.suspended.At(d) == b.suspended.At(d) - {GroupBandwidth}
                  && b'.suspended.At(d.Other()) == b.suspended.At(d.Other())
                else b' == b
    {
      ToldAre(bevs, d, false, busy);
      hide Told, ToldSome, Missed;
      var again := false;
      group := group.(suspended := group.suspended.With(d, false));
      var i := 0;
      ghost var was, g := bevs, group;
      ToldNone(was, d, false, busy);
      MissedNone(was, busy);
      while i < |bevs|
        invariant i <= |bevs| == |was| && bevs == ToldSome(was, d, false, busy, i) && group == g
        invariant again <==> Missed(was[..i], busy)
      {
        ToldNext(was, d, false, busy, i);
        MissedNext(was, busy, i);
        if bevs[i].grouped {
          if i !in busy {
            bevs := bevs[i := bevs[i].Unsuspend(d, GroupBandwidth)];
          } else {
            again := true;
          }
        }
        i := i + 1;
      }
      group := group.(pending := group.pending.With(d, again));
    }

    /** bufferevent_decrement_read_buckets_ and its twin. */
    method Decrement(i: nat, d: Dir, bytes: int, busy: set<nat>)
      requires i < |bevs|
      modifies this`bevs, this`group
      ensures var b := Charged(old(bevs)[i], d, bytes);
              (bevs, group) == if b.grouped then Settled(old(bevs)[i := b], GroupCharged(old(group), d, bytes), d, busy)
                               else (old(bevs)[i := b], old(group))
      ensures |bevs| == |old(bevs)| && HasPaid(old(bevs)[i], bevs[i], d, bytes)
      ensures bevs[i].grouped ==> GroupHasPaid(bevs, old(group), group, d, bytes, busy)
    {
      ChargedIs(bevs, group, i, d, bytes, busy);
      hide Told, Missed, HasPaid, GroupHasPaid;
      var b := bevs[i];
      if b.cfg.Some? {
        b := b.(bucket := b.bucket.(limit := b.bucket.limit.With(d, b.bucket.limit.At(d) - bytes)));
        if b.bucket.limit.At(d) <= 0 {
          b := b.Suspend(d, Bandwidth).(refillPending := true);
        } else if b.Has(d, Bandwidth) {
          if !b.Has(d.Other(), Bandwidth) {
            b := b.(refillPending := false);
          }
          b := b.Unsuspend(d, Bandwidth);
        }
      }
      bevs := bevs[i := b];
      if b.grouped {
        group := group.(bucket := group.bucket.(limit := group.bucket.limit.With(d, group.bucket.limit.At(d) - bytes)));
        if group.bucket.limit.At(d) <= 0 {
          SuspendGroup(d, busy);
        } else if group.suspended.At(d) {
          UnsuspendGroup(d, busy);
        }
      }
    }

    /** bev_refill_callback_, when its timer has run out. */
    method Refill(i: nat)
      requires i < |bevs| && BevOk(bevs[i], group)
      modifies this`bevs
      ensures old(bevs)[i].cfg.None? ==> bevs == old(bevs)[i := old(bevs)[i].(refillPending := false)]
      ensures old(bevs)[i].cfg.Some? ==> OwnOk(old(bevs)[i], Reading)
                                         && bevs == old(bevs)[i := Refreshed(old(bevs)[i], now)]
      ensures old(bevs)[i].cfg.Some? ==>
                && (bevs[i].refillPending <==> bevs[i].Has(Reading, Bandwidth) || bevs[i].Has(Writing, Bandwidth))
                && forall d ::
                     && bevs[i].bucket.limit.At(d)
                        == Credit(old(bevs)[i].bucket, bevs[i].cfg.value, bevs[i].cfg.value.Tick(now), d)
                     && (bevs[i].Has(d, Bandwidth)
                        <==> old(bevs)[i].Has(d, Bandwidth) && bevs[i].bucket.limit.At(d) <= 0)
    {
      assert OwnOk(bevs[i], Reading);
      RefreshedIs(bevs[i], now);
      hide Topped, Credit, Elapsed;
      var b := bevs[i].(refillPending := false);
      if b.cfg.Some? {
        var cfg := b.cfg.value;
        assert OwnOk(bevs[i], Reading) && OwnOk(bevs[i], Writing);
        var bucket, _ := Update(b.bucket, cfg, GetTick(now, cfg));
        TopupIs(bucket, b.bucket, cfg, now);
        b := b.(bucket := bucket);
        var again := false;
        if b.Has(Reading, Bandwidth) {
          if b.bucket.limit.read > 0 {
            b := b.Unsuspend(Reading, Bandwidth);
          } else {
            again := true;
          }
        }
        if b.Has(Writing, Bandwidth) {
          if b.bucket.limit.write > 0 {
            b := b.Unsuspend(Writing, Bandwidth);
          } else {
            again := true;
          }
        }
        if again {
          b := b.(refillPending := true);
        }
      }
      bevs := bevs[i := b];
    }

    /** bufferevent_set_rate_limit */
    method SetRateLimit(i: nat, cfg: Option<Cfg>)
      requires i < |bevs| && (cfg.Some? ==> cfg.value.msecPerTick > 0)
      modifies this`bevs
      ensures bevs == old(bevs)[i := Configured(old(bevs)[i], cfg, now)]
      ensures bevs[i].cfg == cfg
      ensures cfg.None? ==> !bevs[i].refillPending && forall d :: !bevs[i].Has(d, Bandwidth)
      ensures cfg.Some? && old(bevs)[i].cfg == cfg ==> bevs[i] == old(bevs)[i]
      ensures cfg.Some? && old(bevs)[i].cfg != cfg ==>
                && (bevs[i].refillPending <==> bevs[i].Has(Reading, Bandwidth) || bevs[i].Has(Writing, Bandwidth))
                && bevs[i].bucket.lastUpdated
                   == (if old(bevs)[i].cfg.Some? then old(bevs)[i].bucket.lastUpdated else GetTick(now, cfg.value))
                && forall d ::
                     && (bevs[i].Has(d, Bandwidth) <==> bevs[i].bucket.limit.At(d) <= 0)
                     && bevs[i].bucket.limit.At(d)
                        == if old(bevs)[i].cfg.Some? then Min(old(bevs)[i].bucket.limit.At(d), cfg.value.maximum.At(d))
                           else cfg.value.rate.At(d)
    {
      var b := bevs[i];
      if cfg.None? {
        b := b.(cfg := None).Unsuspend(Reading, Bandwidth).Unsuspend(Writing, Bandwidth).(refillPending := false);
      } else if b.cfg != cfg {
        var reinit := b.cfg.Some?;
        var bucket := Init(b.bucket, cfg.value, GetTick(now, cfg.value), reinit);
        SamePair(bucket.limit, Started(b, cfg.value, now).limit);
        b := b.(cfg := cfg, bucket := bucket, refillPending := false);
        var suspended := false;
        if b.bucket.limit.read > 0 {
          b := b.Unsuspend(Reading, Bandwidth);
        } else {
          b := b.Suspend(Reading, Bandwidth);
          suspended := true;
        }
        if b.bucket.limit.write > 0 {
          b := b.Unsuspend(Writing, Bandwidth);
        } else {
          b := b.Suspend(Writing, Bandwidth);
          suspended := true;
        }
        if suspended {
          b := b.(refillPending := true);
        }
      }
      bevs := bevs[i := b];
    }

    /** bufferevent_add_to_rate_limit_group */
    method AddToGroup(i: nat)
      requires i < |bevs|
      modifies this`bevs, this`group
      ensures bevs == old(bevs)[i := Joined(old(bevs)[i], old(group))]
      ensures group == old(group).(members := old(group).members + if old(bevs)[i].grouped then 0 else 1)
      ensures bevs[i].grouped && bevs[i] == old(bevs)[i].(grouped := true, suspended := bevs[i].suspended)
      ensures forall d ::
                bevs[i].suspended.At(d)
                == old(bevs)[i].suspended.At(d)
                   + if !old(bevs)[i].grouped && group.suspended.At(d) then {GroupBandwidth} else {}
    {
      var b := bevs[i];
      if !b.grouped {
        group := group.(members := group.members + 1);
        b := b.(grouped := true);
        if group.suspended.read {
          b := b.Suspend(Reading, GroupBandwidth);
        }
        if group.suspended.write {
          b := b.Suspend(Writing, GroupBandwidth);
        }
      }
      bevs := bevs[i := b];
    }

    /** bufferevent_remove_from_rate_limit_group */
    method RemoveFromGroup(i: nat)
      requires i < |bevs|
      modifies this`bevs, this`group
      ensures bevs == old(bevs)[i := Left(old(bevs)[i])]
      ensures group == old(group).(members := old(group).members - if old(bevs)[i].grouped then 1 else 0)
      ensures !bevs[i].grouped && bevs[i] == old(bevs)[i].(grouped := false, suspended := bevs[i].suspended)
      ensures forall d :: bevs[i].suspended.At(d) == old(bevs)[i].suspended.At(d) - {GroupBandwidth}
    {
      var b := bevs[i];
      if b.grouped {
        group := group.(members := group.members - 1);
        b := b.(grouped := false);
      }
      b := b.Unsuspend(Reading, GroupBandwidth);
      b := b.Unsuspend(Writing, GroupBandwidth);
      bevs := bevs[i := b];
    }

    /** bev_group_refill_callback_ */
    method GroupRefill(busy: set<nat>)
      requires group.cfg.Valid()
      requires forall d :: Memory.SSIZE_MIN <= group.bucket.limit.At(d) <= group.cfg.maximum.At(d)
      modifies this`bevs, this`group, this`refilled
      ensures (bevs, group) == GroupRefreshed(old(bevs), old(group), now, busy)
      ensures refilled == if group.bucket.lastUpdated != old(group).bucket.lastUpdated
                          then group.cfg.Tick(now) else old(refilled)
      ensures HasResumed(bevs, old(group), group, now, busy)
    {
      GroupRefreshedIs(bevs, group, now, busy);
      hide Told, Missed, Topped, Credit, Elapsed, HasResumed;
      var tick := GetTick(now, group.cfg);
      var bucket, updated := Update(group.bucket, group.cfg, tick);
      TopupIs(bucket, group.bucket, group.cfg, now);
      if bucket.lastUpdated != group.bucket.lastUpdated {
        refilled := group.cfg.Tick(now);
      }
      group := group.(bucket := bucket);
      if group.pending.read || (group.suspended.read && group.bucket.limit.read >= group.minShare) {
        UnsuspendGroup(Reading, busy);
      }
      if group.pending.write || (group.suspended.write && group.bucket.limit.write >= group.minShare) {
        UnsuspendGroup(Writing, busy);
      }
    }

    /** bufferevent_rate_limit_group_set_cfg */
    method GroupSetCfg(cfg: Cfg)
      modifies this`group
      requires group.configured <= Memory.SSIZE_MAX
      ensures group == Reconfigured(old(group), cfg)
      ensures group.cfg == cfg && group.minShare == Min(group.configured, Min(cfg.rate.read, cfg.rate.write))
      ensures forall d :: group.bucket.limit.At(d) == Min(old(group).bucket.limit.At(d), cfg.maximum.At(d))
    {
      group := group.(cfg := cfg);
      if group.bucket.limit.read > cfg.maximum.read {
        group := group.(bucket := group.bucket.(limit := group.bucket.limit.(read := cfg.maximum.read)));
      }
      if group.bucket.limit.write > cfg.maximum.write {
        group := group.(bucket := group.bucket.(limit := group.bucket.limit.(write := cfg.maximum.write)));
      }
      var _ := SetMinShare(group.configured);
    }

    /** A new bufferevent, without limits. */
    method NewBufferevent()
      modifies this`bevs
      ensures bevs == old(bevs) + [Bev(None, Bucket(Pair(0, 0), 0), false, Pair({}, {}), false,
                                       Pair(MAX_SINGLE_DEFAULT, MAX_SINGLE_DEFAULT))]
    {
      bevs := bevs + [Bev(None, Bucket(Pair(0, 0), 0), false, Pair({}, {}), false,
                          Pair(MAX_SINGLE_DEFAULT, MAX_SINGLE_DEFAULT))];
    }

    method Wait(ms: nat)
      modifies this`now
      ensures now == old(now) + ms
    {
      now := now + ms;
    }

    /** bufferevent_rate_limit_group_set_min_share */
    method SetMinShare(share: nat) returns (r: int)
      modifies this`group
      ensures r == if share > Memory.SSIZE_MAX then -1 else 0
      ensures r == -1 ==> group == old(group)
      ensures r == 0 ==> group == old(group).(configured := share, minShare := group.minShare)
                         && group.minShare == Min(share, Min(group.cfg.rate.read, group.cfg.rate.write))
    {
      if share > Memory.SSIZE_MAX {
        return -1;
      }
      var s := share;
      if s > group.cfg.rate.read {
        s := group.cfg.rate.read;
      }
      if s > group.cfg.rate.write {
        s := group.cfg.rate.write;
      }
      group := group.(configured := share, minShare := s);
      r := 0;
    }
  }
}
