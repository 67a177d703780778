/** Runs of transfers, refills and changes of configuration: how many bytes get through. */
module RateLimitRuns {
  import opened Options
  import opened TokenBucket
  import opened Suspension
  import opened RateLimits

  datatype Op =
    | OpWait(ms: nat)
    | OpNew
    | OpLimit(bev: nat, own: Option<Cfg>)
    | OpJoin(bev: nat)
    | OpLeave(bev: nat)
    | OpTransfer(bev: nat, dir: Dir, want: nat, busy: set<nat>)
    | OpRefill(bev: nat)
    | OpGroupRefill(busy: set<nat>)
    | OpMinShare(share: nat)
    | OpGroupLimit(shared: Cfg)

  /** Configurations are valid, and the shares of the group are within limits. */
  ghost predicate Allowed(op: Op, positive: bool, most: nat) {
    match op
    case OpLimit(i, cfg) => cfg.Some? ==> cfg.value.Valid()
    case OpMinShare(share) => share <= most && (positive ==> share > 0)
    case OpGroupLimit(cfg) => cfg.Valid()
    case _ => true
  }

  /** What a transfer has moved, and whether the bufferevent was in the group. */
  datatype Sent = Sent(bytes: nat, grouped: bool)

  /** What one call has moved for one bufferevent. */
  ghost function Moved(op: Op, s: Sent, i: nat, d: Dir): nat {
    if op.OpTransfer? && op.bev == i && op.dir == d then s.bytes else 0
  }

  /** What one call has moved for the group. */
  ghost function Shared(op: Op, s: Sent, d: Dir): nat {
    if op.OpTransfer? && op.dir == d && s.grouped then s.bytes else 0
  }

  /** Between two moments a bufferevent has moved `n` bytes out of its credit, which has grown by its rate. */
  ghost predicate Draws(b: Bev, b': Bev, now: nat, now': nat, d: Dir, n: nat) {
    && b'.cfg == b.cfg
    && match b.cfg
       case None => true
       case Some(c) =>
         && c.msecPerTick > 0 && c.Tick(now) <= c.Tick(now')
         && n + Credit(b'.bucket, c, c.Tick(now'), d)
            <= Credit(b.bucket, c, c.Tick(now), d) + (c.Tick(now') - c.Tick(now)) * c.rate.At(d)
  }

  /** Between two refills the group has moved `n` bytes. */
  ghost predicate GroupDraws(g: Group, g': Group, refilled: nat, refilled': nat, d: Dir, n: nat) {
    && g'.cfg == g.cfg && refilled <= refilled'
    && n + g'.bucket.limit.At(d) <= g.bucket.limit.At(d) + (refilled' - refilled) * g.cfg.rate.At(d)
  }

  /** One call moves what it moves for the group, in each direction. */
  ghost predicate GroupMoves(g: Group, g': Group, refilled: nat, refilled': nat, op: Op, s: Sent) {
    forall d :: GroupDraws(g, g', refilled, refilled', d, Shared(op, s, d))
  }

  lemma DrawsTwice(b: Bev, b1: Bev, b2: Bev, now: nat, now1: nat, now2: nat, d: Dir, m: nat, n: nat)
    requires Draws(b, b1, now, now1, d, m) && Draws(b1, b2, now1, now2, d, n)
    ensures Draws(b, b2, now, now2, d, m + n)
  {
    if b.cfg.Some? {
      var c := b.cfg.value;
      Distribute(c.Tick(now1) - c.Tick(now), c.Tick(now2) - c.Tick(now1), c.rate.At(d));
    }
  }

  lemma GroupDrawsTwice(g: Group, g1: Group, g2: Group, r: nat, r1: nat, r2: nat, d: Dir, m: nat, n: nat)
    requires GroupDraws(g, g1, r, r1, d, m) && GroupDraws(g1, g2, r1, r2, d, n)
    ensures GroupDraws(g, g2, r, r2, d, m + n)
  {
    Distribute(r1 - r, r2 - r1, g.cfg.rate.At(d));
  }

  lemma Distribute(a: int, b: int, c: int)
    ensures a * c + b * c == (a + b) * c
  {
  }

  lemma TickLater(c: Cfg, now: nat, now': nat)
    requires c.msecPerTick > 0 && now <= now'
    ensures c.Tick(now) <= c.Tick(now')
  {
    var m := c.msecPerTick;
    var q, q' := now / m, now' / m;
    if q' < q {
      Times(m, q' + 1, q);
    }
  }

  /** Time goes by. */
  lemma DrawsLater(b: Bev, now: nat, now': nat, d: Dir)
    requires b.cfg.Some? ==> b.cfg.value.msecPerTick > 0
    requires now <= now'
    ensures Draws(b, b, now, now', d, 0)
  {
    if b.cfg.Some? {
      var c := b.cfg.value;
      TickLater(c, now, now');
      CreditLater(b.bucket, c, c.Tick(now), c.Tick(now') - c.Tick(now), d);
    }
  }

  /** An update does not change the credit. */
  lemma CreditTopup(b: Bucket, c: Cfg, now: nat, d: Dir)
    requires c.msecPerTick > 0
    ensures Topup(b, c, now).limit.At(d) == Credit(b, c, c.Tick(now), d)
    ensures Credit(Topup(b, c, now), c, c.Tick(now), d) == Credit(b, c, c.Tick(now), d)
    ensures Elapsed(Topup(b, c, now).lastUpdated, c.Tick(now)) == 0
  {
    CreditUpdated(b, Topup(b, c, now), c, c.Tick(now), d);
  }

  /** The credit is between the limit and the maximum. */
  lemma CreditBounds(b: Bucket, c: Cfg, now: nat, d: Dir)
    requires b.limit.At(d) <= c.maximum.At(d)
    ensures b.limit.At(d) <= Credit(b, c, now, d) <= c.maximum.At(d)
  {
    var n, rate := Elapsed(b.lastUpdated, now), c.rate.At(d);
    Times(n, 0, rate);
  }

  // -------- each change keeps bufferevents in order

  lemma BevsSet(bevs: seq<Bev>, g: Group, i: nat, b: Bev)
    requires i < |bevs| && BevsOk(bevs, g) && BevOk(b, g)
    ensures BevsOk(bevs[i := b], g)
  {
  }

  lemma BevsSame(bevs: seq<Bev>, g: Group, g': Group)
    requires BevsOk(bevs, g) && g'.suspended == g.suspended && g'.pending == g.pending
    ensures BevsOk(bevs, g')
  {
    forall i | 0 <= i < |bevs| ensures BevOk(bevs[i], g') {
      forall d ensures OwnOk(bevs[i], d) && ShareOk(bevs[i], g', d) {
        assert BevOk(bevs[i], g) && OwnOk(bevs[i], d) && ShareOk(bevs[i], g, d);
      }
    }
  }

  lemma BevsTurned(bevs: seq<Bev>, g: Group, d: Dir, suspend: bool, busy: set<nat>)
    requires BevsOk(bevs, g)
    ensures BevsOk(Told(bevs, d, suspend, busy), Turned(g, d, suspend, Missed(bevs, busy)))
  {
    var g' := Turned(g, d, suspend, Missed(bevs, busy));
    var bevs' := Told(bevs, d, suspend, busy);
    forall i | 0 <= i < |bevs| ensures BevOk(bevs'[i], g') {
      TurnedOk(bevs[i], g, d, suspend, i in busy, Missed(bevs, busy));
    }
  }

  lemma TurnedOk(b: Bev, g: Group, d: Dir, suspend: bool, busy: bool, missed: bool)
    requires BevOk(b, g) && (b.grouped && busy ==> missed)
    ensures BevOk(Tell(b, d, suspend, busy), Turned(g, d, suspend, missed))
  {
    var b', g' := Tell(b, d, suspend, busy), Turned(g, d, suspend, missed);
    forall e ensures OwnOk(b', e) && ShareOk(b', g', e) {
      assert OwnOk(b, e) && ShareOk(b, g, e);
    }
  }

  lemma LookedOk(b: Bev, g: Group, now: nat, d: Dir)
    requires BevOk(b, g) && OwnOk(b, d)
    ensures BevOk(Looked(b, g, now, d), g)
  {
    hide Topup, Credit;
    var b' := Looked(b, g, now, d);
    forall e ensures OwnOk(b', e) && ShareOk(b', g, e) {
      assert OwnOk(b, e) && ShareOk(b, g, e);
      if b.cfg.Some? {
        CreditTopup(b.bucket, b.cfg.value, now, e);
        CreditBounds(b.bucket, b.cfg.value, b.cfg.value.Tick(now), e);
      }
    }
  }

  lemma ChargedOk(b: Bev, g: Group, d: Dir, bytes: nat)
    requires BevOk(b, g) && (b.cfg.Some? ==> bytes <= b.bucket.limit.At(d))
    ensures BevOk(Charged(b, d, bytes), g)
  {
    var b' := Charged(b, d, bytes);
    forall e ensures OwnOk(b', e) && ShareOk(b', g, e) {
      assert OwnOk(b, e) && ShareOk(b, g, e) && OwnOk(b, d);
    }
  }

  lemma RefreshedOk(b: Bev, g: Group, now: nat)
    requires BevOk(b, g) && b.cfg.Some? && OwnOk(b, Reading)
    ensures BevOk(Refreshed(b, now), g)
  {
    hide Topup, Credit;
    var b' := Refreshed(b, now);
    forall e ensures OwnOk(b', e) && ShareOk(b', g, e) {
      assert OwnOk(b, e) && ShareOk(b, g, e);
      CreditTopup(b.bucket, b.cfg.value, now, e);
      CreditBounds(b.bucket, b.cfg.value, b.cfg.value.Tick(now), e);
    }
  }

  lemma ConfiguredOk(b: Bev, g: Group, cfg: Option<Cfg>, now: nat)
    requires BevOk(b, g) && (cfg.Some? ==> cfg.value.Valid())
    ensures BevOk(Configured(b, cfg, now), g)
  {
    var b' := Configured(b, cfg, now);
    forall e ensures OwnOk(b', e) && ShareOk(b', g, e) {
      assert OwnOk(b, e) && ShareOk(b, g, e);
      if cfg.Some? {
        assert 1 <= cfg.value.rate.At(e) <= cfg.value.maximum.At(e);
      }
    }
  }

  lemma JoinedOk(b: Bev, g: Group, g': Group)
    requires BevOk(b, g) && g'.suspended == g.suspended && g'.pending == g.pending
    ensures BevOk(Joined(b, g), g') && BevOk(Left(b), g')
  {
    var b', b'' := Joined(b, g), Left(b);
    forall e ensures OwnOk(b', e) && ShareOk(b', g', e) && OwnOk(b'', e) && ShareOk(b'', g', e) {
      assert OwnOk(b, e) && ShareOk(b, g, e);
    }
  }

  // -------- and the number of members

  lemma {:induction false} MembersSet(bevs: seq<Bev>, i: nat, b: Bev)
    requires i < |bevs|
    ensures Members(bevs[i := b]) == Members(bevs) + (if b.grouped then 1 else 0) - (if bevs[i].grouped then 1 else 0)
    decreases i
  {
    var bevs' := bevs[i := b];
    if i == 0 {
      assert bevs'[1..] == bevs[1..];
    } else {
      assert bevs'[1..] == bevs[1..][i - 1 := b];
      MembersSet(bevs[1..], i - 1, b);
    }
  }

  lemma {:induction false} MembersSame(bevs: seq<Bev>, bevs': seq<Bev>)
    requires |bevs'| == |bevs| && forall i | 0 <= i < |bevs| :: bevs'[i].grouped == bevs[i].grouped
    ensures Members(bevs') == Members(bevs)
  {
    if bevs != [] {
      forall i | 0 <= i < |bevs[1..]| ensures bevs'[1..][i].grouped == bevs[1..][i].grouped {
        assert bevs'[i + 1].grouped == bevs[i + 1].grouped;
      }
      MembersSame(bevs[1..], bevs'[1..]);
    }
  }

  lemma {:induction false} MembersMore(bevs: seq<Bev>, b: Bev)
    ensures Members(bevs + [b]) == Members(bevs) + if b.grouped then 1 else 0
  {
    if bevs != [] {
      assert (bevs + [b])[1..] == bevs[1..] + [b];
      MembersMore(bevs[1..], b);
    } else {
      assert ([] + [b])[1..] == [];
      assert Members([b]) == (if b.grouped then 1 else 0) + Members([]);
    }
  }

  lemma {:induction false} MembersSome(bevs: seq<Bev>, i: nat)
    requires i < |bevs| && bevs[i].grouped
    ensures Members(bevs) > 0
    decreases i
  {
    if i > 0 {
      MembersSome(bevs[1..], i - 1);
    }
  }

  // -------- and the bucket of the group

  /** A share of a bucket that is not in debt is no more than what is left, or the least share. */
  lemma ShareBound(g: Group, d: Dir)
    requires g.members > 0 && g.bucket.limit.At(d) >= 0
    ensures 0 <= Share(g, d) && (Share(g, d) <= g.bucket.limit.At(d) || Share(g, d) <= g.minShare)
  {
    var l, n := g.bucket.limit.At(d), g.members;
    var q := l / n;
    assert q * n <= l;
    assert q <= q * n by {
      Times(q, 1, n);
    }
  }

  /** A member moves at most its share, and the debt stays below the least share. */
  lemma GroupChargedOk(g: Group, d: Dir, bytes: nat, positive: bool, most: nat, bevs: seq<Bev>, busy: set<nat>)
    requires GroupOk(g, positive, most) && !g.suspended.At(d) && g.members > 0 && bytes <= Share(g, d)
    requires positive ==> most > 0
    ensures GroupOk(Settled(bevs, GroupCharged(g, d, bytes), d, busy).1, positive, most)
  {
    var g' := Settled(bevs, GroupCharged(g, d, bytes), d, busy).1;
    assert DebtOk(g, positive, most, d);
    ShareBound(g, d);
    forall e ensures DebtOk(g', positive, most, e) {
      assert DebtOk(g, positive, most, e);
    }
  }

  lemma ResumedOk(bevs: seq<Bev>, g: Group, d: Dir, positive: bool, most: nat, busy: set<nat>)
    requires BevsOk(bevs, g) && GroupOk(g, positive, most) && g.members == Members(bevs)
    ensures var r := Resumed(bevs, g, d, busy);
            && BevsOk(r.0, r.1) && GroupOk(r.1, positive, most) && r.1.members == Members(r.0)
            && SameBuckets(bevs, r.0) && r.1.cfg == g.cfg && r.1.bucket == g.bucket
  {
    var r := Resumed(bevs, g, d, busy);
    BevsTurned(bevs, g, d, false, busy);
    MembersSame(bevs, r.0);
    forall e ensures DebtOk(r.1, positive, most, e) {
      assert DebtOk(g, positive, most, e) && DebtOk(g, positive, most, d);
    }
  }

  lemma TopupOk(g: Group, now: nat, positive: bool, most: nat)
    requires GroupOk(g, positive, most)
    ensures GroupOk(g.(bucket := Topup(g.bucket, g.cfg, now)), positive, most)
    ensures var g' := g.(bucket := Topup(g.bucket, g.cfg, now));
            forall d :: GroupDraws(g, g', 0, Elapsed(g.bucket.lastUpdated, g.cfg.Tick(now)), d, 0)
  {
    hide Topup;
    var g' := g.(bucket := Topup(g.bucket, g.cfg, now));
    forall e
      ensures DebtOk(g', positive, most, e)
      ensures GroupDraws(g, g', 0, Elapsed(g.bucket.lastUpdated, g.cfg.Tick(now)), e, 0)
    {
      assert DebtOk(g, positive, most, e);
      CreditTopup(g.bucket, g.cfg, now, e);
      assert 1 <= g.cfg.rate.At(e);
    }
  }

  /** No more ticks are found than have gone by since the last refill. */
  lemma ElapsedReal(refilled: nat, now: nat)
    requires refilled <= now
    ensures Elapsed(refilled % TWO32, now) <= now - refilled
  {
    ElapsedLater(refilled % TWO32, refilled, now - refilled);
    assert (refilled - refilled % TWO32) % TWO32 == 0 by {
      SameRemainder(0, refilled / TWO32);
    }
  }

  // -------- one call

  /** Nothing that matters to the buckets has changed. */
  ghost predicate SameBuckets(bevs: seq<Bev>, bevs': seq<Bev>) {
    && |bevs'| == |bevs|
    && forall i {:trigger bevs'[i]} | 0 <= i < |bevs| ::
       bevs'[i].cfg == bevs[i].cfg && bevs'[i].bucket == bevs[i].bucket
                                && bevs'[i].grouped == bevs[i].grouped
  }

  /** One call draws on the credit of each bufferevent for what it has moved, except if it sets its limit. */
  ghost predicate AllDraw(bevs: seq<Bev>, bevs': seq<Bev>, now: nat, now': nat, op: Op, s: Sent) {
    && |bevs| <= |bevs'|
    && forall i, d | 0 <= i < |bevs| && !(op.OpLimit? && op.bev == i) ::
         Draws(bevs[i], bevs'[i], now, now', d, Moved(op, s, i, d))
  }

  lemma AllDrawLater(bevs: seq<Bev>, g: Group, bevs': seq<Bev>, now: nat, now': nat, op: Op, s: Sent)
    requires BevsOk(bevs, g) && bevs <= bevs' && now <= now' && !op.OpTransfer?
    ensures AllDraw(bevs, bevs', now, now', op, s)
  {
    forall i, d | 0 <= i < |bevs| ensures Draws(bevs[i], bevs'[i], now, now', d, Moved(op, s, i, d)) {
      assert BevOk(bevs[i], g) && OwnOk(bevs[i], d);
      DrawsLater(bevs[i], now, now', d);
    }
  }

  lemma AllDrawSame(bevs: seq<Bev>, g: Group, bevs': seq<Bev>, now: nat, op: Op, s: Sent)
    requires BevsOk(bevs, g) && SameBuckets(bevs, bevs') && !op.OpTransfer?
    ensures AllDraw(bevs, bevs', now, now, op, s)
  {
    forall i, d | 0 <= i < |bevs| ensures Draws(bevs[i], bevs'[i], now, now, d, Moved(op, s, i, d)) {
      assert BevOk(bevs[i], g) && OwnOk(bevs[i], d);
    }
  }

  /** One bufferevent has changed, and then nothing that matters. */
  lemma AllDrawOne(bevs: seq<Bev>, g: Group, i: nat, b: Bev, bevs': seq<Bev>, now: nat, op: Op, s: Sent)
    requires i < |bevs| && BevsOk(bevs, g) && SameBuckets(bevs[i := b], bevs') && (op.OpTransfer? ==> op.bev == i)
    requires (op.OpLimit? && op.bev == i) || forall d :: Draws(bevs[i], b, now, now, d, Moved(op, s, i, d))
    ensures AllDraw(bevs, bevs', now, now, op, s)
  {
    forall j, d | 0 <= j < |bevs| && !(op.OpLimit? && op.bev == j)
      ensures Draws(bevs[j], bevs'[j], now, now, d, Moved(op, s, j, d))
    {
      assert bevs'[j].cfg == bevs[i := b][j].cfg && bevs'[j].bucket == bevs[i := b][j].bucket;
      assert BevOk(bevs[j], g) && OwnOk(bevs[j], d);
      if j == i {
        assert Draws(bevs[i], b, now, now, d, Moved(op, s, i, d));
      }
    }
  }

  /** A transfer takes what it moves from the credit. */
  lemma ChargedDraws(b: Bev, g: Group, now: nat, d: Dir, bytes: nat, e: Dir)
    requires b.cfg.Some? ==> b.cfg.value.msecPerTick > 0
    requires b.cfg.Some? ==> b.bucket.limit.At(e) <= b.cfg.value.maximum.At(e)
    ensures Draws(b, Looked(b, g, now, d), now, now, e, 0)
    ensures Draws(b, Charged(Looked(b, g, now, d), d, bytes), now, now, e, if e == d then bytes else 0)
  {
    if b.cfg.Some? {
      var c := b.cfg.value;
      CreditTopup(b.bucket, c, now, e);
    }
  }

  lemma SettledOk(bevs: seq<Bev>, g: Group, d: Dir, busy: set<nat>)
    requires BevsOk(bevs, g)
    ensures var r := Settled(bevs, g, d, busy);
            BevsOk(r.0, r.1) && SameBuckets(bevs, r.0) && r.1.members == g.members && r.1.cfg == g.cfg
              && r.1.bucket == g.bucket
  {
    BevsTurned(bevs, g, d, true, busy);
    BevsTurned(bevs, g, d, false, busy);
    if g.bucket.limit.At(d) <= 0 {
      TurnedStop(g, d, Missed(bevs, busy));
    }
  }

  lemma TurnedStop(g: Group, d: Dir, missed: bool)
    ensures Turned(g, d, true, missed) == Turned(g, d, true, false)
  {
  }

  /** As much as is wanted and allowed, but nothing while the bufferevent is suspended. */
  ghost predicate Transfers(b: Bev, g: Group, now: nat, d: Dir, want: nat, n: nat) {
    && (b.cfg.Some? ==> b.cfg.value.msecPerTick > 0) && (b.grouped ==> g.members != 0)
    && var b1 := Looked(b, g, now, d);
       exists a: nat {:trigger IsAllowance(a, b1, g, d)} ::
         IsAllowance(a, b1, g, d) && n == if b1.suspended.At(d) != {} then 0 else Min(want, a)
  }

  /** bufferevent_readcb and bufferevent_writecb: as much as the limits allow, of the `want` bytes there are. */
  method Transfer(r: RateLimits, i: nat, d: Dir, want: nat, busy: set<nat>, ghost positive: bool, ghost most: nat)
    returns (s: Sent)
    requires r.Valid(positive, most) && i < |r.bevs| && (positive ==> most > 0)
    modifies r
    ensures r.Valid(positive, most) && r.now == old(r.now) && r.refilled == old(r.refilled)
    ensures r.group.cfg == old(r.group).cfg && r.group.bucket.lastUpdated == old(r.group).bucket.lastUpdated
    ensures s.bytes <= want && s.grouped == old(r.bevs)[i].grouped
    ensures Transfers(old(r.bevs)[i], old(r.group), r.now, d, want, s.bytes)
    ensures AllDraw(old(r.bevs), r.bevs, r.now, r.now, OpTransfer(i, d, want, busy), s)
    ensures GroupMoves(old(r.group), r.group, r.refilled, r.refilled, OpTransfer(i, d, want, busy), s)
  {
    hide Draws, Told, Missed, Topup, Members, GroupOk, Transfers, IsAllowance, Looked, HasPaid, GroupHasPaid;
    ghost var was, g := r.bevs, r.group;
    var grouped := r.bevs[i].grouped;
    assert BevOk(was[i], g) && OwnOk(was[i], d) && OwnOk(was[i], Reading) && OwnOk(was[i], Writing);
    if grouped {
      MembersSome(was, i);
    }
    var a := r.GetRlimMax(i, d);
    LookedOk(was[i], g, r.now, d);
    BevsSet(was, g, i, r.bevs[i]);
    MembersSet(was, i, r.bevs[i]);
    ChargedDraws(was[i], g, r.now, d, 0, Reading);
    ChargedDraws(was[i], g, r.now, d, 0, Writing);
    LookedSame(was[i], g, r.now, d, want, a);
    ghost var op := OpTransfer(i, d, want, busy);
    ghost var b := r.bevs[i];
    if r.bevs[i].suspended.At(d) != {} || a == 0 || want == 0 {
      s := Sent(0, grouped);
      EachDir(was[i], b, r.now, op, s);
      AllDrawOne(was, g, i, b, r.bevs, r.now, op, s);
      return;
    }
    var bytes := if want < a then want else a;
    s := Sent(bytes, grouped);
    ChargeOk(was, r.bevs, g, i, d, bytes, a, r.now, busy, positive, most, op, s);
    r.Decrement(i, d, bytes, busy);
  }

  lemma LookedSame(b: Bev, g: Group, now: nat, d: Dir, want: nat, a: nat)
    requires (b.cfg.Some? ==> b.cfg.value.msecPerTick > 0) && (b.grouped ==> g.members != 0)
    requires IsAllowance(a, Looked(b, g, now, d), g, d)
    ensures var b1 := Looked(b, g, now, d);
            && Transfers(b, g, now, d, want, if b1.suspended.At(d) != {} then 0 else Min(want, a))
            && b1.grouped == b.grouped && b1.cfg == b.cfg
  {
    hide IsAllowance;
  }

  /** The same for both directions. */
  lemma EachDir(b: Bev, b': Bev, now: nat, op: Op, s: Sent)
    requires op.OpTransfer?
    requires Draws(b, b', now, now, Reading, Moved(op, s, op.bev, Reading))
    requires Draws(b, b', now, now, Writing, Moved(op, s, op.bev, Writing))
    ensures forall d :: Draws(b, b', now, now, d, Moved(op, s, op.bev, d))
  {
    forall d ensures Draws(b, b', now, now, d, Moved(op, s, op.bev, d)) {
    }
  }

  /** All that Decrement does after a transfer within the allowance. */
  lemma ChargeOk(was: seq<Bev>, bevs: seq<Bev>, g: Group, i: nat, d: Dir, bytes: nat, a: nat, now: nat, busy: set<nat>,
                 positive: bool, most: nat, op: Op, s: Sent)
    requires i < |was| && BevsOk(was, g) && GroupOk(g, positive, most) && g.members == Members(was)
    requires OwnOk(was[i], Reading) && OwnOk(was[i], Writing)
    requires bevs == was[i := Looked(was[i], g, now, d)] && BevsOk(bevs, g) && g.members == Members(bevs)
    requires bevs[i].grouped ==> g.members > 0
    requires IsAllowance(a, bevs[i], g, d) && bytes <= a && bevs[i].suspended.At(d) == {}
    requires positive ==> most > 0
    requires op.OpTransfer? && op == OpTransfer(i, d, op.want, busy) && s == Sent(bytes, was[i].grouped)
    ensures var b := Charged(bevs[i], d, bytes);
            var r := if b.grouped then Settled(bevs[i := b], GroupCharged(g, d, bytes), d, busy) else (bevs[i := b], g);
            && BevsOk(r.0, r.1) && GroupOk(r.1, positive, most) && r.1.members == Members(r.0) && r.1.cfg == g.cfg
            && r.1.bucket.lastUpdated == g.bucket.lastUpdated
            && AllDraw(was, r.0, now, now, op, s)
            && forall n :: GroupMoves(g, r.1, n, n, op, s)
  {
    hide Draws, Told, Missed, Topup, Members, AllDraw;
    var b := Charged(bevs[i], d, bytes);
    var g' := GroupCharged(g, d, bytes);
    assert BevOk(bevs[i], g) && OwnOk(bevs[i], d) && ShareOk(bevs[i], g, d);
    ChargedOk(bevs[i], g, d, bytes);
    BevsSet(bevs, g, i, b);
    MembersSet(bevs, i, b);
    BevsSame(bevs[i := b], g, g');
    SettledOk(bevs[i := b], g', d, busy);
    assert bevs[i := b] == was[i := b];
    ChargedDraws(was[i], g, now, d, bytes, Reading);
    ChargedDraws(was[i], g, now, d, bytes, Writing);
    EachDir(was[i], b, now, op, s);
    if b.grouped {
      assert Looked(was[i], g, now, d).grouped;
      GroupChargedOk(g, d, bytes, positive, most, bevs[i := b], busy);
      var r := Settled(bevs[i := b], g', d, busy);
      MembersSame(bevs[i := b], r.0);
      AllDrawOne(was, g, i, b, r.0, now, op, s);
    } else {
      AllDrawOne(was, g, i, b, was[i := b], now, op, s);
    }
  }

  /** bev_group_refill_callback_ at its tick. */
  lemma GroupRefreshOk(bevs: seq<Bev>, g: Group, refilled: nat, now: nat, busy: set<nat>, positive: bool, most: nat)
    requires BevsOk(bevs, g) && GroupOk(g, positive, most) && g.members == Members(bevs)
    ensures var r := GroupRefreshed(bevs, g, now, busy);
            var refilled' := if r.1.bucket.lastUpdated != g.bucket.lastUpdated then g.cfg.Tick(now) else refilled;
            && BevsOk(r.0, r.1) && GroupOk(r.1, positive, most)
            && r.1.members == Members(r.0) && SameBuckets(bevs, r.0) && r.1.cfg == g.cfg
            && (refilled' != refilled ==> ClockOk(r.1, refilled', now))
            && (ClockOk(g, refilled, now) ==>
                  ClockOk(r.1, refilled', now) && forall d :: GroupDraws(g, r.1, refilled, refilled', d, 0))
  {
    hide Told, Missed, Topup, Members, BevsOk, GroupOk, Resumed;
    GroupLimits(g, positive, most);
    var g1 := g.(bucket := Topup(g.bucket, g.cfg, now));
    TopupOk(g, now, positive, most);
    BevsSame(bevs, g, g1);
    ResumedOk(bevs, g1, Reading, positive, most, busy);
    var r1 := Resumed(bevs, g1, Reading, busy);
    ResumedOk(r1.0, r1.1, Writing, positive, most, busy);
    var r := GroupRefreshed(bevs, g, now, busy);
    ClockStarts(g, now);
    if ClockOk(g, refilled, now) {
      TopupClock(g, refilled, now);
      var refilled' := if r.1.bucket.lastUpdated != g.bucket.lastUpdated then g.cfg.Tick(now) else refilled;
      forall d ensures GroupDraws(g, r.1, refilled, refilled', d, 0) {
        assert GroupDraws(g, g1, 0, Elapsed(g.bucket.lastUpdated, g.cfg.Tick(now)), d, 0);
        Times(g.cfg.rate.At(d), Elapsed(g.bucket.lastUpdated, g.cfg.Tick(now)), refilled' - refilled);
      }
    }
  }

  /** A refill that changes the time of update sets it to the tick of now, whatever it was. */
  lemma ClockStarts(g: Group, now: nat)
    requires g.cfg.msecPerTick > 0
    ensures var b := Topup(g.bucket, g.cfg, now);
            b.lastUpdated == g.bucket.lastUpdated || b.lastUpdated == g.cfg.Tick(now) % TWO32
  {
  }

  /** The group's clock keeps step with the ticks that it finds. */
  lemma TopupClock(g: Group, refilled: nat, now: nat)
    requires ClockOk(g, refilled, now)
    ensures var b := Topup(g.bucket, g.cfg, now);
            var refilled' := if b.lastUpdated != g.bucket.lastUpdated then g.cfg.Tick(now) else refilled;
            && b.lastUpdated == refilled' % TWO32 && refilled <= refilled' <= g.cfg.Tick(now)
            && Elapsed(g.bucket.lastUpdated, g.cfg.Tick(now)) <= refilled' - refilled
  {
    var t := g.cfg.Tick(now);
    ElapsedReal(refilled, t);
    if t % TWO32 == g.bucket.lastUpdated {
      SameRemainder(0, t / TWO32 - refilled / TWO32);
      assert t - g.bucket.lastUpdated == (t / TWO32) * TWO32;
      SameRemainder(0, t / TWO32);
    }
  }

  lemma ReconfiguredOk(g: Group, c: Cfg, positive: bool, most: nat)
    requires GroupOk(g, positive, most) && c.Valid() && (positive ==> most > 0)
    ensures GroupOk(Reconfigured(g, c), positive, most)
  {
    assert c.rate.At(Reading) >= 1 && c.rate.At(Writing) >= 1;
    var g' := Reconfigured(g, c);
    forall e ensures DebtOk(g', positive, most, e) {
      assert DebtOk(g, positive, most, e);
      assert 1 <= c.rate.At(e) <= c.maximum.At(e);
    }
  }

  lemma ShareSet(g: Group, share: nat, positive: bool, most: nat)
    requires GroupOk(g, positive, most) && share <= most && (positive ==> share > 0)
    ensures var least := Min(share, Min(g.cfg.rate.read, g.cfg.rate.write));
            GroupOk(g.(configured := share, minShare := least), positive, most)
  {
    assert g.cfg.rate.At(Reading) >= 1 && g.cfg.rate.At(Writing) >= 1;
    var g' := g.(configured := share, minShare := Min(share, Min(g.cfg.rate.read, g.cfg.rate.write)));
    forall e ensures DebtOk(g', positive, most, e) {
      assert DebtOk(g, positive, most, e);
    }
  }

  lemma MembersCount(g: Group, n: int, positive: bool, most: nat)
    requires GroupOk(g, positive, most)
    ensures GroupOk(g.(members := n), positive, most)
  {
    forall e ensures DebtOk(g.(members := n), positive, most, e) {
      assert DebtOk(g, positive, most, e);
    }
  }

  lemma NewOk(bevs: seq<Bev>, g: Group, b: Bev)
    requires BevsOk(bevs, g) && b.cfg.None? && b.suspended == Pair({}, {})
    ensures BevsOk(bevs + [b], g)
  {
    assert BevOk(b, g);
  }

  /** Any call. Those on bufferevents that do not exist, and timers that are not set, do nothing. */
  method Do(r: RateLimits, op: Op, ghost positive: bool, ghost most: nat) returns (s: Sent)
    requires r.Valid(positive, most) && (positive ==> most > 0) && Allowed(op, positive, most)
    modifies r
    ensures r.Valid(positive, most) && r.now >= old(r.now)
    ensures r.group.cfg == if op.OpGroupLimit? then op.shared else old(r.group).cfg
    ensures old(r.InClock()) && r.group.cfg.msecPerTick == old(r.group).cfg.msecPerTick ==> r.InClock()
    ensures r.refilled != old(r.refilled) ==> r.InClock()
    ensures AllDraw(old(r.bevs), r.bevs, old(r.now), r.now, op, s)
    ensures old(r.InClock()) && !op.OpGroupLimit? ==>
              GroupMoves(old(r.group), r.group, old(r.refilled), r.refilled, op, s)
  {
    hide Told, Missed, Topup, Members, BevsOk, GroupOk, AllDraw, Resumed, Draws, Configured, Refreshed;
    ghost var bevs, g, now := r.bevs, r.group, r.now;
    s := Sent(0, false);
    match op {
      case OpWait(ms) =>
        r.Wait(ms);
        GroupLimits(g, positive, most);
        TickLater(g.cfg, now, r.now);
        AllDrawLater(bevs, g, r.bevs, now, r.now, op, s);
      case OpNew =>
        r.NewBufferevent();
        NewOk(bevs, g, r.bevs[|bevs|]);
        MembersMore(bevs, r.bevs[|bevs|]);
        AllDrawLater(bevs, g, r.bevs, now, now, op, s);
      case OpTransfer(i, d, want, busy) =>
        if i < |r.bevs| {
          s := Transfer(r, i, d, want, busy, positive, most);
        } else {
          AllDrawNone(bevs, g, now, op, s);
        }
      case OpGroupRefill(busy) =>
        GroupRefreshOk(bevs, g, r.refilled, now, busy, positive, most);
        GroupLimits(g, positive, most);
        r.GroupRefill(busy);
        AllDrawSame(bevs, g, r.bevs, now, op, s);
      case OpMinShare(share) =>
        ShareSet(g, share, positive, most);
        var _ := r.SetMinShare(share);
        BevsSame(bevs, g, r.group);
        AllDrawSame(bevs, g, r.bevs, now, op, s);
      case OpGroupLimit(cfg) =>
        ReconfiguredOk(g, cfg, positive, most);
        GroupLimits(g, positive, most);
        r.GroupSetCfg(cfg);
        BevsSame(bevs, g, r.group);
        AllDrawSame(bevs, g, r.bevs, now, op, s);
      case _ =>
        if op.bev < |r.bevs| {
          DoOne(r, op, positive, most);
        } else {
          AllDrawNone(bevs, g, now, op, s);
        }
    }
  }

  lemma GroupLimits(g: Group, positive: bool, most: nat)
    requires GroupOk(g, positive, most)
    ensures g.cfg.Valid() && g.configured <= Memory.SSIZE_MAX
    ensures forall d :: Memory.SSIZE_MIN <= g.bucket.limit.At(d) <= g.cfg.maximum.At(d)
  {
    forall d ensures Memory.SSIZE_MIN <= g.bucket.limit.At(d) <= g.cfg.maximum.At(d) {
      assert DebtOk(g, positive, most, d);
    }
  }

  lemma AllDrawNone(bevs: seq<Bev>, g: Group, now: nat, op: Op, s: Sent)
    requires BevsOk(bevs, g) && s.bytes == 0
    ensures AllDraw(bevs, bevs, now, now, op, s)
  {
    forall i, d | 0 <= i < |bevs| ensures Draws(bevs[i], bevs[i], now, now, d, Moved(op, s, i, d)) {
      assert BevOk(bevs[i], g) && OwnOk(bevs[i], d);
    }
  }

  /** The calls on one bufferevent that do not move bytes. */
  method DoOne(r: RateLimits, op: Op, ghost positive: bool, ghost most: nat)
    requires r.Valid(positive, most) && Allowed(op, positive, most)
    requires (op.OpLimit? || op.OpJoin? || op.OpLeave? || op.OpRefill?) && op.bev < |r.bevs|
    modifies r
    ensures r.Valid(positive, most) && r.group.cfg == old(r.group).cfg && r.group.bucket == old(r.group).bucket
    ensures r.now == old(r.now) && r.refilled == old(r.refilled)
    ensures AllDraw(old(r.bevs), r.bevs, r.now, r.now, op, Sent(0, false))
  {
    hide Told, Missed, Topup, Members, BevsOk, GroupOk, AllDraw, Resumed, Configured, Refreshed;
    ghost var bevs, g, now, i := r.bevs, r.group, r.now, op.bev;
    BevIn(bevs, g, i);
    match op {
      case OpLimit(_, cfg) =>
        ConfiguredOk(bevs[i], g, cfg, now);
        ConfiguredGrouped(bevs[i], cfg, now);
        r.SetRateLimit(op.bev, cfg);
      case OpRefill(_) =>
        if r.bevs[op.bev].refillPending {
          if r.bevs[op.bev].cfg.Some? {
            RefreshedOk(bevs[i], g, now);
            RefreshedDraws(bevs[i], now);
          } else {
            IdleOk(bevs[i], g);
          }
          r.Refill(op.bev);
        } else {
          assert r.bevs[i := r.bevs[i]] == r.bevs;
        }
      case OpJoin(_) =>
        JoinedOk(bevs[i], g, g.(members := g.members + if bevs[i].grouped then 0 else 1));
        r.AddToGroup(op.bev);
        BevsSame(bevs, g, r.group);
        MembersCount(g, r.group.members, positive, most);
      case OpLeave(_) =>
        JoinedOk(bevs[i], g, g.(members := g.members - if bevs[i].grouped then 1 else 0));
        r.RemoveFromGroup(op.bev);
        BevsSame(bevs, g, r.group);
        MembersCount(g, r.group.members, positive, most);
    }
    ghost var b := r.bevs[i];
    BevsSet(bevs, r.group, i, b);
    MembersSet(bevs, i, b);
    AllDrawOne(bevs, g, i, b, r.bevs, now, op, Sent(0, false));
  }

  lemma BevIn(bevs: seq<Bev>, g: Group, i: nat)
    requires i < |bevs| && BevsOk(bevs, g)
    ensures BevOk(bevs[i], g) && OwnOk(bevs[i], Reading) && OwnOk(bevs[i], Writing)
  {
    assert BevOk(bevs[i], g);
  }

  lemma IdleOk(b: Bev, g: Group)
    requires BevOk(b, g) && b.cfg.None?
    ensures BevOk(b.(refillPending := false), g)
  {
    forall d ensures OwnOk(b.(refillPending := false), d) && ShareOk(b.(refillPending := false), g, d) {
      assert OwnOk(b, d) && ShareOk(b, g, d);
    }
  }

  lemma ConfiguredGrouped(b: Bev, cfg: Option<Cfg>, now: nat)
    requires cfg.Some? ==> cfg.value.msecPerTick > 0
    ensures Configured(b, cfg, now).grouped == b.grouped
  {
  }

  lemma RefreshedDraws(b: Bev, now: nat)
    requires b.cfg.Some? && b.cfg.value.msecPerTick > 0
    ensures Refreshed(b, now).grouped == b.grouped
    ensures forall d :: Draws(b, Refreshed(b, now), now, now, d, 0)
  {
    hide Topup, Credit;
    forall d ensures Draws(b, Refreshed(b, now), now, now, d, 0) {
      CreditTopup(b.bucket, b.cfg.value, now, d);
    }
  }

  // -------- whole runs

  ghost predicate AllAllowed(ops: seq<Op>, positive: bool, most: nat) {
    forall k | 0 <= k < |ops| :: Allowed(ops[k], positive, most)
  }

  /** The run does not change the limit of bufferevent `i`. */
  ghost predicate Keeps(ops: seq<Op>, i: nat) {
    forall k | 0 <= k < |ops| :: !(ops[k].OpLimit? && ops[k].bev == i)
  }

  /** The run does not change the limit of the group. */
  ghost predicate KeepsGroup(ops: seq<Op>) {
    forall k | 0 <= k < |ops| :: !ops[k].OpGroupLimit?
  }

  /** The run does not change the length of the group's tick. */
  ghost predicate KeepsTick(ops: seq<Op>, msec: nat) {
    forall k | 0 <= k < |ops| && ops[k].OpGroupLimit? :: ops[k].shared.msecPerTick == msec
  }

  /** All that a run has moved for one bufferevent. */
  ghost function BevSum(ops: seq<Op>, sent: seq<Sent>, i: nat, d: Dir): nat
    requires |sent| == |ops|
    decreases |ops|
  {
    var n := |ops|;
    if n == 0 then 0 else BevSum(ops[..n - 1], sent[..n - 1], i, d) + Moved(ops[n - 1], sent[n - 1], i, d)
  }

  /** All that a run has moved for the members of the group. */
  ghost function GroupSum(ops: seq<Op>, sent: seq<Sent>, d: Dir): nat
    requires |sent| == |ops|
    decreases |ops|
  {
    var n := |ops|;
    if n == 0 then 0 else GroupSum(ops[..n - 1], sent[..n - 1], d) + Shared(ops[n - 1], sent[n - 1], d)
  }

  ghost predicate AllSum(bevs: seq<Bev>, bevs': seq<Bev>, now: nat, now': nat, ops: seq<Op>, sent: seq<Sent>) {
    && |sent| == |ops| && |bevs| <= |bevs'|
    && forall i, d | 0 <= i < |bevs| && Keeps(ops, i) ::
         Draws(bevs[i], bevs'[i], now, now', d, BevSum(ops, sent, i, d))
  }

  ghost predicate GroupAll(g: Group, g': Group, refilled: nat, refilled': nat, ops: seq<Op>, sent: seq<Sent>) {
    && |sent| == |ops|
    && forall d :: GroupDraws(g, g', refilled, refilled', d, GroupSum(ops, sent, d))
  }

  lemma AllSumStep(bevs: seq<Bev>, bevs1: seq<Bev>, bevs2: seq<Bev>, now: nat, now1: nat, now2: nat,
                   ops: seq<Op>, sent: seq<Sent>)
    requires |sent| == |ops| > 0 && AllSum(bevs, bevs1, now, now1, ops[..|ops| - 1], sent[..|ops| - 1])
    requires AllDraw(bevs1, bevs2, now1, now2, ops[|ops| - 1], sent[|ops| - 1])
    ensures AllSum(bevs, bevs2, now, now2, ops, sent)
  {
    hide Draws;
    var n := |ops| - 1;
    forall i, d | 0 <= i < |bevs| && Keeps(ops, i)
      ensures Draws(bevs[i], bevs2[i], now, now2, d, BevSum(ops, sent, i, d))
    {
      assert !(ops[n].OpLimit? && ops[n].bev == i);
      KeepsLess(ops, i, n);
      DrawsTwice(bevs[i], bevs1[i], bevs2[i], now, now1, now2, d,
                 BevSum(ops[..n], sent[..n], i, d), Moved(ops[n], sent[n], i, d));
    }
  }

  lemma KeepsLess(ops: seq<Op>, i: nat, n: nat)
    requires n <= |ops| && Keeps(ops, i)
    ensures Keeps(ops[..n], i)
  {
  }

  lemma GroupSumStep(g: Group, g1: Group, g2: Group, r: nat, r1: nat, r2: nat, ops: seq<Op>, sent: seq<Sent>)
    requires |sent| == |ops| > 0 && KeepsGroup(ops)
    requires GroupAll(g, g1, r, r1, ops[..|ops| - 1], sent[..|ops| - 1])
    requires GroupMoves(g1, g2, r1, r2, ops[|ops| - 1], sent[|ops| - 1])
    ensures GroupAll(g, g2, r, r2, ops, sent)
  {
    hide GroupDraws;
    var n := |ops| - 1;
    forall d ensures GroupDraws(g, g2, r, r2, d, GroupSum(ops, sent, d)) {
      GroupDrawsTwice(g, g1, g2, r, r1, r2, d, GroupSum(ops[..n], sent[..n], d), Shared(ops[n], sent[n], d));
    }
  }

  /** A run, with an account of what has been moved. */
  method RunAll(r: RateLimits, ops: seq<Op>, ghost positive: bool, ghost most: nat) returns (sent: seq<Sent>)
    requires r.Valid(positive, most) && (positive ==> most > 0) && AllAllowed(ops, positive, most)
    modifies r
    ensures r.Valid(positive, most) && r.now >= old(r.now)
    ensures KeepsTick(ops, old(r.group).cfg.msecPerTick) ==>
              r.group.cfg.msecPerTick == old(r.group).cfg.msecPerTick && (old(r.InClock()) ==> r.InClock())
    ensures AllSum(old(r.bevs), r.bevs, old(r.now), r.now, ops, sent)
    ensures old(r.InClock()) && KeepsGroup(ops) ==>
              GroupAll(old(r.group), r.group, old(r.refilled), r.refilled, ops, sent)
    decreases |ops|
  {
    hide AllSum, AllDraw, GroupAll, GroupMoves, Allowed, BevsOk, GroupOk, ClockOk, Members;
    ghost var bevs, g, now, refilled := r.bevs, r.group, r.now, r.refilled;
    if ops == [] {
      sent := [];
      NothingMoved(bevs, g, now, refilled);
    } else {
      var n := |ops| - 1;
      assert KeepsGroup(ops) ==> KeepsGroup(ops[..n]) && !ops[n].OpGroupLimit?;
      ghost var msec, clocked := g.cfg.msecPerTick, r.InClock();
      assert KeepsTick(ops, msec) ==>
          KeepsTick(ops[..n], msec) && (ops[n].OpGroupLimit? ==> ops[n].shared.msecPerTick == msec);
      assert KeepsGroup(ops) ==> KeepsTick(ops, msec);
      var before := RunAll(r, ops[..n], positive, most);
      ghost var bevs1, g1, now1, refilled1 := r.bevs, r.group, r.now, r.refilled;
      AllSumLength(bevs, bevs1, now, now1, ops[..n], before);
      var s := Do(r, ops[n], positive, most);
      sent := before + [s];
      assert sent[..n] == before && sent[n] == s;
      AllSumStep(bevs, bevs1, r.bevs, now, now1, r.now, ops, sent);
      AllSumLength(bevs, r.bevs, now, r.now, ops, sent);
      if clocked && KeepsGroup(ops) {
        GroupSumStep(g, g1, r.group, refilled, refilled1, r.refilled, ops, sent);
      }
    }
  }

  lemma NothingMoved(bevs: seq<Bev>, g: Group, now: nat, refilled: nat)
    requires BevsOk(bevs, g)
    ensures AllSum(bevs, bevs, now, now, [], [])
    ensures GroupAll(g, g, refilled, refilled, [], [])
  {
    forall i, d | 0 <= i < |bevs| ensures Draws(bevs[i], bevs[i], now, now, d, BevSum([], [], i, d)) {
      assert BevOk(bevs[i], g) && OwnOk(bevs[i], d);
    }
  }

  lemma AllSumLength(bevs: seq<Bev>, bevs': seq<Bev>, now: nat, now': nat, ops: seq<Op>, sent: seq<Sent>)
    requires AllSum(bevs, bevs', now, now', ops, sent)
    ensures |sent| == |ops| && |bevs| <= |bevs'|
  {
  }

  /** No more than a burst, and the rate for each tick between the two times. */
  ghost predicate WithinBudget(c: Cfg, now: nat, now': nat, d: Dir, n: nat) {
    c.msecPerTick > 0 && n <= c.maximum.At(d) + (c.Tick(now') - c.Tick(now)) * c.rate.At(d)
  }

  /** No more than a burst, the rate for each tick since the refill, and a debt. */
  ghost predicate GroupWithin(c: Cfg, refilled: nat, now': nat, d: Dir, n: nat, debt: int) {
    c.msecPerTick > 0 && n <= c.maximum.At(d) + (c.Tick(now') - refilled) * c.rate.At(d) + debt
  }

  /** What has been drawn is no more than a burst and what the rate gives. */
  lemma Budget(b: Bev, b': Bev, now: nat, now': nat, d: Dir, n: nat)
    requires Draws(b, b', now, now', d, n) && OwnOk(b, d) && OwnOk(b', d) && b.cfg.Some?
    ensures WithinBudget(b.cfg.value, now, now', d, n)
  {
    var c := b.cfg.value;
    CreditBounds(b.bucket, c, c.Tick(now), d);
    CreditBounds(b'.bucket, c, c.Tick(now'), d);
  }

  /** The group may also be in debt for less than the least share. */
  lemma GroupBudget(g: Group, g': Group, refilled: nat, refilled': nat, now': nat, d: Dir, n: nat, positive: bool,
                    most: nat)
    requires GroupDraws(g, g', refilled, refilled', d, n) && GroupOk(g, positive, most) && GroupOk(g', positive, most)
    requires ClockOk(g', refilled', now')
    ensures GroupWithin(g.cfg, refilled, now', d, n, most - if positive then 1 else 0)
  {
    assert DebtOk(g, positive, most, d) && DebtOk(g', positive, most, d);
    Times(g.cfg.rate.At(d), refilled' - refilled, g.cfg.Tick(now') - refilled);
  }

  /**
   * Over any run, a bufferevent whose limit is not changed moves at most its burst, and its rate for
   * each tick. The members of a group whose limit is not changed together move at most the group's
   * burst, its rate for each tick since it was last refilled, and less than the largest least share,
   * if its time of update is in step at the start, as it stays while ticks keep their length.
   */
  method DoAll(r: RateLimits, ops: seq<Op>, ghost positive: bool, ghost most: nat) returns (sent: seq<Sent>)
    requires r.Valid(positive, most) && (positive ==> most > 0) && AllAllowed(ops, positive, most)
    modifies r
    ensures r.Valid(positive, most) && |sent| == |ops|
    ensures old(r.InClock()) && KeepsTick(ops, old(r.group).cfg.msecPerTick) ==> r.InClock()
    ensures forall i, d | 0 <= i < |old(r.bevs)| && Keeps(ops, i) && old(r.bevs)[i].cfg.Some? ::
              WithinBudget(old(r.bevs)[i].cfg.value, old(r.now), r.now, d, BevSum(ops, sent, i, d))
    ensures old(r.InClock()) && KeepsGroup(ops) ==>
              forall d :: GroupWithin(old(r.group).cfg, old(r.refilled), r.now, d, GroupSum(ops, sent, d),
                                      most - if positive then 1 else 0)
  {
    hide GroupOk, ClockOk, Members;
    ghost var bevs, g, now, refilled := r.bevs, r.group, r.now, r.refilled;
    sent := RunAll(r, ops, positive, most);
    Budgets(bevs, g, r.bevs, r.group, now, r.now, ops, sent);
    assert KeepsGroup(ops) ==> KeepsTick(ops, g.cfg.msecPerTick);
    if old(r.InClock()) && KeepsGroup(ops) {
      GroupBudgets(g, r.group, refilled, r.refilled, r.now, ops, sent, positive, most);
    }
  }

  lemma Budgets(bevs: seq<Bev>, g: Group, bevs': seq<Bev>, g': Group, now: nat, now': nat, ops: seq<Op>,
                sent: seq<Sent>)
    requires AllSum(bevs, bevs', now, now', ops, sent) && BevsOk(bevs, g) && BevsOk(bevs', g')
    ensures |sent| == |ops|
    ensures forall i, d | 0 <= i < |bevs| && Keeps(ops, i) && bevs[i].cfg.Some? ::
              WithinBudget(bevs[i].cfg.value, now, now', d, BevSum(ops, sent, i, d))
  {
    forall i, d | 0 <= i < |bevs| && Keeps(ops, i) && bevs[i].cfg.Some?
      ensures WithinBudget(bevs[i].cfg.value, now, now', d, BevSum(ops, sent, i, d))
    {
      assert BevOk(bevs[i], g) && OwnOk(bevs[i], d) && BevOk(bevs'[i], g') && OwnOk(bevs'[i], d);
      assert Draws(bevs[i], bevs'[i], now, now', d, BevSum(ops, sent, i, d));
      Budget(bevs[i], bevs'[i], now, now', d, BevSum(ops, sent, i, d));
    }
  }

  lemma GroupBudgets(g: Group, g': Group, refilled: nat, refilled': nat, now': nat, ops: seq<Op>, sent: seq<Sent>,
                     positive: bool, most: nat)
    requires GroupOk(g, positive, most) && GroupOk(g', positive, most) && ClockOk(g', refilled', now')
    requires GroupAll(g, g', refilled, refilled', ops, sent)
    ensures forall d :: GroupWithin(g.cfg, refilled, now', d, GroupSum(ops, sent, d), most - if positive then 1 else 0)
  {
    forall d ensures GroupWithin(g.cfg, refilled, now', d, GroupSum(ops, sent, d), most - if positive then 1 else 0) {
      GroupBudget(g, g', refilled, refilled', now', d, GroupSum(ops, sent, d), positive, most);
    }
  }

  // -------- nobody waits forever

  /**
   * After a refill a bufferevent is still suspended by its own bucket if and only if it was, its bucket
   * was empty, and no new tick was found. The timer is set again for no other reason.
   */
  lemma OwnPause(b: Bev, g: Group, now: nat, d: Dir)
    requires BevOk(b, g) && b.cfg.Some? && b.cfg.value.msecPerTick > 0
    ensures Refreshed(b, now).Has(d, Bandwidth) <==> StillEmpty(b, now, d)
    ensures Refreshed(b, now).refillPending <==> StillEmpty(b, now, Reading) || StillEmpty(b, now, Writing)
  {
    hide Topup, Credit, StillEmpty;
    forall e ensures Topup(b.bucket, b.cfg.value, now).limit.At(e) > 0 || StillEmpty(b, now, e) || !b.Has(e, Bandwidth)
             ensures StillEmpty(b, now, e)
                     ==> b.Has(e, Bandwidth) && Topup(b.bucket, b.cfg.value, now).limit.At(e) == 0 {
      CreditTopup(b.bucket, b.cfg.value, now, e);
      CreditEmpty(b, g, now, e);
    }
    assert StillEmpty(b, now, Reading) ==> b.Has(Reading, Bandwidth);
    assert StillEmpty(b, now, Writing) ==> b.Has(Writing, Bandwidth);
  }

  ghost predicate StillEmpty(b: Bev, now: nat, d: Dir)
    requires b.cfg.Some? && b.cfg.value.msecPerTick > 0
  {
    b.Has(d, Bandwidth) && b.bucket.limit.At(d) == 0 && Elapsed(b.bucket.lastUpdated, b.cfg.value.Tick(now)) == 0
  }

  lemma CreditEmpty(b: Bev, g: Group, now: nat, d: Dir)
    requires BevOk(b, g) && b.cfg.Some? && b.cfg.value.msecPerTick > 0
    ensures var credit := Credit(b.bucket, b.cfg.value, b.cfg.value.Tick(now), d);
            && credit >= 0 && (StillEmpty(b, now, d) <==> b.Has(d, Bandwidth) && credit == 0)
  {
    var c := b.cfg.value;
    assert OwnOk(b, d) && 1 <= c.rate.At(d) <= c.maximum.At(d);
    var n := Elapsed(b.bucket.lastUpdated, c.Tick(now));
    CreditBounds(b.bucket, c, c.Tick(now), d);
    if n > 0 {
      Times(c.rate.At(d), 1, n);
    }
  }

  /**
   * A bucket keeps its time of update when it gets another configuration, although ticks may have
   * another length then. For all configurations: a refill leaves the bufferevent suspended if and only
   * if the bucket was empty and the new count of ticks is not between 1 and 2^31 - 1 ahead of the old one.
   */
  lemma ReconfiguredPause(b: Bev, g: Group, c: Cfg, at: nat, now: nat, d: Dir)
    requires BevOk(b, g) && b.cfg.Some? && c.Valid() && b.cfg != Some(c)
    ensures Refreshed(Configured(b, Some(c), at), now).Has(d, Bandwidth) <==>
            b.bucket.limit.At(d) == 0 && !(1 <= (c.Tick(now) - b.bucket.lastUpdated) % TWO32 <= INT_MAX)
  {
    var b' := Configured(b, Some(c), at);
    assert OwnOk(b, d) && 1 <= c.rate.At(d) <= c.maximum.At(d);
    ConfiguredOk(b, g, Some(c), at);
    ConfiguredEmpty(b, c, at, d);
    OwnPause(b', g, now, d);
  }

  lemma ConfiguredEmpty(b: Bev, c: Cfg, at: nat, d: Dir)
    requires b.cfg.Some? && b.cfg != Some(c) && c.Valid() && b.bucket.limit.At(d) >= 0
    ensures var b' := Configured(b, Some(c), at);
      && b'.cfg == Some(c) && b'.bucket.lastUpdated == b.bucket.lastUpdated
      && (b'.Has(d, Bandwidth) <==> b.bucket.limit.At(d) == 0)
         && (b'.bucket.limit.At(d) == 0 <==> b.bucket.limit.At(d) == 0)
  {
    assert 1 <= c.rate.At(d) <= c.maximum.At(d);
  }

  /**
   * So when the tick is made longer, from a millisecond to a second one million seconds after the start
   * of the count, an exhausted bufferevent stays suspended for more than thirty years.
   */
  lemma LongerTick(now: nat)
    requires 1_000_000_000 <= now <= 1_000_000_000_000
    ensures var fast := Cfg(1, Pair(10, 10), Pair(10, 10), 1);
            var slow := Cfg(2, Pair(10000, 10000), Pair(10000, 10000), 1000);
            var b := Bev(Some(fast), Bucket(Pair(0, 10), 1_000_000_000), false, Pair({Bandwidth}, {}), true,
              Pair(1, 1));
            var b' := Configured(b, Some(slow), 1_000_000_000);
            fast.Valid() && slow.Valid() && Refreshed(b', now).Has(Reading, Bandwidth)
  {
    hide Configured, Refreshed;
    var fast := Cfg(1, Pair(10, 10), Pair(10, 10), 1);
    var slow := Cfg(2, Pair(10000, 10000), Pair(10000, 10000), 1000);
    var b := Bev(Some(fast), Bucket(Pair(0, 10), 1_000_000_000), false, Pair({Bandwidth}, {}), true, Pair(1, 1));
    var g := Group(fast, b.bucket, Pair(false, false), Pair(false, false), 1, 1, 0);
    assert BevOk(b, g);
    var back := slow.Tick(now) - 1_000_000_000;
    assert -999_000_000 <= back <= 0;
    BackInTime(back);
    ReconfiguredPause(b, g, slow, 1_000_000_000, now, Reading);
  }

  lemma BackInTime(x: int)
    requires -0x7fff_ffff <= x <= 0
    ensures !(1 <= x % TWO32 <= INT_MAX)
  {
    if x < 0 {
      assert (x + TWO32) % TWO32 == x % TWO32;
    }
  }

  /**
   * After its tick a group is still suspended if and only if it was and the ticks found do not make up
   * for its debt and a share. Once it goes on, it owes that to members that could not be locked at most.
   */
  lemma GroupPause(bevs: seq<Bev>, g: Group, now: nat, d: Dir, busy: set<nat>, positive: bool, most: nat)
    requires BevsOk(bevs, g) && GroupOk(g, positive, most)
    ensures var r := GroupRefreshed(bevs, g, now, busy);
            var n := Elapsed(g.bucket.lastUpdated, g.cfg.Tick(now));
            && (r.1.suspended.At(d) <==> g.suspended.At(d) && g.bucket.limit.At(d) + n * g.cfg.rate.At(d) < g.minShare)
            && |r.0| == |bevs|
            && (g.suspended.At(d) && !r.1.suspended.At(d) && r.1.pending.At(d) ==>
                  exists i | 0 <= i < |bevs| :: bevs[i].grouped && i in busy)
  {
    hide Topup;
    assert DebtOk(g, positive, most, d) && g.cfg.rate.At(d) <= g.cfg.maximum.At(d);
    CreditTopup(g.bucket, g.cfg, now, d);
    MissedLater(bevs, g.(bucket := Topup(g.bucket, g.cfg, now)), busy);
  }

  /**
   * A group keeps its time of update too when it gets another configuration. For all configurations:
   * after its next tick it is suspended if and only if it was, and the ticks found (none, unless the new
   * count of ticks is between 1 and 2^31 - 1 ahead of the old one) do not make up, at the new rate, for
   * the limit cut to the new maximum and the new share.
   */
  lemma ReconfiguredGroupPause(bevs: seq<Bev>, g: Group, c: Cfg, now: nat, d: Dir, busy: set<nat>, positive: bool,
                               most: nat)
    requires BevsOk(bevs, g) && GroupOk(g, positive, most) && c.Valid() && (positive ==> most > 0)
    ensures var ahead := (c.Tick(now) - g.bucket.lastUpdated) % TWO32;
            var n := if 1 <= ahead <= INT_MAX then ahead else 0;
            var share := Min(g.configured, Min(c.rate.read, c.rate.write));
            GroupRefreshed(bevs, Reconfigured(g, c), now, busy).1.suspended.At(d)
            <==> g.suspended.At(d) && Min(g.bucket.limit.At(d), c.maximum.At(d)) + n * c.rate.At(d) < share
  {
    var g' := Reconfigured(g, c);
    GroupLimits(g, positive, most);
    ReconfiguredOk(g, c, positive, most);
    BevsSame(bevs, g, g');
    GroupPause(bevs, g', now, d, busy, positive, most);
  }

  lemma MissedLater(bevs: seq<Bev>, g: Group, busy: set<nat>)
    ensures Missed(Resumed(bevs, g, Reading, busy).0, busy) == Missed(bevs, busy)
  {
    var bevs' := Resumed(bevs, g, Reading, busy).0;
    forall i | 0 <= i < |bevs| ensures bevs'[i].grouped == bevs[i].grouped {
    }
  }
}
