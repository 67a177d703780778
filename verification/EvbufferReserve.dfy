/**
 * Space at the end of an evbuffer: making room, handing it out as vectors, and turning what has
 * been written there into contents.
 */
module EvbufferReserve {
  import opened Segments
  import opened Memory
  import opened BufferCallbacks
  import opened Evbuffer
  import EvbufferMove

  const MAX_TO_COPY_IN_EXPAND: nat := 4096
  const NUM_READ_IOVEC: nat := 4

  /** struct evbuffer_iovec: `len` bytes from index `pos` of the memory of a chain. */
  datatype Vec = Vec(chain: Ptr, pos: nat, len: nat)

  /** Position of the first chain that has space at its end. */
  ghost function FirstWritable(cs: seq<Seg>, lwd: nat): nat
    requires lwd < |cs|
  {
    if cs[lwd].Space() == 0 then lwd + 1 else lwd
  }

  /** It is the last one with data, unless that is read-only or full. */
  lemma FirstWritableIs(cs: seq<Seg>, lwd: nat)
    requires lwd < |cs|
    ensures FirstWritable(cs, lwd)
            == if cs[lwd].immutable || cs[lwd].misalign + |cs[lwd].data| == cs[lwd].cap then lwd + 1 else lwd
  {
  }

  /** Total space of the `n` segments from position `k` on, or of all if there are fewer. */
  ghost function SpaceOf(cs: seq<Seg>, k: nat, n: nat): int
    decreases n
  {
    if n == 0 || k >= |cs| then 0 else cs[k].Space() + SpaceOf(cs, k + 1, n - 1)
  }

  /** Segment `k` is replaced by one that shows the same bytes. */
  lemma SameBytesAt(cs: seq<Seg>, lwd: nat, k: nat, v: Seg)
    requires Marked(cs, lwd) && k < |cs| && v.data == cs[k].data
    ensures Flat(cs[k := v]) == Flat(cs) && Marked(cs[k := v], lwd)
  {
    FlatSet(cs, k, v);
    FlatAround(cs, k);
  }

  /** Rewrites the chain at position `k` without changing its bytes. */
  method Rewrite(buf: EvBuffer, c: Chain, chain: Ptr, ghost k: nat)
    requires buf.Linked() && k < |buf.spine| && chain == buf.spine[k] && c.InBounds() && c.View().Good()
    requires chain in buf.mem.at && c.next == buf.mem.at[chain].next && c.View().data == buf.segs[k].data
    modifies buf`segs, buf.mem
    ensures buf.Linked() && buf.segs == old(buf.segs)[k := c.View()] && buf.Contents() == old(buf.Contents())
    ensures buf.mem.at == old(buf.mem.at)[chain := c]
    ensures Confined(old(buf.mem.at), buf.spine, buf.mem.at, buf.spine)
  {
    hide Flat, Chain.View, Chain.InBounds, Seg.Good, EmptyFrom, Chained, Confined, Ptrs, CbState.Accounts;
    buf.TargetAt(k);
    ChainedIn(buf.mem.at, buf.spine, buf.segs);
    ChainedSet(buf.mem.at, buf.spine, buf.segs, k, c);
    ConfinedSet(buf.mem.at, buf.spine, chain, c);
    SameBytesAt(buf.segs, buf.lwd, k, c.View());
    buf.mem.at := buf.mem.at[chain := c];
    buf.segs := buf.segs[k := c.View()];
  }

  /** evbuffer_chain_insert_new: an empty chain with room for `datlen` bytes, behind the data. */
  method InsertNew(buf: EvBuffer, datlen: nat) returns (chain: Ptr, ghost k: nat)
    requires buf.Linked() && buf.LastOk()
    modifies buf`first, buf`last, buf`lastWithDatap, buf`totalLen, buf`spine, buf`segs, buf`lwd, buf.mem
    ensures buf.Linked() && buf.LastOk() && buf.Contents() == old(buf.Contents())
    ensures chain == NULL <==> datlen > MAX_CAP
    ensures chain == NULL ==> buf.mem.at == old(buf.mem.at) && buf.spine == old(buf.spine)
    ensures chain != NULL ==>
              && k == |buf.spine| - 1 && chain == buf.spine[k] && buf.segs[k].data == []
              && !buf.segs[k].immutable && buf.segs[k].misalign == 0 && datlen <= buf.segs[k].cap
              && (k == 0 || (k == buf.lwd + 1 && buf.lwd == old(buf.lwd)))
    ensures Confined(old(buf.mem.at), old(buf.spine), buf.mem.at, buf.spine)
  {
    hide Flat, Chain.View, Chain.InBounds, Seg.Good, EmptyFrom, Chained, Confined, Ptrs, CbState.Accounts;
    ChainedIn(buf.mem.at, buf.spine, buf.segs);
    ConfinedSame(buf.mem.at, buf.spine);
    ghost var at0, s0 := buf.mem.at, buf.spine;
    chain := buf.NewChain(datlen);
    k := 0;
    if chain == NULL {
      return;
    }
    ghost var at1 := buf.mem.at;
    buf.ChainInsert(chain);
    ConfinedTrans(at0, s0, at1, s0 + [chain], buf.mem.at, buf.spine);
    k := |buf.spine| - 1;
  }

  /** Moves the data of the chain at position `k` into a new chain, which takes its place. */
  method Resize(buf: EvBuffer, chainp: Link, datlen: nat) returns (tmp: Ptr)
    requires buf.Linked() && buf.LastOk() && buf.lwd < |buf.spine| && chainp == buf.LinkAt(buf.lwd)
    modifies buf`first, buf`last, buf`spine, buf`segs, buf.mem
    ensures buf.Linked() && buf.LastOk() && buf.Contents() == old(buf.Contents()) && |buf.spine| == |old(buf.spine)|
    ensures tmp == NULL <==> |old(buf.segs)[buf.lwd].data| + datlen > MAX_CAP
    ensures tmp != NULL ==>
              tmp == buf.spine[buf.lwd] && datlen <= buf.segs[buf.lwd].Space()
              && !buf.segs[buf.lwd].immutable
    ensures tmp != NULL ==> buf.segs[buf.lwd].data == old(buf.segs)[buf.lwd].data
    ensures Confined(old(buf.mem.at), old(buf.spine), buf.mem.at, buf.spine)
  {
    hide Flat, Chain.View, Chain.InBounds, Seg.Good, EmptyFrom, Chained, Confined, Ptrs, CbState.Accounts;
    var mem := buf.mem;
    ghost var at0, s, cs, k := mem.at, buf.spine, buf.segs, buf.lwd;
    ChainedIn(at0, s, cs);
    ConfinedSame(at0, s);
    buf.TargetAt(k);
    var chain := buf.Target(chainp);
    var length := mem.at[chain].off + datlen;
    tmp := buf.NewChain(length);
    if tmp == NULL {
      return;
    }
    var c := mem.at[tmp].Appended(mem.at[chain].Bytes(0, mem.at[chain].off));
    RoomAfter(mem.at[tmp], c, datlen);
    mem.at := mem.at[tmp := c];
    SwapIn(buf, chainp, tmp, chain, c, at0);
  }

  /** Puts the chain `tmp` where `chain` is, and frees `chain`. */
  method SwapIn(buf: EvBuffer, chainp: Link, tmp: Ptr, chain: Ptr, ghost c: Chain, ghost at0: Store)
    requires |buf.spine| == |buf.segs| && Chained(at0, buf.spine, buf.segs) && buf.first == HeadOf(buf.spine)
    requires Marked(buf.segs, buf.lwd) && buf.lwd < |buf.spine| && buf.LastOk() && buf.totalLen == |buf.Contents()|
    requires chainp == buf.lastWithDatap == buf.LinkAt(buf.lwd) && chain == buf.spine[buf.lwd]
    requires tmp !in at0 && tmp != NULL && buf.mem.at == at0[tmp := c] && c.InBounds() && c.View().Good()
    requires c.View().data == buf.segs[buf.lwd].data
    modifies buf`first, buf`last, buf`spine, buf`segs, buf.mem
    ensures buf.Linked() && buf.LastOk() && buf.Contents() == old(buf.Contents())
    ensures buf.spine == old(buf.spine)[buf.lwd := tmp] && buf.segs == old(buf.segs)[buf.lwd := c.View()]
    ensures Confined(at0, old(buf.spine), buf.mem.at, buf.spine)
  {
    hide Flat, Chain.View, Chain.InBounds, Seg.Good, EmptyFrom, Chained, Confined, Ptrs, CbState.Accounts;
    var mem := buf.mem;
    ghost var s, cs, k := buf.spine, buf.segs, buf.lwd;
    ReplaceFacts(at0, s, cs, k, tmp, c);
    SameBytesAt(cs, k, k, c.View());
    var next := mem.at[chain].next;
    buf.Put(chainp, tmp);
    if buf.last == chain {
      buf.last := tmp;
    }
    mem.at := mem.at[tmp := mem.at[tmp].(next := next)];
    mem.Free(chain);
    assert mem.at == Replaced(at0, s, k, tmp, c);
    buf.spine, buf.segs := s[k := tmp], cs[k := c.View()];
  }

  lemma RoomAfter(c0: Chain, c: Chain, n: nat)
    requires c0.InBounds() && c0.View() == Seg([], 0, |c0.buffer|, false)
             && c.View() == c0.View().(data := c.View().data)
    requires |c.View().data| + n <= |c0.buffer|
    ensures n <= c.View().Space()
  {
  }

  /** Putting the new chain `p` in the place of the chain at position `k`, which is freed. */
  lemma ReplaceFacts(at: Store, s: seq<Ptr>, cs: seq<Seg>, k: nat, p: Ptr, c: Chain)
    requires |s| == |cs| && Chained(at, s, cs) && k < |s| && p !in at && p != NULL
    requires c.InBounds() && c.View().Good()
    ensures k > 0 ==> s[k - 1] in at && s[k - 1] != s[k] && s[k - 1] != p
    ensures s[k] in at && s[k] != p && (s[|s| - 1] == s[k] <==> k == |s| - 1)
    ensures Chained(Replaced(at, s, k, p, c), s[k := p], cs[k := c.View()])
    ensures Confined(at, s, Replaced(at, s, k, p, c), s[k := p])
  {
    hide Chained, Confined, Ptrs, Chain.View, Chain.InBounds;
    ChainedAt(at, s, cs, k);
    if k > 0 {
      ChainedAt(at, s, cs, k - 1);
    }
    ChainedIn(at, s, cs);
    ReplaceDistinct(at, s, cs, k, p);
    ReplaceBodies(at, s, cs, k, p, c);
    ReplaceConfined(at, s, cs, k, p, c);
  }

  lemma ReplaceDistinct(at: Store, s: seq<Ptr>, cs: seq<Seg>, k: nat, p: Ptr)
    requires Chained(at, s, cs) && k < |s| && p !in at
    ensures Distinct(s[k := p]) && (k > 0 ==> s[k - 1] != s[k]) && (s[|s| - 1] == s[k] <==> k == |s| - 1)
    ensures forall i {:trigger s[i]} | 0 <= i < |s| && i != k :: s[i] != s[k] && s[i] != p
  {
  }

  ghost function Replaced(at: Store, s: seq<Ptr>, k: nat, p: Ptr, c: Chain): Store
    requires k < |s| && s[k] in at && (k > 0 ==> s[k - 1] in at)
  {
    var linked := if k == 0 then at[p := c] else at[p := c][s[k - 1] := at[s[k - 1]].(next := p)];
    linked[p := c.(next := at[s[k]].next)] - {s[k]}
  }

  lemma ReplaceBodies(at: Store, s: seq<Ptr>, cs: seq<Seg>, k: nat, p: Ptr, c: Chain)
    requires Chained(at, s, cs) && k < |s| && p !in at && p != NULL && c.InBounds() && c.View().Good()
    requires s[k] in at && (k > 0 ==> s[k - 1] in at)
    ensures Chained(Replaced(at, s, k, p, c), s[k := p], cs[k := c.View()])
  {
    hide Chain.View, Chain.InBounds, Seg.Good;
    ReplaceDistinct(at, s, cs, k, p);
    forall i {:trigger s[i]} | 0 <= i < |s|
      ensures var q := s[k := p][i];
        && q in Replaced(at, s, k, p, c) && cs[k := c.View()][i].Good()
        && InPlace(q, Replaced(at, s, k, p, c)[q], cs[k := c.View()][i], NextIn(s[k := p], i))
    {
      ReplaceBody(at, s, cs, k, p, c, i);
    }
  }

  /** A chain in its place. */
  ghost predicate InPlace(q: Ptr, c: Chain, v: Seg, next: Ptr) {
    q != NULL && c.InBounds() && c.View() == v && c.next == next
  }

  lemma ReplaceBody(at: Store, s: seq<Ptr>, cs: seq<Seg>, k: nat, p: Ptr, c: Chain, i: nat)
    requires Chained(at, s, cs) && k < |s| && p !in at && p != NULL && c.InBounds() && c.View().Good() && i < |s|
    requires s[k] in at && (k > 0 ==> s[k - 1] in at)
    requires (k > 0 ==> s[k - 1] != s[k]) && (i != k ==> s[i] != s[k] && s[i] != p)
    ensures var q := s[k := p][i];
      && q in Replaced(at, s, k, p, c) && cs[k := c.View()][i].Good()
      && InPlace(q, Replaced(at, s, k, p, c)[q], cs[k := c.View()][i], NextIn(s[k := p], i))
  {
    hide Chain.View, Chain.InBounds, Seg.Good, Distinct, Bodies, Links;
    ChainedAt(at, s, cs, i);
    NextOfRest(s, i);
    SameView(c, at[s[k]].next);
    ChainedAt(at, s, cs, k);
    NextOfRest(s, k);
    if k > 0 {
      SameView(at[s[k - 1]], p);
      ChainedAt(at, s, cs, k - 1);
      if i < |s| && s[i] == s[k - 1] {
        SameIndex(at, s, cs, i, k - 1);
      }
    }
  }

  lemma NextOfRest(s: seq<Ptr>, i: nat)
    requires i < |s|
    ensures HeadOf(s[i + 1..]) == NextIn(s, i)
  {
  }

  lemma SameIndex(at: Store, s: seq<Ptr>, cs: seq<Seg>, i: nat, j: nat)
    requires Chained(at, s, cs) && i < |s| && j < |s| && s[i] == s[j]
    ensures i == j
  {
  }

  lemma ReplaceConfined(at: Store, s: seq<Ptr>, cs: seq<Seg>, k: nat, p: Ptr, c: Chain)
    requires Chained(at, s, cs) && k < |s| && p !in at && p != NULL
    requires s[k] in at && (k > 0 ==> s[k - 1] in at)
    ensures Confined(at, s, Replaced(at, s, k, p, c), s[k := p])
  {
    hide Chained;
    ChainedIn(at, s, cs);
    ReplaceDistinct(at, s, cs, k, p);
    var t := s[k := p];
    assert forall q | q in s :: q == s[k] || q in t by {
      forall q | q in s && q != s[k] ensures q in t {
        var i :| 0 <= i < |s| && s[i] == q;
        assert t[i] == q;
      }
    }
    assert t[k] == p;
    assert forall q | q in t :: q == p || q in s;
    assert s[k] !in t;
  }

  /** The case in which the space is in the chain behind the first writable one. */
  ghost predicate UsesNext(cs: seq<Seg>, lwd: nat, datlen: nat) {
    && lwd + 1 < |cs| && cs[lwd].data != []
    && 0 < cs[lwd].Space() < datlen && cs[lwd].Space() < cs[lwd].cap / 8 && |cs[lwd].data| >= cs[lwd].cap / 2
    && datlen <= cs[lwd + 1].Space()
  }

  /** The end of evbuffer_expand_singlechain: the last chain with data has space, but not enough. */
  method EnlargeLast(buf: EvBuffer, chainp: Link, datlen: nat) returns (chain: Ptr, ghost k: nat)
    requires buf.Linked() && buf.LastOk() && buf.lwd < |buf.spine| && chainp == buf.LinkAt(buf.lwd)
    requires buf.segs[buf.lwd].data != [] && !buf.segs[buf.lwd].immutable && buf.segs[buf.lwd].Space() < datlen
    modifies buf`first, buf`last, buf`lastWithDatap, buf`totalLen, buf`spine, buf`segs, buf`lwd, buf.mem
    ensures buf.Linked() && buf.LastOk() && buf.Contents() == old(buf.Contents())
    ensures chain == NULL ==> datlen + MAX_TO_COPY_IN_EXPAND > MAX_CAP
    ensures chain != NULL ==>
              && k < |buf.spine| && chain == buf.spine[k] && datlen <= buf.segs[k].Space()
              && (k == buf.lwd || k == buf.lwd + 1 || k == buf.lwd + 2)
    ensures UsesNext(old(buf.segs), old(buf.lwd), datlen) ==>
              chain != NULL && buf.spine == old(buf.spine) && buf.segs == old(buf.segs) && buf.lwd == old(buf.lwd)
                && k == buf.lwd + 1
    ensures Confined(old(buf.mem.at), old(buf.spine), buf.mem.at, buf.spine)
  {
    hide Flat, Chain.View, Chain.InBounds, Seg.Good, EmptyFrom, Chained, Confined, Ptrs, CbState.Accounts, Marked;
    var mem := buf.mem;
    ChainedIn(mem.at, buf.spine, buf.segs);
    ConfinedSame(mem.at, buf.spine);
    k := buf.lwd;
    buf.TargetAt(k);
    chain := buf.Target(chainp);
    var c := mem.at[chain];
    CapBound(buf.segs[k]);
    if c.ShouldRealign(datlen) {
      Rewrite(buf, c.Aligned(), chain, k);
      return;
    }
    if c.SpaceLen() < |c.buffer| / 8 || c.off > MAX_TO_COPY_IN_EXPAND || datlen >= CHAIN_MAX - c.off {
      if k + 1 < |buf.spine| {
        buf.TargetAt(k + 1);
        CapBound(buf.segs[k + 1]);
      }
      if c.next != NULL && mem.at[c.next].SpaceLen() >= datlen {
        chain, k := c.next, k + 1;
      } else {
        chain, k := InsertNew(buf, datlen);
        MarkInside(buf.segs, buf.lwd);
      }
    } else {
      chain := Resize(buf, chainp, datlen);
    }
  }

  /**
   * evbuffer_expand_singlechain: room for `datlen` bytes in one piece, behind all data. The chain
   * returned is used as it is, realigned, enlarged, or new.
   */
  method ExpandSinglechain(buf: EvBuffer, datlen: nat) returns (chain: Ptr, ghost k: nat)
    requires buf.Linked() && buf.LastOk()
    modifies buf`first, buf`last, buf`lastWithDatap, buf`totalLen, buf`spine, buf`segs, buf`lwd, buf.mem
    ensures buf.Linked() && buf.LastOk() && buf.Contents() == old(buf.Contents())
    ensures chain == NULL ==> datlen + MAX_TO_COPY_IN_EXPAND > MAX_CAP
    ensures chain != NULL ==>
              && k < |buf.spine| && chain == buf.spine[k] && datlen <= buf.segs[k].Space()
              && (k == buf.lwd || k == buf.lwd + 1 || k == buf.lwd + 2)
    ensures UsesNext(old(buf.segs), old(buf.lwd), datlen) ==>
              chain != NULL && buf.spine == old(buf.spine) && buf.segs == old(buf.segs) && buf.lwd == old(buf.lwd)
                && k == buf.lwd + 1
    ensures Confined(old(buf.mem.at), old(buf.spine), buf.mem.at, buf.spine)
  {
    hide Flat, Chain.View, Chain.InBounds, Seg.Good, EmptyFrom, Chained, Confined, Ptrs, CbState.Accounts;
    var mem := buf.mem;
    ChainedIn(mem.at, buf.spine, buf.segs);
    ConfinedSame(mem.at, buf.spine);
    buf.TargetAt(buf.lwd);
    var chainp := buf.lastWithDatap;
    k := buf.lwd;
    if buf.Target(chainp) != NULL && mem.at[buf.Target(chainp)].SpaceLen() == 0 {
      chainp := NextOf(buf.Target(chainp));
      k := k + 1;
      buf.TargetAt(k);
    }
    chain := buf.Target(chainp);
    if chain == NULL || mem.at[chain].immutable {
      chain, k := InsertNew(buf, datlen);
      return;
    }
    var c := mem.at[chain];
    CapBound(buf.segs[k]);
    if c.SpaceLen() >= datlen {
      return;
    }
    if c.off == 0 {
      chain, k := InsertNew(buf, datlen);
      return;
    }
    DataAtMark(buf.segs, buf.lwd, k);
    chain, k := EnlargeLast(buf, chainp, datlen);
  }

  lemma DataAtMark(cs: seq<Seg>, lwd: nat, k: nat)
    requires Marked(cs, lwd) && lwd <= k < |cs| && cs[k].data != []
    ensures k == lwd
  {
  }

  ghost predicate AllGood(cs: seq<Seg>) {
    forall i {:trigger cs[i]} | 0 <= i < |cs| :: cs[i].Good()
  }

  lemma LinkedGood(buf: EvBuffer)
    requires buf.Linked()
    ensures AllGood(buf.segs)
  {
  }

  lemma {:induction false} SpaceMore(cs: seq<Seg>, k: nat, m: nat, n: nat)
    requires AllGood(cs) && m <= n
    ensures 0 <= SpaceOf(cs, k, m) <= SpaceOf(cs, k, n)
    decreases n
  {
    if m > 0 && k < |cs| {
      SpaceMore(cs, k + 1, m - 1, n - 1);
    } else if n > 0 && k < |cs| {
      SpaceMore(cs, k + 1, 0, n - 1);
    }
  }

  /** One segment more. */
  lemma {:induction false} SpaceStep(cs: seq<Seg>, k: nat, m: nat)
    requires k + m < |cs|
    ensures SpaceOf(cs, k, m + 1) == SpaceOf(cs, k, m) + cs[k + m].Space()
    decreases m
  {
    if m > 0 {
      SpaceStep(cs, k + 1, m - 1);
    }
  }

  /** Segments outside the range do not matter. */
  lemma {:induction false} SpaceSame(cs: seq<Seg>, ds: seq<Seg>, k: nat, m: nat)
    requires k + m <= |cs| && k + m <= |ds| && cs[k..k + m] == ds[k..k + m]
    ensures SpaceOf(cs, k, m) == SpaceOf(ds, k, m)
    decreases m
  {
    if m > 0 {
      assert cs[k] == cs[k..k + m][0] && ds[k] == ds[k..k + m][0];
      assert cs[k + 1..k + m] == cs[k..k + m][1..] && ds[k + 1..k + m] == ds[k..k + m][1..];
      SpaceSame(cs, ds, k + 1, m - 1);
    }
  }

  /** Enough space in the chains from the mark on is enough space in the writable ones. */
  lemma SpaceFromWritable(cs: seq<Seg>, lwd: nat, m: nat, used: nat, n: nat, need: nat)
    requires AllGood(cs) && lwd < |cs| && lwd + m <= |cs| && 0 < need <= SpaceOf(cs, lwd, m)
    requires used <= n && m <= used + (if cs[lwd].Space() == 0 then 1 else 0)
    ensures FirstWritable(cs, lwd) < |cs| && SpaceOf(cs, FirstWritable(cs, lwd), n) >= need
  {
    if cs[lwd].Space() == 0 {
      if m > 0 {
        SpaceMore(cs, lwd + 1, m - 1, n);
      }
    } else {
      SpaceMore(cs, lwd, m, n);
    }
  }

  /** Adds the empty chain `tmp` behind the last one: last->next = tmp; last = tmp. */
  method HangLast(buf: EvBuffer, tmp: Ptr)
    requires buf.Linked() && buf.LastOk() && tmp !in buf.spine && tmp != NULL && tmp in buf.mem.at
    requires buf.mem.at[tmp].next == NULL && buf.mem.at[tmp].InBounds() && buf.mem.at[tmp].View().Good()
    requires buf.mem.at[tmp].View().data == []
    modifies buf`first, buf`last, buf`spine, buf`segs, buf.mem
    ensures buf.Linked() && buf.LastOk() && buf.Contents() == old(buf.Contents())
    ensures buf.spine == old(buf.spine) + [tmp] && buf.segs == old(buf.segs) + [old(buf.mem.at[tmp].View())]
    ensures Confined(old(buf.mem.at), old(buf.spine) + [tmp], buf.mem.at, buf.spine)
  {
    hide Flat, Chain.View, Chain.InBounds, Seg.Good, EmptyFrom, Chained, Confined, Ptrs, CbState.Accounts;
    ghost var v := buf.mem.at[tmp].View();
    HangFlat(buf.segs, buf.lwd, v);
    LastInside(buf);
    buf.Hang(if buf.last == NULL then FirstOf(buf) else NextOf(buf.last), tmp);
    buf.last := tmp;
  }

  lemma HangFlat(cs: seq<Seg>, lwd: nat, v: Seg)
    requires Marked(cs, lwd) && v.data == []
    ensures Flat(cs + [v]) == Flat(cs) && Marked(cs + [v], lwd)
  {
    FlatPlus(cs, [v]);
    FlatOne(v);
  }

  /** The end of evbuffer_expand_fast_: all empty chains are replaced by one that is large enough. */
  method ReplaceEmpty(buf: EvBuffer, datlen: nat) returns (result: int)
    requires buf.Linked() && buf.LastOk() && buf.lwd < |buf.spine| && 0 < datlen
    requires buf.segs[buf.lwd].data != [] ==> buf.segs[buf.lwd].Space() <= datlen
    modifies buf`first, buf`last, buf`lastWithDatap, buf`spine, buf`segs, buf.mem
    ensures buf.Linked() && buf.LastOk() && buf.Contents() == old(buf.Contents())
    ensures result == 0 || (result == -1 && datlen > MAX_CAP)
    ensures result == 0 ==>
              && buf.lwd < |buf.spine| && FirstWritable(buf.segs, buf.lwd) < |buf.segs|
              && SpaceOf(buf.segs, FirstWritable(buf.segs, buf.lwd), 2) >= datlen
    ensures Confined(old(buf.mem.at), old(buf.spine), buf.mem.at, buf.spine)
  {
    hide Flat, Chain.View, Chain.InBounds, Seg.Good, EmptyFrom, Chained, Confined, Ptrs, CbState.Accounts;
    var mem := buf.mem;
    ghost var at0, s, cs := mem.at, buf.spine, buf.segs;
    buf.TargetAt(buf.lwd);
    CapBound(buf.segs[buf.lwd]);
    var chain := buf.Target(buf.lastWithDatap);
    var rmvAll := mem.at[chain].off == 0;
    var avail := if rmvAll then 0 else mem.at[chain].SpaceLen();
    var link := if rmvAll then buf.lastWithDatap else NextOf(chain);
    ghost var k := if rmvAll then 0 else buf.lwd + 1;
    TrimAt(cs, buf.lwd, k);
    buf.CutBehind(link, k);
    buf.last := if rmvAll then NULL else chain;
    ghost var at1, s1 := mem.at, buf.spine;
    var tmp := buf.NewChain(datlen - avail);
    if tmp == NULL {
      return -1;
    }
    ghost var at2, v := mem.at, mem.at[tmp].View();
    ConfinedTrans(at0, s, at1, s1, at2, s1 + [tmp]);
    HangLast(buf, tmp);
    ConfinedTrans(at0, s, at2, s1 + [tmp], mem.at, buf.spine);
    SpaceAtEnd(cs[..k], buf.lwd, v, avail, datlen);
    result := 0;
  }

  lemma TrimAt(cs: seq<Seg>, lwd: nat, k: nat)
    requires Marked(cs, lwd) && lwd < |cs| && k == (if cs[lwd].data == [] then 0 else lwd + 1)
    ensures k <= |cs| && Flat(cs[..k]) == Flat(cs) && Marked(cs[..k], lwd)
  {
    FlatTrim(cs, k);
  }

  lemma SpaceAtEnd(cs: seq<Seg>, lwd: nat, v: Seg, avail: int, need: nat)
    requires if cs == [] then lwd == 0 && avail == 0 else lwd == |cs| - 1 && cs[lwd].Good() && avail == cs[lwd].Space()
    requires v.Good() && v.data == [] && v.misalign == 0 && !v.immutable && need - avail <= v.cap && 0 < need
    ensures var ds := cs + [v];
            && FirstWritable(ds, lwd) < |ds| && SpaceOf(ds, FirstWritable(ds, lwd), 2) >= need
  {
    var ds := cs + [v];
    if cs != [] {
      assert ds[lwd] == cs[lwd] && ds[lwd + 1] == v;
      if cs[lwd].Space() != 0 {
        assert SpaceOf(ds, lwd, 2) == cs[lwd].Space() + SpaceOf(ds, lwd + 1, 1);
        assert SpaceOf(ds, lwd + 1, 1) == v.Space() + SpaceOf(ds, lwd + 2, 0);
      } else {
        assert SpaceOf(ds, lwd + 1, 2) == v.Space() + SpaceOf(ds, lwd + 2, 1);
      }
    } else {
      assert SpaceOf(ds, 0, 2) == v.Space() + SpaceOf(ds, 1, 1);
    }
  }

  /** The state of the search for space: `j` chains behind the mark seen, `used` of them with space. */
  ghost predicate Seen(cs: seq<Seg>, lwd: nat, j: nat, used: nat, avail: int) {
    && lwd < |cs| && lwd <= j <= |cs|
    && avail == SpaceOf(cs, lwd, j - lwd)
    && used <= j - lwd <= used + (if cs[lwd].Space() == 0 then 1 else 0)
  }

  lemma SeenNext(cs: seq<Seg>, ds: seq<Seg>, lwd: nat, j: nat, used: nat, avail: int, v: Seg, counted: bool)
    requires Seen(cs, lwd, j, used, avail) && AllGood(cs) && j < |cs| && ds == cs[j := v] && v.Good()
    requires counted || (j == lwd && v.Space() == 0)
    ensures Seen(ds, lwd, j + 1, used + (if counted then 1 else 0), avail + v.Space()) && AllGood(ds)
  {
    assert cs[lwd..j] == ds[lwd..j];
    SpaceSame(cs, ds, lwd, j - lwd);
    SpaceStep(ds, lwd, j - lwd);
  }

  /** The last chain is full, it is not read-only, and it is the last one with data. */
  ghost predicate FullTail(cs: seq<Seg>, lwd: nat) {
    cs != [] && lwd == |cs| - 1 && cs[lwd].data != [] && cs[lwd].Space() == 0 && !cs[lwd].immutable
  }

  lemma SeenOne(cs: seq<Seg>, lwd: nat, v: Seg)
    requires Marked(cs, lwd) && AllGood(cs) && cs != []
    requires v == if cs[lwd].data == [] then cs[lwd].(misalign := 0) else cs[lwd]
    ensures lwd < |cs|
    ensures !cs[|cs| - 1].immutable ==> (FirstWritable(cs[lwd := v], lwd) == |cs| <==> FullTail(cs, lwd))
  {
    assert cs[lwd].Good();
  }

  lemma SpaceOne(cs: seq<Seg>, k: nat)
    requires k < |cs|
    ensures SpaceOf(cs, k, 1) == cs[k].Space()
  {
    assert SpaceOf(cs, k + 1, 0) == 0;
  }

  lemma NothingSeen(cs: seq<Seg>, lwd: nat)
    ensures SpaceOf(cs, lwd, 0) == 0
  {
  }

  /** One chain behind the mark: an empty one is realigned; how much space it has, and if it counts. */
  method SeeChain(buf: EvBuffer, chain: Ptr, ghost j: nat) returns (space: nat, counted: bool)
    requires buf.Linked() && buf.lwd <= j < |buf.spine| && chain == buf.spine[j]
    modifies buf`segs, buf.mem
    ensures buf.Linked() && buf.Contents() == old(buf.Contents())
    ensures buf.segs == old(buf.segs)[j := buf.segs[j]] && buf.segs[j].Good() && space == buf.segs[j].Space()
    ensures buf.segs[j] == if old(buf.segs)[j].data == [] then old(buf.segs)[j].(misalign := 0) else old(buf.segs)[j]
    ensures counted || (j == buf.lwd && space == 0)
    ensures Confined(old(buf.mem.at), buf.spine, buf.mem.at, buf.spine)
  {
    hide Flat, Chain.View, Chain.InBounds, Seg.Good, EmptyFrom, Chained, Confined, Ptrs, CbState.Accounts;
    var mem := buf.mem;
    buf.TargetAt(j);
    ChainedIn(mem.at, buf.spine, buf.segs);
    ConfinedSame(mem.at, buf.spine);
    CapBound(buf.segs[j]);
    var c := mem.at[chain];
    space := c.SpaceLen();
    counted := c.off == 0 || space != 0;
    if c.off == 0 {
      space := |c.buffer|;
      Rewrite(buf, c.EmptyAtEnd(), chain, j);
    } else {
      DataAtMark(buf.segs, buf.lwd, j);
    }
  }

  /** What one more chain means for the search. */
  lemma LookNext(cs: seq<Seg>, ds: seq<Seg>, lwd: nat, j: nat, used: nat, avail: int, counted: bool)
    requires Seen(cs, lwd, j, used, avail) && AllGood(cs) && j < |cs| == |ds| && ds == cs[j := ds[j]] && ds[j].Good()
    requires ds[j] == if cs[j].data == [] then cs[j].(misalign := 0) else cs[j]
    requires counted || (j == lwd && ds[j].Space() == 0)
    ensures Seen(ds, lwd, j + 1, used + (if counted then 1 else 0), avail + ds[j].Space()) && AllGood(ds)
    ensures ds[lwd].Space() <= avail + ds[j].Space() <= SpaceOf(ds, lwd, |ds| - lwd)
    ensures AllAligned(cs) ==> ds == cs
  {
    hide Seg.Good, SpaceOf, AllGood, AllAligned;
    SeenNext(cs, ds, lwd, j, used, avail, ds[j], counted);
    SpaceMore(ds, lwd, 1, j + 1 - lwd);
    SpaceOne(ds, lwd);
    SpaceMore(ds, lwd, j + 1 - lwd, |ds| - lwd);
    if AllAligned(cs) {
      AlignedSame(cs, ds, j);
    }
  }

  /** No empty chain has to be realigned. */
  ghost predicate AllAligned(cs: seq<Seg>) {
    forall i | 0 <= i < |cs| && cs[i].data == [] :: cs[i].misalign == 0
  }

  lemma AlignedSame(cs: seq<Seg>, ds: seq<Seg>, j: nat)
    requires AllAligned(cs) && j < |cs|
    requires ds == cs[j := if cs[j].data == [] then cs[j].(misalign := 0) else cs[j]]
    ensures ds == cs
  {
  }

  /** The new chain evbuffer_expand_fast_ is going to add, if it adds one. */
  ghost predicate AddsOne(cs: seq<Seg>, lwd: nat, datlen: nat, n: nat) {
    && cs != [] && lwd < |cs| && !cs[|cs| - 1].immutable && AllAligned(cs)
    && |cs| - lwd < n && SpaceOf(cs, lwd, |cs| - lwd) < datlen
  }

  /** The list with it. */
  ghost function OneAdded(cs: seq<Seg>, lwd: nat, datlen: nat, n: nat): seq<Seg>
    requires AddsOne(cs, lwd, datlen, n)
  {
    cs + [Seg([], 0, CapFor(datlen - SpaceOf(cs, lwd, |cs| - lwd)), false)]
  }

  /** What the search for space has found in the list `cs0`, which is `cs` now. */
  ghost predicate Looked(cs0: seq<Seg>, cs: seq<Seg>, lwd: nat, datlen: nat, n: nat, enough: bool, avail: nat,
                         used: nat) {
    && used <= n && |cs| == |cs0| && lwd < |cs| && used <= |cs| - lwd
    && (enough && 0 < datlen ==>
          && FirstWritable(cs, lwd) < |cs| && SpaceOf(cs, FirstWritable(cs, lwd), n) >= datlen)
    && (!enough && used < n ==> avail < datlen && Seen(cs, lwd, |cs|, used, avail))
    && (!enough ==> 0 < datlen && (cs[lwd].data != [] ==> cs[lwd].Space() < datlen))
    && (datlen == 0 && !cs0[|cs| - 1].immutable ==> (FirstWritable(cs, lwd) == |cs| <==> FullTail(cs0, lwd)))
    && (AllAligned(cs0) ==> cs == cs0)
    && (enough ==> SpaceOf(cs, lwd, |cs| - lwd) >= datlen)
  }

  lemma MarkInside(cs: seq<Seg>, lwd: nat)
    requires Marked(cs, lwd) && cs != []
    ensures lwd < |cs| && Seen(cs, lwd, lwd, 0, 0)
  {
    NothingSeen(cs, lwd);
  }

  lemma LookEnough(cs0: seq<Seg>, cs: seq<Seg>, lwd: nat, j: nat, datlen: nat, n: nat, avail: nat, used: nat)
    requires Seen(cs, lwd, j, used, avail) && AllGood(cs) && Marked(cs0, lwd) && AllGood(cs0) && |cs| == |cs0|
             && used <= n
    requires datlen <= avail <= SpaceOf(cs, lwd, |cs| - lwd) && (AllAligned(cs0) ==> cs == cs0) && j > lwd
    requires datlen == 0 ==> cs == cs0[lwd := if cs0[lwd].data == [] then cs0[lwd].(misalign := 0) else cs0[lwd]]
    ensures Looked(cs0, cs, lwd, datlen, n, true, avail, used)
  {
    hide Seg.Good, SpaceOf, FullTail, FirstWritable, AllGood, AllAligned, EmptyFrom;
    if 0 < datlen {
      SpaceFromWritable(cs, lwd, j - lwd, used, n, datlen);
    } else {
      SeenOne(cs0, lwd, if cs0[lwd].data == [] then cs0[lwd].(misalign := 0) else cs0[lwd]);
    }
  }

  lemma LookInVain(cs0: seq<Seg>, cs: seq<Seg>, lwd: nat, j: nat, datlen: nat, n: nat, avail: nat, used: nat)
    requires Seen(cs, lwd, j, used, avail) && |cs| == |cs0| && used <= n && (used < n ==> j == |cs|)
    requires avail < datlen && cs[lwd].Space() < datlen && (AllAligned(cs0) ==> cs == cs0)
    ensures Looked(cs0, cs, lwd, datlen, n, false, avail, used)
  {
  }

  /**
   * The loop of evbuffer_expand_fast_ over the chains behind the mark. Empty ones are realigned on
   * the way. It stops when there is enough space, when `n` chains with space have been seen, or at
   * the end.
   */
  method LookForSpace(buf: EvBuffer, datlen: nat, n: nat) returns (enough: bool, avail: nat, used: nat)
    requires buf.Linked() && buf.LastOk() && buf.spine != [] && n >= 2
    modifies buf`segs, buf.mem
    ensures buf.Linked() && buf.LastOk() && buf.Contents() == old(buf.Contents())
    ensures Confined(old(buf.mem.at), buf.spine, buf.mem.at, buf.spine)
    ensures Looked(old(buf.segs), buf.segs, buf.lwd, datlen, n, enough, avail, used)
  {
    hide Flat, Chain.View, Chain.InBounds, Seg.Good, EmptyFrom, Chained, Confined, Ptrs, CbState.Accounts, SpaceOf,
         FullTail, FirstWritable, AllGood, AllAligned, Looked, Marked, Seen;
    var mem := buf.mem;
    ghost var at0, s, cs0, lwd := mem.at, buf.spine, buf.segs, buf.lwd;
    ChainedIn(at0, s, buf.segs);
    ConfinedSame(at0, s);
    LinkedGood(buf);
    MarkInside(cs0, lwd);
    used, avail, enough := 0, 0, false;
    ghost var j := lwd;
    buf.TargetAt(j);
    var chain := buf.Target(buf.lastWithDatap);
    while chain != NULL
      invariant buf.Linked() && buf.LastOk() && buf.Contents() == old(buf.Contents()) && |buf.segs| == |s|
      invariant Confined(at0, s, mem.at, s) && AllGood(buf.segs)
      invariant Seen(buf.segs, lwd, j, used, avail) && used < n && lwd <= j <= |s| && lwd < |s|
      invariant j > lwd ==> avail < datlen && buf.segs[lwd].Space() < datlen
      invariant j == lwd ==> buf.segs == cs0
      invariant AllAligned(cs0) ==> buf.segs == cs0
      invariant if j < |s| then chain == s[j] != NULL else chain == NULL
      decreases |s| - j
    {
      ghost var cs, at1 := buf.segs, mem.at;
      var space, counted := SeeChain(buf, chain, j);
      ConfinedTrans(at0, s, at1, s, mem.at, s);
      LookNext(cs, buf.segs, lwd, j, used, avail, counted);
      avail := avail + space;
      used := if counted then used + 1 else used;
      j := j + 1;
      if avail >= datlen {
        enough := true;
        LookEnough(cs0, buf.segs, lwd, j, datlen, n, avail, used);
        return;
      }
      if used == n {
        LookInVain(cs0, buf.segs, lwd, j, datlen, n, avail, used);
        return;
      }
      buf.TargetAt(j - 1);
      buf.TargetAt(j);
      chain := mem.at[chain].next;
    }
    LookInVain(cs0, buf.segs, lwd, j, datlen, n, avail, used);
  }

  /**
   * evbuffer_expand_fast_: afterwards the first `n` chains from the first writable one have room for
   * `datlen` bytes. No data is copied or moved.
   */
  method ExpandFast(buf: EvBuffer, datlen: nat, n: nat) returns (result: int)
    requires buf.Linked() && buf.LastOk() && n >= 2
    modifies buf`first, buf`last, buf`lastWithDatap, buf`totalLen, buf`spine, buf`segs, buf`lwd, buf.mem
    ensures buf.Linked() && buf.LastOk() && buf.Contents() == old(buf.Contents())
    ensures result == 0 || (result == -1 && datlen > MAX_CAP)
    ensures result == 0 ==> buf.spine != [] && FirstWritable(buf.segs, buf.lwd) <= |buf.segs|
    ensures result == 0 && 0 < datlen ==>
              && FirstWritable(buf.segs, buf.lwd) < |buf.segs|
              && SpaceOf(buf.segs, FirstWritable(buf.segs, buf.lwd), n) >= datlen
    ensures datlen == 0 ==> (FirstWritable(buf.segs, buf.lwd) == |buf.segs| <==> FullTail(old(buf.segs), old(buf.lwd)))
    ensures AddsOne(old(buf.segs), old(buf.lwd), datlen, n) && result == 0 ==>
              buf.segs == OneAdded(old(buf.segs), old(buf.lwd), datlen, n) && buf.lwd == old(buf.lwd)
    ensures Confined(old(buf.mem.at), old(buf.spine), buf.mem.at, buf.spine)
  {
    hide Flat, Chain.View, Chain.InBounds, Seg.Good, EmptyFrom, Chained, Confined, Ptrs, CbState.Accounts, AllAligned,
         SpaceOf;
    var mem := buf.mem;
    ghost var at0, s := mem.at, buf.spine;
    LastInside(buf);
    if buf.last != NULL {
      buf.TargetAt(|buf.spine| - 1);
    }
    if buf.last == NULL || mem.at[buf.last].immutable {
      ghost var oldSegs, oldLwd := buf.segs, buf.lwd;
      var chain, k := InsertNew(buf, datlen);
      if chain == NULL {
        return -1;
      }
      LinkedGood(buf);
      SpaceInNew(buf.segs, buf.lwd, k, n, datlen);
      return 0;
    }
    var enough, avail, used := LookForSpace(buf, datlen, n);
    if enough {
      return 0;
    }
    ghost var at1 := mem.at;
    if used < n {
      result := AppendSpace(buf, datlen, avail, used, n);
    } else {
      result := ReplaceEmpty(buf, datlen);
      if result == 0 {
        LinkedGood(buf);
        SpaceMore(buf.segs, FirstWritable(buf.segs, buf.lwd), 2, n);
      }
    }
    ConfinedTrans(at0, s, at1, s, mem.at, buf.spine);
  }

  lemma LastInside(buf: EvBuffer)
    requires buf.Linked() && buf.LastOk()
    ensures buf.last == NULL <==> buf.spine == []
    ensures buf.last != NULL ==> buf.last in buf.mem.at
  {
    hide Chained;
    ChainedIn(buf.mem.at, buf.spine, buf.segs);
    if buf.spine != [] {
      assert buf.spine[|buf.spine| - 1] in buf.spine;
    }
  }

  /** A new empty chain at the end has the space on its own. */
  lemma SpaceInNew(cs: seq<Seg>, lwd: nat, k: nat, n: nat, need: nat)
    requires AllGood(cs) && Marked(cs, lwd) && n >= 2 && k == |cs| - 1 && (k == 0 || k == lwd + 1)
    requires cs[k].data == [] && !cs[k].immutable && cs[k].misalign == 0 && need <= cs[k].cap
    ensures FirstWritable(cs, lwd) < |cs| && SpaceOf(cs, FirstWritable(cs, lwd), n) >= need
  {
    assert cs[k].Good();
    SpaceMore(cs, FirstWritable(cs, lwd), 2, n);
    assert SpaceOf(cs, k, 1) == cs[k].Space() + SpaceOf(cs, k + 1, 0);
    assert SpaceOf(cs, k, 2) == cs[k].Space() + SpaceOf(cs, k + 1, 1);
    if k > 0 {
      assert SpaceOf(cs, lwd, 2) == cs[lwd].Space() + SpaceOf(cs, k, 1);
      SpaceMore(cs, lwd, 0, 1);
    }
  }

  lemma SliceOfMore(cs: seq<Seg>, v: Seg, k: nat, m: nat)
    requires k + m <= |cs|
    ensures cs[k..k + m] == (cs + [v])[k..k + m]
  {
  }

  /** The branch of evbuffer_expand_fast_ that adds one more chain. */
  method AppendSpace(buf: EvBuffer, datlen: nat, avail: nat, used: nat, n: nat) returns (result: int)
    requires buf.Linked() && buf.LastOk() && buf.spine != [] && n >= 2
    requires avail < datlen && used < n && Seen(buf.segs, buf.lwd, |buf.segs|, used, avail)
    modifies buf`first, buf`last, buf`spine, buf`segs, buf.mem
    ensures buf.Linked() && buf.LastOk() && buf.Contents() == old(buf.Contents())
    ensures result == 0 || (result == -1 && datlen > MAX_CAP)
    ensures result == 0 ==>
              && buf.lwd < |buf.spine| && FirstWritable(buf.segs, buf.lwd) < |buf.segs|
              && SpaceOf(buf.segs, FirstWritable(buf.segs, buf.lwd), n) >= datlen
              && buf.segs == old(buf.segs) + [Seg([], 0, CapFor(datlen - avail), false)]
    ensures Confined(old(buf.mem.at), old(buf.spine), buf.mem.at, buf.spine)
  {
    hide Flat, Chain.View, Chain.InBounds, Seg.Good, EmptyFrom, Chained, Confined, Ptrs, CbState.Accounts;
    ghost var at0, s, cs := buf.mem.at, buf.spine, buf.segs;
    ChainedIn(at0, s, cs);
    ConfinedSame(at0, s);
    LinkedGood(buf);
    var tmp := buf.NewChain(datlen - avail);
    if tmp == NULL {
      return -1;
    }
    ghost var at1, v := buf.mem.at, buf.mem.at[tmp].View();
    HangLast(buf, tmp);
    ConfinedTrans(at0, s, at1, s + [tmp], buf.mem.at, buf.spine);
    LinkedGood(buf);
    var m := |cs| - buf.lwd;
    SliceOfMore(cs, v, buf.lwd, m);
    SpaceSame(cs, buf.segs, buf.lwd, m);
    SpaceStep(buf.segs, buf.lwd, m);
    SpaceFromWritable(buf.segs, buf.lwd, m + 1, used + 1, n, datlen);
    result := 0;
  }
}
