/** Moving bytes between two evbuffers by relinking their chains. */
module EvbufferMove {
  import opened Options
  import opened Segments
  import opened Memory
  import opened BufferCallbacks
  import opened Evbuffer

  /** Two different buffers in the same memory, with no chain in common. */
  ghost predicate Apart(a: EvBuffer, b: EvBuffer)
    reads a, b
  {
    a != b && a.mem == b.mem && a.cb != b.cb && Ptrs(a.spine) !! Ptrs(b.spine)
  }

  /** `last_with_datap` of `src`, as it has to be for a buffer that takes over the chains of `src`. */
  function Retarget(l: Link, src: EvBuffer, first: Link): Link {
    if l == FirstOf(src) then first else l
  }

  lemma ConfinedPair(at0: Store, s0: seq<Ptr>, t: seq<Ptr>, at1: Store, s1: seq<Ptr>)
    requires Confined(at0, s0, at1, s1) && Ptrs(s0) !! Ptrs(t) && forall p | p in t :: p in at0
    ensures Confined(at0, s0 + t, at1, s1 + t)
  {
    PtrsIn(s0);
    PtrsIn(t);
    assert Ptrs(s0 + t) == Ptrs(s0) + Ptrs(t);
    assert Ptrs(s1 + t) == Ptrs(s1) + Ptrs(t);
  }

  lemma JoinFacts(at: Store, s: seq<Ptr>, cs: seq<Seg>, t: seq<Ptr>, ds: seq<Seg>)
    requires Chained(at, s, cs) && Chained(at, t, ds) && Ptrs(s) !! Ptrs(t) && s != []
    ensures
      var e := s[|s| - 1];
      && e in at && Chained(at[e := at[e].(next := HeadOf(t))], s + t, cs + ds)
      && Confined(at, s + t, at[e := at[e].(next := HeadOf(t))], s + t)
  {
    hide Chained, Confined, Ptrs;
    ChainedJoin(at, s, cs, t, ds);
    ChainedIn(at, s, cs);
    ChainedIn(at, t, ds);
    ConfinedSet(at, s + t, s[|s| - 1], at[s[|s| - 1]].(next := HeadOf(t)));
  }

  /** ZERO_CHAIN */
  method ZeroChain(b: EvBuffer)
    modifies b`first, b`last, b`lastWithDatap, b`totalLen, b`spine, b`segs, b`lwd
    ensures b.Linked() && b.LastOk() && b.spine == [] && b.Contents() == [] && b.totalLen == 0
  {
    ChainedEmpty(b.mem.at);
    b.first, b.last, b.totalLen, b.lastWithDatap := NULL, NULL, 0, FirstOf(b);
    b.spine, b.segs, b.lwd := [], [], 0;
  }

  /** COPY_CHAIN, after the chains of `dst` have been freed. */
  method CopyChain(dst: EvBuffer, src: EvBuffer)
    requires dst != src && dst.mem == src.mem && src.Linked() && src.LastOk()
    modifies dst`first, dst`last, dst`lastWithDatap, dst`totalLen, dst`spine, dst`segs, dst`lwd
    ensures dst.Linked() && dst.LastOk()
    ensures dst.spine == src.spine && dst.segs == src.segs
  {
    hide Flat, Chained, Marked;
    dst.first := src.first;
    dst.lastWithDatap := Retarget(src.lastWithDatap, src, FirstOf(dst));
    dst.last := src.last;
    dst.totalLen := src.totalLen;
    dst.spine, dst.segs, dst.lwd := src.spine, src.segs, src.lwd;
  }

  /** The mark of the second list in the joined one. */
  lemma JoinedMark(src: EvBuffer, s: seq<Ptr>, t: seq<Ptr>, lwd: nat, link: Link, chp: Link)
    requires s != [] && lwd <= |t| && chp == NextOf(s[|s| - 1])
    requires link == if 0 < lwd then NextOf(t[lwd - 1]) else FirstOf(src)
    ensures Retarget(link, src, chp) == NextOf((s + t)[|s| + lwd - 1])
  {
  }

  /** APPEND_CHAIN */
  method AppendChain(dst: EvBuffer, src: EvBuffer)
    requires dst.Linked() && src.Linked() && src.LastOk() && Apart(dst, src)
    requires dst.totalLen > 0 && src.totalLen > 0
    modifies dst`first, dst`last, dst`lastWithDatap, dst`totalLen, dst`spine, dst`segs, dst`lwd, dst.mem
    ensures dst.Linked() && dst.LastOk()
    ensures dst.Contents() == old(dst.Contents()) + src.Contents()
    ensures Confined(old(dst.mem.at), old(dst.spine + src.spine), dst.mem.at, dst.spine)
  {
    hide Flat, Chain.View, Chain.InBounds, Seg.Good, EmptyFrom, Chained, Confined, Ptrs, Marked, Retarget;
    var mem := dst.mem;
    ghost var t, ds := src.spine, src.segs;
    ChainedIn(mem.at, t, ds);
    NonemptyMark(dst.segs, dst.lwd);
    NonemptyMark(ds, src.lwd);
    var chp := dst.FreeTrailing();
    ConfinedElsewhere(old(mem.at), old(dst.spine), mem.at, dst.spine, t, ds);
    ConfinedPair(old(mem.at), old(dst.spine), t, mem.at, dst.spine);
    ghost var at1, s := mem.at, dst.spine;
    LinkBehind(dst, src, chp);
    ConfinedTrans(old(mem.at), old(dst.spine) + t, at1, s + t, mem.at, s + t);
  }

  /** The end of APPEND_CHAIN, where `dst` has no empty chains behind its data. */
  method LinkBehind(dst: EvBuffer, src: EvBuffer, chp: Link)
    requires dst.spine != [] && |dst.spine| == |dst.segs| && Chained(dst.mem.at, dst.spine, dst.segs)
    requires dst.first == HeadOf(dst.spine) && dst.totalLen == |dst.Contents()|
             && chp == NextOf(dst.spine[|dst.spine| - 1])
    requires src.Linked() && src.LastOk() && Apart(dst, src) && src.totalLen > 0
    modifies dst`first, dst`last, dst`lastWithDatap, dst`totalLen, dst`spine, dst`segs, dst`lwd, dst.mem
    ensures dst.Linked() && dst.LastOk()
    ensures dst.Contents() == old(dst.Contents()) + src.Contents() && dst.spine == old(dst.spine) + src.spine
    ensures Confined(old(dst.mem.at), dst.spine, dst.mem.at, dst.spine)
  {
    hide Flat, Chain.View, Chain.InBounds, Seg.Good, EmptyFrom, Chained, Confined, Ptrs, Marked, Retarget;
    ghost var s, cs, t, ds := dst.spine, dst.segs, src.spine, src.segs;
    MarkedJoin(cs, ds, src.lwd);
    JoinFacts(dst.mem.at, s, cs, t, ds);
    dst.Put(chp, src.first);
    JoinedMark(src, s, t, src.lwd, src.lastWithDatap, chp);
    dst.lastWithDatap := Retarget(src.lastWithDatap, src, chp);
    dst.last := src.last;
    dst.totalLen := dst.totalLen + src.totalLen;
    dst.spine, dst.segs, dst.lwd := s + t, cs + ds, |s| + src.lwd;
  }

  /** PREPEND_CHAIN */
  method PrependChain(dst: EvBuffer, src: EvBuffer)
    requires dst.Linked() && dst.LastOk() && src.Linked() && src.LastOk() && Apart(dst, src)
    requires dst.totalLen > 0 && src.totalLen > 0
    modifies dst`first, dst`lastWithDatap, dst`totalLen, dst`spine, dst`segs, dst`lwd, dst.mem
    ensures dst.Linked() && dst.LastOk()
    ensures dst.Contents() == src.Contents() + old(dst.Contents())
    ensures Confined(old(dst.mem.at), old(dst.spine + src.spine), dst.mem.at, dst.spine)
  {
    hide Flat, Chain.View, Chain.InBounds, Seg.Good, EmptyFrom, Chained, Confined, Ptrs;
    var mem := dst.mem;
    ghost var s, cs, t, ds := src.spine, src.segs, dst.spine, dst.segs;
    NonemptyMark(cs, src.lwd);
    NonemptyMark(ds, dst.lwd);
    MarkedJoin(cs, ds, dst.lwd);
    JoinFacts(mem.at, s, cs, t, ds);
    SwapSides(mem.at, s, t);
    mem.at := mem.at[src.last := mem.at[src.last].(next := dst.first)];
    dst.first := src.first;
    dst.totalLen := dst.totalLen + src.totalLen;
    JoinedLink(mem.at, s, cs, t, ds, dst.lwd);
    var ofSrc := Retarget(src.lastWithDatap, src, FirstOf(dst));
    dst.lastWithDatap :=
      if dst.Target(dst.lastWithDatap) == NULL then ofSrc
      else if dst.lastWithDatap == FirstOf(dst) then NextOf(src.last)
      else dst.lastWithDatap;
    dst.spine, dst.segs, dst.lwd := s + t, cs + ds, |s| + dst.lwd;
  }

  /** In the joined list, the links to the chains of the back part lead to the same chains as before. */
  lemma JoinedLink(at: Store, s: seq<Ptr>, cs: seq<Seg>, t: seq<Ptr>, ds: seq<Seg>, k: nat)
    requires |s| == |cs| && s != [] && k < |t| && Chained(at, s + t, cs + ds)
    ensures s[0] != NULL && HeadOf(s + t) == s[0]
    ensures if k > 0 then t[k - 1] in at && at[t[k - 1]].next == t[k] != NULL
            else s[|s| - 1] in at && at[s[|s| - 1]].next == t[0] != NULL
  {
    hide Chained;
    ChainedAt(at, s + t, cs + ds, 0);
    ChainedAt(at, s + t, cs + ds, |s| + k - 1);
    ChainedAt(at, s + t, cs + ds, |s| + k);
    assert (s + t)[|s| + k - 1] == if k > 0 then t[k - 1] else s[|s| - 1];
    assert (s + t)[|s| + k..][0] == t[k];
  }

  lemma SwapSides(at: Store, s: seq<Ptr>, t: seq<Ptr>)
    ensures forall at1, s1 | Confined(at, s + t, at1, s1) :: Confined(at, t + s, at1, s1)
  {
    PtrsIn(s + t);
    PtrsIn(t + s);
    assert Ptrs(s + t) == Ptrs(t + s);
  }

  /** Empties `inbuf`, whose chains now belong to `outbuf`, and reports the change on both sides. */
  method FinishMove(outbuf: EvBuffer, inbuf: EvBuffer, outTotal: nat)
    requires outbuf != inbuf && outbuf.mem == inbuf.mem && outbuf.cb != inbuf.cb
    requires outbuf.Linked() && outbuf.LastOk() && outbuf.totalLen == outTotal + inbuf.totalLen <= SIZE_MAX
    requires outbuf.cb.Accounts(outTotal) && inbuf.cb.Accounts(inbuf.totalLen)
    modifies inbuf, outbuf.cb, inbuf.cb
    ensures outbuf.Valid() && inbuf.Valid() && Apart(outbuf, inbuf)
    ensures inbuf.spine == [] && inbuf.Contents() == []
    ensures outbuf.SameSettings() && inbuf.SameSettings()
    ensures outbuf.cb.Reported(old(inbuf.totalLen), 0, outbuf.totalLen)
    ensures inbuf.cb.Reported(0, old(inbuf.totalLen), inbuf.totalLen)
  {
    hide Flat, Chained, Marked, Ptrs, CbState.Accounts, Chain.View, Chain.InBounds, Seg.Good, EmptyFrom, Confined,
         ReportedOver;
    var inTotal := inbuf.totalLen;
    ZeroChain(inbuf);
    NoPtrs();
    ReportMove(outbuf.cb, inbuf.cb, outTotal, inTotal);
  }

  /** `n` bytes, all there were, have gone from one buffer to another that had `total`. */
  method ReportMove(outCb: CbState, inCb: CbState, total: nat, n: nat)
    requires outCb != inCb && outCb.Accounts(total) && inCb.Accounts(n) && total + n <= SIZE_MAX
    modifies outCb, inCb
    ensures outCb.Accounts(total + n) && inCb.Accounts(0)
    ensures outCb.callbacks == old(outCb.callbacks) && outCb.deferredCbs == old(outCb.deferredCbs)
    ensures inCb.callbacks == old(inCb.callbacks) && inCb.deferredCbs == old(inCb.deferredCbs)
    ensures outCb.Reported(n, 0, total + n) && inCb.Reported(0, n, 0)
  {
    hide CbState.Accounts, ReportedOver;
    inCb.ReportShrunk(n, 0, n);
    outCb.ReportGrown(n, total + n, total);
  }

  /** evbuffer_add_buffer: all bytes of `inbuf` go behind those of `outbuf`. */
  method AddBuffer(outbuf: EvBuffer, inbuf: EvBuffer) returns (result: int)
    requires outbuf.Valid() && inbuf.Valid() && (outbuf == inbuf || Apart(outbuf, inbuf))
    requires outbuf != inbuf ==> outbuf.totalLen + inbuf.totalLen <= SIZE_MAX
    modifies outbuf, inbuf, outbuf.mem, outbuf.cb, inbuf.cb
    ensures outbuf.Valid() && inbuf.Valid() && (outbuf == inbuf || Apart(outbuf, inbuf))
    ensures outbuf.SameSettings() && inbuf.SameSettings()
    ensures
      var refused := old(inbuf.totalLen) != 0 && outbuf != inbuf && (outbuf.freezeEnd || inbuf.freezeStart);
      result == if refused then -1 else 0
    ensures if result == 0 && outbuf != inbuf
            then outbuf.Contents() == old(outbuf.Contents()) + old(inbuf.Contents()) && inbuf.Contents() == []
            else outbuf.Contents() == old(outbuf.Contents()) && inbuf.Contents() == old(inbuf.Contents())
    ensures if result == -1 || outbuf == inbuf || old(inbuf.totalLen) == 0
            then outbuf.cb.Untouched() && inbuf.cb.Untouched()
            else
              && outbuf.cb.Reported(old(inbuf.totalLen), 0, outbuf.totalLen)
              && inbuf.cb.Reported(0, old(inbuf.totalLen), inbuf.totalLen)
    ensures outbuf != inbuf ==>
              Confined(old(outbuf.mem.at), old(outbuf.spine + inbuf.spine), outbuf.mem.at, outbuf.spine + inbuf.spine)
  {
    hide Flat, Chain.View, Chain.InBounds, Seg.Good, EmptyFrom, Chained, Confined, Ptrs, Marked, CbState.Accounts,
         ReportedOver;
    ChainedIn(outbuf.mem.at, outbuf.spine, outbuf.segs);
    ChainedIn(inbuf.mem.at, inbuf.spine, inbuf.segs);
    ConfinedSame(outbuf.mem.at, outbuf.spine + inbuf.spine);
    var inTotal, outTotal := inbuf.totalLen, outbuf.totalLen;
    if inTotal == 0 || outbuf == inbuf {
      return 0;
    }
    if outbuf.freezeEnd || inbuf.freezeStart {
      return -1;
    }
    if outTotal == 0 {
      TakeOver(outbuf, inbuf);
    } else {
      AppendChain(outbuf, inbuf);
    }
    assert outbuf.Contents() == old(outbuf.Contents()) + old(inbuf.Contents());
    FinishMove(outbuf, inbuf, outTotal);
    assert outbuf.spine + inbuf.spine == outbuf.spine;
    result := 0;
  }

  /** The chains of an `outbuf` without data are freed, and those of `inbuf` take their place. */
  method TakeOver(outbuf: EvBuffer, inbuf: EvBuffer)
    requires outbuf.Linked() && inbuf.Linked() && inbuf.LastOk() && Apart(outbuf, inbuf)
    modifies outbuf`first, outbuf`last, outbuf`lastWithDatap, outbuf`totalLen, outbuf`spine, outbuf`segs, outbuf`lwd,
             outbuf.mem
    ensures outbuf.Linked() && outbuf.LastOk()
    ensures outbuf.Contents() == inbuf.Contents()
    ensures Confined(old(outbuf.mem.at), old(outbuf.spine + inbuf.spine), outbuf.mem.at, outbuf.spine)
  {
    hide Flat, Chain.View, Chain.InBounds, Seg.Good, EmptyFrom, Chained, Confined, Ptrs, Marked;
    ghost var t, ds := inbuf.spine, inbuf.segs;
    ChainedIn(outbuf.mem.at, t, ds);
    outbuf.FreeEverything();
    ConfinedElsewhere(old(outbuf.mem.at), old(outbuf.spine), outbuf.mem.at, [], t, ds);
    ConfinedPair(old(outbuf.mem.at), old(outbuf.spine), t, outbuf.mem.at, []);
    assert [] + t == t;
    CopyChain(outbuf, inbuf);
  }

  /** evbuffer_prepend_buffer: all bytes of `inbuf` go in front of those of `outbuf`. */
  method PrependBuffer(outbuf: EvBuffer, inbuf: EvBuffer) returns (result: int)
    requires outbuf.Valid() && inbuf.Valid() && (outbuf == inbuf || Apart(outbuf, inbuf))
    requires outbuf != inbuf ==> outbuf.totalLen + inbuf.totalLen <= SIZE_MAX
    modifies outbuf, inbuf, outbuf.mem, outbuf.cb, inbuf.cb
    ensures outbuf.Valid() && inbuf.Valid() && (outbuf == inbuf || Apart(outbuf, inbuf))
    ensures outbuf.SameSettings() && inbuf.SameSettings()
    ensures
      var refused := old(inbuf.totalLen) != 0 && outbuf != inbuf && (outbuf.freezeStart || inbuf.freezeStart);
      result == if refused then -1 else 0
    ensures if result == 0 && outbuf != inbuf
            then outbuf.Contents() == old(inbuf.Contents()) + old(outbuf.Contents()) && inbuf.Contents() == []
            else outbuf.Contents() == old(outbuf.Contents()) && inbuf.Contents() == old(inbuf.Contents())
    ensures if result == -1 || outbuf == inbuf || old(inbuf.totalLen) == 0
            then outbuf.cb.Untouched() && inbuf.cb.Untouched()
            else
              && outbuf.cb.Reported(old(inbuf.totalLen), 0, outbuf.totalLen)
              && inbuf.cb.Reported(0, old(inbuf.totalLen), inbuf.totalLen)
    ensures outbuf != inbuf ==>
              Confined(old(outbuf.mem.at), old(outbuf.spine + inbuf.spine), outbuf.mem.at, outbuf.spine + inbuf.spine)
  {
    hide Flat, Chain.View, Chain.InBounds, Seg.Good, EmptyFrom, Chained, Confined, Ptrs, Marked, CbState.Accounts,
         ReportedOver;
    ChainedIn(outbuf.mem.at, outbuf.spine, outbuf.segs);
    ChainedIn(inbuf.mem.at, inbuf.spine, inbuf.segs);
    ConfinedSame(outbuf.mem.at, outbuf.spine + inbuf.spine);
    var inTotal, outTotal := inbuf.totalLen, outbuf.totalLen;
    if inTotal == 0 || outbuf == inbuf {
      return 0;
    }
    if outbuf.freezeStart || inbuf.freezeStart {
      return -1;
    }
    if outTotal == 0 {
      TakeOver(outbuf, inbuf);
    } else {
      PrependChain(outbuf, inbuf);
    }
    assert outbuf.Contents() == old(inbuf.Contents()) + old(outbuf.Contents());
    FinishMove(outbuf, inbuf, outTotal);
    assert outbuf.spine + inbuf.spine == outbuf.spine;
    result := 0;
  }

  /** Conversion of a size to the 32-bit `int` that the function returns. */
  function Int32(n: nat): (r: int)
    ensures -0x8000_0000 <= r < 0x8000_0000 && (n - r) % 0x1_0000_0000 == 0
    ensures n < 0x8000_0000 ==> r == n
  {
    var w := n % 0x1_0000_0000;
    if w >= 0x8000_0000 then w - 0x1_0000_0000 else w
  }

  /**
   * advance_last_with_data: the mark is at a chain with data, or at the first chain, and moves on
   * to the last chain with data. Returns how many chains are behind the old mark.
   */
  method AdvanceLastWithData(buf: EvBuffer) returns (n: nat)
    requires |buf.spine| == |buf.segs| && Chained(buf.mem.at, buf.spine, buf.segs)
    requires buf.first == HeadOf(buf.spine) && buf.lastWithDatap == buf.LinkAt(buf.lwd)
    requires if buf.spine == [] then buf.lwd == 0
             else buf.lwd < |buf.spine| && (buf.lwd > 0 ==> buf.segs[buf.lwd].data != [])
    modifies buf`lastWithDatap, buf`lwd
    ensures Marked(buf.segs, buf.lwd) && buf.lastWithDatap == buf.LinkAt(buf.lwd)
    ensures n == if buf.spine == [] then 0 else |buf.spine| - 1 - old(buf.lwd)
  {
    hide Flat, Chain.View, Chain.InBounds, Seg.Good, Chained;
    n := 0;
    var chainp := buf.lastWithDatap;
    ghost var j := buf.lwd;
    LinkTarget(buf, j);
    if buf.Target(chainp) == NULL {
      return;
    }
    while buf.mem.at[buf.Target(chainp)].next != NULL
      invariant buf.lwd <= j < |buf.spine| && chainp == buf.LinkAt(j)
      invariant buf.Live(chainp) && buf.Target(chainp) == buf.spine[j] && buf.spine[j] in buf.mem.at
      invariant buf.mem.at[buf.spine[j]].next == HeadOf(buf.spine[j + 1..])
      invariant buf.lastWithDatap == buf.LinkAt(buf.lwd)
      invariant buf.lwd > 0 ==> buf.segs[buf.lwd].data != []
      invariant forall i {:trigger buf.segs[i]} | buf.lwd < i <= j :: buf.segs[i].data == []
      invariant n == j - old(buf.lwd)
      decreases |buf.spine| - j
    {
      chainp := NextOf(buf.Target(chainp));
      j := j + 1;
      LinkTarget(buf, j);
      if buf.mem.at[buf.Target(chainp)].off != 0 {
        buf.lastWithDatap := chainp;
        buf.lwd := j;
      }
      n := n + 1;
    }
    LinkTarget(buf, j + 1);
  }

  /** EvBuffer.TargetAt, without asking for the mark and the length to be right. */
  lemma LinkTarget(buf: EvBuffer, k: nat)
    requires |buf.spine| == |buf.segs| && Chained(buf.mem.at, buf.spine, buf.segs)
    requires buf.first == HeadOf(buf.spine) && k <= |buf.spine|
    ensures buf.Live(buf.LinkAt(k)) && buf.Target(buf.LinkAt(k)) == HeadOf(buf.spine[k..])
    ensures k < |buf.spine| ==>
              && HeadOf(buf.spine[k..]) == buf.spine[k] != NULL && buf.spine[k] in buf.mem.at
              && buf.mem.at[buf.spine[k]].off == |buf.segs[k].data|
              && buf.mem.at[buf.spine[k]].next == HeadOf(buf.spine[k + 1..])
    ensures k == |buf.spine| ==> HeadOf(buf.spine[k..]) == NULL
  {
    hide Chained;
    if k > 0 {
      ChainedAt(buf.mem.at, buf.spine, buf.segs, k - 1);
    }
    if k < |buf.spine| {
      ChainedAt(buf.mem.at, buf.spine, buf.segs, k);
    }
  }

  /**
   * The first loop of evbuffer_remove_buffer: which chains of `src` can go as a whole. It stops in
   * front of a chain with bytes to stay, at the latest at the last one with data.
   */
  method WholeChains(src: EvBuffer, datlen: nat)
    returns (chain: Ptr, previous: Ptr, nread: nat, left: nat, ghost j: nat)
    requires src.Linked() && datlen < src.totalLen
    modifies src`lastWithDatap
    ensures j <= src.lwd < |src.spine| && chain == src.spine[j] && (chain == src.first <==> j == 0)
    ensures previous == src.spine[if j == 0 then 0 else j - 1]
    ensures nread == |Flat(src.segs[..j])| && datlen == nread + left && left < |src.segs[j].data|
    ensures src.lastWithDatap == if 0 < src.lwd == j then FirstOf(src) else src.LinkAt(src.lwd)
  {
    hide Flat, Chain.View, Chain.InBounds, Seg.Good, EmptyFrom, Chained, Confined, Ptrs, CbState.Accounts;
    ghost var spine, segs, lwd := src.spine, src.segs, src.lwd;
    if spine == [] {
      NoSegments();
    }
    NothingPassed(segs);
    chain, previous, nread, left, j := src.first, src.first, 0, datlen, 0;
    ChainedAt(src.mem.at, spine, segs, 0);
    WalkStep(segs, lwd, 0, datlen);
    while src.mem.at[chain].off <= left
      invariant j <= lwd < |spine| && chain == spine[j] && chain in src.mem.at
      invariant chain == src.first <==> j == 0
      invariant previous == spine[if j == 0 then 0 else j - 1]
      invariant src.mem.at[chain].off == |segs[j].data| && src.mem.at[chain].next == HeadOf(spine[j + 1..])
      invariant nread == |Flat(segs[..j])| && datlen == nread + left
      invariant left >= |segs[j].data| ==> j < lwd
      invariant src.lastWithDatap == if 0 < lwd == j then FirstOf(src) else src.LinkAt(lwd)
      decreases lwd - j
    {
      WalkStep(segs, lwd, j, datlen);
      OneOfTwo(src.mem.at, spine, segs, j, lwd);
      // not all bytes of src are asked for, so this is not the last chain with data
      assert chain != src.Target(src.lastWithDatap);
      nread := nread + src.mem.at[chain].off;
      left := left - src.mem.at[chain].off;
      previous := chain;
      if src.lastWithDatap == NextOf(chain) {
        src.lastWithDatap := FirstOf(src);
      }
      chain, j := src.mem.at[chain].next, j + 1;
      ChainedAt(src.mem.at, spine, segs, j);
      WalkStep(segs, lwd, j, datlen);
    }
  }

  lemma OneOfTwo(at: Store, s: seq<Ptr>, cs: seq<Seg>, j: nat, k: nat)
    requires j < k < |s| && Chained(at, s, cs)
    ensures s[k - 1] == s[j] <==> k - 1 == j
    ensures s[k - 1] in at && at[s[k - 1]].next == s[k] && s[k] != s[j]
    ensures HeadOf(s) != s[j + 1]
  {
    hide Bodies, Links, Distinct;
    ChainedAt(at, s, cs, k - 1);
    DistinctPair(s, j, k);
    DistinctPair(s, 0, j + 1);
    if j < k - 1 {
      DistinctPair(s, j, k - 1);
    }
  }

  lemma DistinctPair(s: seq<Ptr>, i: nat, j: nat)
    requires Distinct(s) && i < j < |s|
    ensures s[i] != s[j]
  {
  }

  /** The first `j` chains of `t` behind the chains of `s`, the others on their own. */
  lemma SpliceFacts(at: Store, s: seq<Ptr>, cs: seq<Seg>, t: seq<Ptr>, ds: seq<Seg>, j: nat)
    requires |s| == |cs| && |t| == |ds| && Chained(at, s, cs) && Chained(at, t, ds) && Ptrs(s) !! Ptrs(t)
             && 0 < j <= |t|
    ensures t[j - 1] in at && (s != [] ==> s[|s| - 1] in at && s[|s| - 1] != t[j - 1])
    ensures
      var linked := if s == [] then at else at[s[|s| - 1] := at[s[|s| - 1]].(next := t[0])];
      var cut := linked[t[j - 1] := linked[t[j - 1]].(next := NULL)];
      && Chained(cut, s + t[..j], cs + ds[..j]) && Chained(cut, t[j..], ds[j..])
      && Ptrs(s + t[..j]) !! Ptrs(t[j..])
      && Confined(at, s + t, cut, (s + t[..j]) + t[j..])
  {
    hide Chained, Confined, Ptrs, Chain.View;
    PtrsIn(s);
    PtrsIn(t);
    PtrsIn(t[..j]);
    PtrsIn(t[j..]);
    PtrsIn(s + t[..j]);
    ChainedIn(at, s, cs);
    ChainedIn(at, t, ds);
    ChainedDisjoint(at, t, ds, j);
    var p := t[j - 1];
    assert t[..j][j - 1] == p;
    var c := at[p := at[p].(next := NULL)];
    ChainedCut(at, t, ds, j);
    ChainedDrop(at, t, ds, j);
    ChainedFrame(at, c, t[j..], ds[j..]);
    ChainedFrame(at, c, s, cs);
    ConfinedSet(at, s + t, p, at[p].(next := NULL));
    assert (s + t[..j]) + t[j..] == s + t by {
      assert t[..j] + t[j..] == t;
    }
    if s == [] {
      assert s + t[..j] == t[..j] && cs + ds[..j] == ds[..j];
    } else {
      var e := s[|s| - 1];
      assert e in s && HeadOf(t[..j]) == t[0];
      ChainedJoin(c, s, cs, t[..j], ds[..j]);
      var cut := c[e := c[e].(next := t[0])];
      assert cut == at[e := at[e].(next := t[0])][p := at[p].(next := NULL)];
      ChainedFrame(c, cut, t[j..], ds[j..]);
      ConfinedSet(c, s + t, e, c[e].(next := t[0]));
      ConfinedTrans(at, s + t, c, s + t, cut, s + t);
    }
  }

  /**
   * Moves the first `j` chains of `src` behind the data of `dst`. The chains are relinked and
   * `dst` finds its new mark, but the totals of both buffers are left for the caller.
   */
  method MoveChains(src: EvBuffer, dst: EvBuffer, chain: Ptr, previous: Ptr, ghost j: nat)
    requires Apart(src, dst) && dst.Linked() && |src.spine| == |src.segs| && Chained(src.mem.at, src.spine, src.segs)
    requires src.first == HeadOf(src.spine)
    requires 0 < j < |src.spine| && chain == src.spine[j] && previous == src.spine[j - 1]
    modifies src`first, src`spine, src`segs
    modifies dst`first, dst`last, dst`lastWithDatap, dst`spine, dst`segs, dst`lwd, dst.mem
    ensures |src.spine| == |src.segs| && Chained(src.mem.at, src.spine, src.segs) && src.first == HeadOf(src.spine)
    ensures src.spine == old(src.spine[j..]) && src.segs == old(src.segs[j..])
    ensures |dst.spine| == |dst.segs| && Chained(dst.mem.at, dst.spine, dst.segs) && dst.first == HeadOf(dst.spine)
    ensures Marked(dst.segs, dst.lwd) && dst.lastWithDatap == dst.LinkAt(dst.lwd) && dst.LastOk()
    ensures dst.Contents() == old(dst.Contents()) + Flat(old(src.segs[..j]))
    ensures Apart(src, dst)
    ensures Confined(old(dst.mem.at), old(dst.spine + src.spine), dst.mem.at, dst.spine + src.spine)
  {
    hide Flat, Chain.View, Chain.InBounds, Seg.Good, EmptyFrom, Chained, Confined, Ptrs, CbState.Accounts;
    ghost var at0, s0, t, ds := dst.mem.at, dst.spine, src.spine, src.segs;
    ChainedIn(at0, t, ds);
    KeepFlat(dst.segs, dst.lwd);
    var chp := dst.FreeTrailing();
    ConfinedElsewhere(at0, s0, dst.mem.at, dst.spine, t, ds);
    ConfinedPair(at0, s0, t, dst.mem.at, dst.spine);
    ghost var at1, s, cs := dst.mem.at, dst.spine, dst.segs;
    FlatPlus(cs, ds[..j]);
    Splice(src, dst, chp, chain, previous, j);
    ConfinedTrans(at0, s0 + t, at1, s + t, dst.mem.at, dst.spine + src.spine);
    KeptMark(cs, dst.lwd, ds[..j]);
    var n := AdvanceLastWithData(dst);
  }

  /** Where the mark is when the chains behind it are gone and others have come. */
  lemma KeptMark(cs: seq<Seg>, lwd: nat, more: seq<Seg>)
    requires Marked(cs, lwd) && (cs == [] || lwd == |cs| - 1)
    ensures cs + more == [] ==> lwd == 0
    ensures cs + more != [] ==> lwd < |cs + more| && (lwd > 0 ==> (cs + more)[lwd].data != [])
  {
  }

  /** Hangs the first `j` chains of `src` where `chp` points, the end of `dst`. */
  method Splice(src: EvBuffer, dst: EvBuffer, chp: Link, chain: Ptr, previous: Ptr, ghost j: nat)
    requires Apart(src, dst)
    requires |dst.spine| == |dst.segs| && Chained(dst.mem.at, dst.spine, dst.segs) && dst.first == HeadOf(dst.spine)
    requires |src.spine| == |src.segs| && Chained(src.mem.at, src.spine, src.segs) && src.first == HeadOf(src.spine)
    requires chp == dst.LinkAt(|dst.spine|)
    requires 0 < j < |src.spine| && chain == src.spine[j] && previous == src.spine[j - 1]
    modifies src`first, src`spine, src`segs, dst`first, dst`last, dst`spine, dst`segs, dst.mem
    ensures |src.spine| == |src.segs| && Chained(src.mem.at, src.spine, src.segs) && src.first == HeadOf(src.spine)
    ensures src.spine == old(src.spine[j..]) && src.segs == old(src.segs[j..])
    ensures |dst.spine| == |dst.segs| && Chained(dst.mem.at, dst.spine, dst.segs)
    ensures dst.first == HeadOf(dst.spine) && dst.LastOk()
    ensures dst.spine == old(dst.spine + src.spine[..j]) && dst.segs == old(dst.segs + src.segs[..j])
    ensures Apart(src, dst)
    ensures Confined(old(dst.mem.at), old(dst.spine + src.spine), dst.mem.at, dst.spine + src.spine)
  {
    hide Flat, Chain.View, Chain.InBounds, Seg.Good, EmptyFrom, Chained, Confined, Ptrs, CbState.Accounts;
    var mem := dst.mem;
    ghost var s, cs, t, ds := dst.spine, dst.segs, src.spine, src.segs;
    SpliceFacts(mem.at, s, cs, t, ds, j);
    ChainedNull(mem.at, s, cs);
    if dst.first == NULL {
      dst.first := src.first;
    } else {
      dst.Put(chp, src.first);
    }
    dst.last := previous;
    mem.at := mem.at[previous := mem.at[previous].(next := NULL)];
    src.first := chain;
    dst.spine, dst.segs := s + t[..j], cs + ds[..j];
    src.spine, src.segs := t[j..], ds[j..];
  }

  /** The first `left` bytes of the first chain of `src` are copied to `dst` and dropped. */
  method CopyRest(src: EvBuffer, dst: EvBuffer, chain: Ptr, left: nat)
    requires Apart(dst, src) && dst.Valid() && !dst.freezeEnd
    requires |src.spine| == |src.segs| && Chained(src.mem.at, src.spine, src.segs)
    requires src.spine != [] && chain == src.spine[0] && left < |src.segs[0].data| && left <= SIZE_MAX - dst.totalLen
    modifies dst, dst.mem, dst.cb, src`segs
    ensures dst.Valid() && dst.SameSettings() && Apart(dst, src)
    ensures dst.Contents() == old(dst.Contents()) + old(src.segs[0].data)[..left]
    ensures var v := old(src.segs[0]);
      src.segs == old(src.segs)[0 := v.(data := v.data[left..], misalign := v.misalign + left)]
    ensures Chained(src.mem.at, src.spine, src.segs)
    ensures Confined(old(dst.mem.at), old(dst.spine) + src.spine, dst.mem.at, dst.spine + src.spine)
    ensures dst.cb.Reported(left, 0, dst.totalLen)
  {
    hide Flat, Chain.View, Chain.InBounds, Seg.Good, EmptyFrom, Chained, Confined, Ptrs, CbState.Accounts, Marked,
         ReportedOver, HeadOf;
    var mem := dst.mem;
    ghost var at0, s0, t, ds := mem.at, dst.spine, src.spine, src.segs;
    ChainedIn(mem.at, t, ds);
    ChainedAt(mem.at, t, ds, 0);
    CapBound(ds[0]);
    var r := dst.Add(mem.at[chain].Bytes(0, left));
    ConfinedElsewhere(at0, s0, mem.at, dst.spine, t, ds);
    ConfinedPair(at0, s0, t, mem.at, dst.spine);
    ghost var at1 := mem.at;
    ChainedAt(mem.at, t, ds, 0);
    var c := mem.at[chain].DroppedFront(left);
    RewriteHead(at1, dst.spine, dst.segs, t, ds, c);
    mem.at := mem.at[chain := c];
    src.segs := ds[0 := c.View()];
    ConfinedTrans(at0, s0 + t, at1, dst.spine + t, mem.at, dst.spine + t);
  }

  /** Rewriting the first chain of one list next to another list. */
  lemma RewriteHead(at: Store, s: seq<Ptr>, cs: seq<Seg>, t: seq<Ptr>, ds: seq<Seg>, c: Chain)
    requires |s| == |cs| && |t| == |ds| && Chained(at, s, cs) && Chained(at, t, ds) && Ptrs(s) !! Ptrs(t) && t != []
    requires c.InBounds() && c.View().Good() && t[0] in at && c.next == at[t[0]].next
    ensures Chained(at[t[0] := c], t, ds[0 := c.View()]) && Chained(at[t[0] := c], s, cs)
    ensures Confined(at, s + t, at[t[0] := c], s + t)
  {
    hide Chained, Confined, Ptrs, Chain.View, Chain.InBounds;
    PtrsIn(s);
    PtrsIn(t);
    ChainedIn(at, s, cs);
    ChainedIn(at, t, ds);
    ChainedAt(at, t, ds, 0);
    ChainedSet(at, t, ds, 0, c);
    ChainedFrame(at, at[t[0] := c], s, cs);
    ConfinedSet(at, s + t, t[0], c);
  }

  /** Moves `j` whole chains and `left` bytes of the next one from `src` to `dst`. */
  method TakePrefix(src: EvBuffer, dst: EvBuffer, chain: Ptr, previous: Ptr, nread: nat, left: nat, ghost j: nat)
    requires Apart(dst, src) && dst.Valid() && !dst.freezeEnd
    requires |src.spine| == |src.segs| && Chained(src.mem.at, src.spine, src.segs)
    requires src.first == HeadOf(src.spine) && src.LastOk()
    requires j < |src.spine| && chain == src.spine[j] && previous == src.spine[if j == 0 then 0 else j - 1]
    requires chain == src.first <==> j == 0
    requires nread == |Flat(src.segs[..j])| && left < |src.segs[j].data| && dst.totalLen + nread + left <= SIZE_MAX
    modifies src`first, src`spine, src`segs, dst, dst.mem, dst.cb
    ensures dst.Valid() && dst.SameSettings() && Apart(dst, src)
    ensures dst.Contents() == old(dst.Contents()) + (Flat(old(src.segs[..j])) + old(src.segs[j].data)[..left])
    ensures src.spine == old(src.spine[j..])
    ensures var v := old(src.segs[j]);
      src.segs == old(src.segs[j..])[0 := v.(data := v.data[left..], misalign := v.misalign + left)]
    ensures Chained(src.mem.at, src.spine, src.segs) && src.first == HeadOf(src.spine) && src.LastOk()
    ensures Confined(old(dst.mem.at), old(dst.spine + src.spine), dst.mem.at, dst.spine + src.spine)
    ensures dst.cb.Reported(nread + left, 0, dst.totalLen)
  {
    hide Flat, Chain.View, Chain.InBounds, Seg.Good, EmptyFrom, Chained, Confined, Ptrs, CbState.Accounts, Marked,
         ReportedOver;
    ghost var at0, segs, was := dst.mem.at, src.segs, dst.cb.State();
    MoveWhole(src, dst, chain, previous, nread, j);
    ghost var at1, s1, mid := dst.mem.at, dst.spine, dst.cb.State();
    CopyRest(src, dst, chain, left);
    CountedBefore(dst.cb.callbacks, dst.cb.deferredCbs, was, mid, dst.cb.State(), nread, left, dst.totalLen);
    ConfinedTrans(at0, old(dst.spine + src.spine), at1, s1 + src.spine, dst.mem.at, dst.spine + src.spine);
    Assoc(old(dst.Contents()), Flat(segs[..j]), segs[j].data[..left]);
  }

  /** evbuffer_remove_buffer, when bytes remain in `src`. */
  method RemoveSome(src: EvBuffer, dst: EvBuffer, datlen: nat) returns (nread: nat)
    requires src.Valid() && dst.Valid() && Apart(dst, src) && !dst.freezeEnd
    requires dst.totalLen + src.totalLen <= SIZE_MAX && datlen < src.totalLen
    modifies src, dst, src.mem, src.cb, dst.cb
    ensures src.Valid() && dst.Valid() && Apart(dst, src) && src.SameSettings() && dst.SameSettings()
    ensures nread == datlen
    ensures dst.Contents() == old(dst.Contents()) + old(src.Contents())[..datlen]
    ensures src.Contents() == old(src.Contents())[datlen..]
    ensures Confined(old(dst.mem.at), old(dst.spine + src.spine), dst.mem.at, dst.spine + src.spine)
    ensures dst.cb.Reported(datlen, 0, dst.totalLen)
    ensures src.cb.calls == old(src.cb.calls) && src.cb.scheduled == old(src.cb.scheduled)
    ensures src.cb.nAdd == old(src.cb.nAdd) && src.cb.nDel == (old(src.cb.nDel) + datlen) % WRAP
  {
    hide Flat, Chain.View, Chain.InBounds, Seg.Good, EmptyFrom, Chained, Confined, Ptrs, CbState.Accounts, Marked,
         HeadOf, ReportedOver;
    ghost var segs, lwd := src.segs, src.lwd;
    var chain, previous, whole, left, j := WholeChains(src, datlen);
    nread := whole;
    ghost var v := segs[j].(data := segs[j].data[left..], misalign := segs[j].misalign + left);
    DropFirst(segs, lwd, j, left, v);
    TakePrefix(src, dst, chain, previous, nread, left, j);
    src.lwd := lwd - j;
    nread := nread + left;
    src.totalLen := src.totalLen - nread;
    src.cb.Shrank(nread, old(src.totalLen));
  }

  /** The relinking part of evbuffer_remove_buffer, which is skipped if no whole chain goes. */
  method MoveWhole(src: EvBuffer, dst: EvBuffer, chain: Ptr, previous: Ptr, nread: nat, ghost j: nat)
    requires Apart(dst, src) && dst.Valid() && |src.spine| == |src.segs| && Chained(src.mem.at, src.spine, src.segs)
    requires src.first == HeadOf(src.spine) && src.LastOk()
    requires j < |src.spine| && chain == src.spine[j] && previous == src.spine[if j == 0 then 0 else j - 1]
    requires chain == src.first <==> j == 0
    requires nread == |Flat(src.segs[..j])| && dst.totalLen + nread <= SIZE_MAX
    modifies src`first, src`spine, src`segs, dst, dst.mem, dst.cb`nAdd
    ensures dst.Valid() && dst.SameSettings() && Apart(dst, src)
    ensures |src.spine| == |src.segs| && Chained(src.mem.at, src.spine, src.segs)
    ensures src.first == HeadOf(src.spine) && src.LastOk()
    ensures src.spine == old(src.spine[j..]) && src.segs == old(src.segs[j..])
    ensures dst.Contents() == old(dst.Contents()) + Flat(old(src.segs[..j]))
    ensures Confined(old(dst.mem.at), old(dst.spine + src.spine), dst.mem.at, dst.spine + src.spine)
    ensures dst.cb.nAdd == (old(dst.cb.nAdd) + nread) % WRAP
  {
    hide Flat, Chain.View, Chain.InBounds, Seg.Good, EmptyFrom, Chained, Confined, Ptrs, CbState.Accounts;
    dst.cb.CountersFit(dst.totalLen);
    if chain != src.first {
      MoveChains(src, dst, chain, previous, j);
      dst.totalLen := dst.totalLen + nread;
      dst.cb.Grew(nread, old(dst.totalLen));
    } else {
      NothingPassed(src.segs);
      ChainedIn(dst.mem.at, dst.spine, dst.segs);
      ChainedIn(src.mem.at, src.spine, src.segs);
      ConfinedSame(dst.mem.at, dst.spine + src.spine);
    }
  }

  /** The same with the callbacks, which those of `dst` that are never put off get to see twice. */
  method MovePart(src: EvBuffer, dst: EvBuffer, datlen: nat) returns (nread: nat)
    requires src.Valid() && dst.Valid() && Apart(dst, src) && !dst.freezeEnd
    requires dst.totalLen + src.totalLen <= SIZE_MAX && 0 < datlen < src.totalLen
    modifies src, dst, src.mem, src.cb, dst.cb
    ensures src.Valid() && dst.Valid() && Apart(dst, src) && src.SameSettings() && dst.SameSettings()
    ensures nread == datlen
    ensures dst.Contents() == old(dst.Contents()) + old(src.Contents())[..datlen]
    ensures src.Contents() == old(src.Contents())[datlen..]
    ensures Confined(old(dst.mem.at), old(dst.spine + src.spine), dst.mem.at, dst.spine + src.spine)
    ensures dst.cb.ReportedTwice(datlen, dst.totalLen) && src.cb.Reported(0, datlen, src.totalLen)
  {
    hide Flat, Chain.View, Chain.InBounds, Seg.Good, EmptyFrom, Chained, Confined, Ptrs, CbState.Accounts, Marked,
         HeadOf, Settled, TwiceOver, ReportedOver;
    ghost var was, from := dst.cb.State(), src.cb.State();
    src.cb.CountersFit(src.totalLen);
    nread := RemoveSome(src, dst, datlen);
    if nread != 0 {
      ReportPart(dst.cb, src.cb, dst.totalLen, src.totalLen, datlen, was, from);
    }
  }

  /** The reports at the end of evbuffer_remove_buffer: `n` bytes have been counted on both sides. */
  method ReportPart(dstCb: CbState, srcCb: CbState, dstTotal: nat, srcTotal: nat, ghost n: nat, ghost was: Counts,
                    ghost from: Counts)
    requires dstCb != srcCb && dstCb.Accounts(dstTotal) && srcCb.Accounts(srcTotal)
    requires ReportedOver(dstCb.callbacks, dstCb.deferredCbs, was, dstCb.State(), n, 0, dstTotal)
    requires from.nAdd < WRAP && srcCb.State() == from.(nDel := (from.nDel + n) % WRAP)
    modifies dstCb, srcCb
    ensures dstCb.Accounts(dstTotal) && srcCb.Accounts(srcTotal)
    ensures dstCb.callbacks == old(dstCb.callbacks) && dstCb.deferredCbs == old(dstCb.deferredCbs)
    ensures srcCb.callbacks == old(srcCb.callbacks) && srcCb.deferredCbs == old(srcCb.deferredCbs)
    ensures TwiceOver(dstCb.callbacks, dstCb.deferredCbs, was, dstCb.State(), n, dstTotal)
    ensures ReportedOver(srcCb.callbacks, srcCb.deferredCbs, from, srcCb.State(), 0, n, srcTotal)
  {
    hide CbState.Accounts, Settled, TwiceOver, ReportedOver;
    ghost var mid, left := dstCb.State(), srcCb.State();
    dstCb.Invoke(dstTotal);
    ToldTwice(dstCb.callbacks, dstCb.deferredCbs, was, mid, dstCb.State(), n, dstTotal);
    srcCb.Invoke(srcTotal);
    CountedAndTold(srcCb.callbacks, srcCb.deferredCbs, from, left, srcCb.State(), 0, n, srcTotal);
  }

  /**
   * evbuffer_remove_buffer: moves the first `datlen` bytes of `src`, or all if there are fewer,
   * behind those of `dst`. Whole chains are relinked, a part of a chain is copied.
   */
  method RemoveBuffer(src: EvBuffer, dst: EvBuffer, datlen: nat) returns (result: int)
    requires src.Valid() && dst.Valid() && (src == dst || Apart(dst, src))
    requires src != dst ==> dst.totalLen + src.totalLen <= SIZE_MAX
    modifies src, dst, src.mem, src.cb, dst.cb
    ensures src.Valid() && dst.Valid() && (src == dst || Apart(dst, src))
    ensures src.SameSettings() && dst.SameSettings()
    ensures
      var n := if datlen < old(src.totalLen) then datlen else old(src.totalLen);
      if datlen == 0 || src == dst then
        result == 0 && src.Contents() == old(src.Contents()) && dst.Contents() == old(dst.Contents())
      else if dst.freezeEnd || src.freezeStart then
        result == -1 && src.Contents() == old(src.Contents()) && dst.Contents() == old(dst.Contents())
      else
        && result == Int32(n)
        && dst.Contents() == old(dst.Contents()) + old(src.Contents())[..n]
        && src.Contents() == old(src.Contents())[n..]
        && dst.totalLen + src.totalLen == old(dst.totalLen + src.totalLen)
    ensures src != dst ==> Confined(old(dst.mem.at), old(dst.spine + src.spine), dst.mem.at, dst.spine + src.spine)
    ensures
      var n := if datlen < old(src.totalLen) then datlen else old(src.totalLen);
      if n == 0 || src == dst || dst.freezeEnd || src.freezeStart then dst.cb.Untouched() && src.cb.Untouched()
      else
        && src.cb.Reported(0, n, src.totalLen)
        && if n == old(src.totalLen) then dst.cb.Reported(n, 0, dst.totalLen) else dst.cb.ReportedTwice(n, dst.totalLen)
  {
    hide Flat, Chain.View, Chain.InBounds, Seg.Good, EmptyFrom, Chained, Confined, Ptrs, CbState.Accounts, ReportedOver,
         TwiceOver;
    ChainedIn(dst.mem.at, dst.spine, dst.segs);
    ChainedIn(src.mem.at, src.spine, src.segs);
    ConfinedSame(dst.mem.at, dst.spine + src.spine);
    if datlen == 0 || dst == src {
      return 0;
    }
    if dst.freezeEnd || src.freezeStart {
      return -1;
    }
    if datlen >= src.totalLen {
      var n := src.totalLen;
      var r := AddBuffer(dst, src);
      return Int32(n);
    }
    var nread := MovePart(src, dst, datlen);
    result := Int32(nread);
  }
}
