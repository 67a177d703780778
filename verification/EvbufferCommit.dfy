/** Handing out the space at the end of an evbuffer and taking back what was written to it. */
module EvbufferCommit {
  import opened Options
  import opened Segments
  import opened Memory
  import opened BufferCallbacks
  import opened Evbuffer
  import opened EvbufferReserve

  ghost function VecTotal(vecs: seq<Vec>): nat {
    if vecs == [] then 0 else VecTotal(vecs[..|vecs| - 1]) + vecs[|vecs| - 1].len
  }

  /** The vector starts at the free space of the chain `p`, whose segment is `v`, and fits there. */
  ghost predicate InSpaceOf(vec: Vec, p: Ptr, v: Seg) {
    vec.chain == p && vec.pos == v.misalign + |v.data| && vec.len <= v.Space()
  }

  /** The vectors lie in the free space of consecutive chains, from position `f` on. */
  ghost predicate Fits(vecs: seq<Vec>, s: seq<Ptr>, cs: seq<Seg>, f: nat) {
    && |s| == |cs| && f + |vecs| <= |s|
    && forall i {:trigger vecs[i]} | 0 <= i < |vecs| :: InSpaceOf(vecs[i], s[f + i], cs[f + i])
  }

  /** What is in memory where a vector points. */
  ghost function Written(at: Store, vec: Vec): seq<byte> {
    if vec.chain in at && vec.pos + vec.len <= |at[vec.chain].buffer|
    then at[vec.chain].buffer[vec.pos..vec.pos + vec.len] else []
  }

  ghost function AllWritten(at: Store, vecs: seq<Vec>): seq<byte> {
    if vecs == [] then [] else AllWritten(at, vecs[..|vecs| - 1]) + Written(at, vecs[|vecs| - 1])
  }

  /** One vector: all the free space of the chain, or no more than what is left. */
  method OneVec(buf: EvBuffer, chain: Ptr, left: nat, exact: bool, ghost k: nat) returns (vec: Vec, next: Ptr)
    requires buf.Linked() && k < |buf.spine| && chain == buf.spine[k]
    ensures InSpaceOf(vec, chain, buf.segs[k])
    ensures vec.len == if exact && buf.segs[k].Space() > left then left else buf.segs[k].Space()
    ensures next == if k + 1 < |buf.spine| then buf.spine[k + 1] else NULL
  {
    hide Flat, Chain.View, Chain.InBounds, Seg.Good, EmptyFrom, Chained, Marked;
    buf.TargetAt(k);
    LinkedGood(buf);
    var c := buf.mem.at[chain];
    SpaceHere(c);
    var avail := c.SpaceLen();
    if avail > left && exact {
      avail := left;
    }
    if k + 1 < |buf.spine| {
      buf.TargetAt(k + 1);
    }
    vec, next := Vec(chain, c.misalign + c.off, avail), c.next;
  }

  /**
   * evbuffer_read_setup_vecs_: at most `nVecs` vectors over consecutive chains, together at least
   * `howmuch` bytes, and exactly that many if `exact`.
   */
  method ReadSetupVecs(buf: EvBuffer, howmuch: nat, nVecs: nat, exact: bool) returns (vecs: seq<Vec>, chainp: Link)
    requires buf.Linked() && buf.lwd < |buf.spine| && FirstWritable(buf.segs, buf.lwd) < |buf.spine|
    requires SpaceOf(buf.segs, FirstWritable(buf.segs, buf.lwd), nVecs) >= howmuch
    ensures |vecs| <= nVecs && Fits(vecs, buf.spine, buf.segs, FirstWritable(buf.segs, buf.lwd))
    ensures VecTotal(vecs) >= howmuch && (exact ==> VecTotal(vecs) == howmuch)
    ensures Whole(vecs, if exact then |vecs| - 1 else |vecs|, buf.segs, FirstWritable(buf.segs, buf.lwd))
    ensures chainp == buf.LinkAt(FirstWritable(buf.segs, buf.lwd))
  {
    hide Flat, Chain.View, Chain.InBounds, Seg.Good, EmptyFrom, Chained, Confined, Ptrs, CbState.Accounts, SpaceOf,
         VecTotal, Marked, Fits, Whole;
    var mem := buf.mem;
    ghost var f := FirstWritable(buf.segs, buf.lwd);
    buf.TargetAt(buf.lwd);
    chainp := buf.lastWithDatap;
    if mem.at[buf.Target(chainp)].SpaceLen() == 0 {
      chainp := NextOf(buf.Target(chainp));
    }
    buf.TargetAt(f);
    LinkedGood(buf);
    var chain := buf.Target(chainp);
    var soFar := 0;
    vecs := [];
    NoVecs(buf.spine, buf.segs, f);
    while |vecs| < nVecs && soFar < howmuch
      invariant |vecs| <= nVecs && soFar == VecTotal(vecs) && Fits(vecs, buf.spine, buf.segs, f)
      invariant soFar < howmuch ==> SpaceOf(buf.segs, f + |vecs|, nVecs - |vecs|) >= howmuch - soFar
      invariant exact ==> soFar <= howmuch
      invariant chain == if f + |vecs| < |buf.spine| then buf.spine[f + |vecs|] else NULL
      invariant Whole(vecs, if soFar < howmuch || !exact then |vecs| else |vecs| - 1, buf.segs, f)
    {
      ghost var k := f + |vecs|;
      FitsLength(vecs, buf.spine, buf.segs, f);
      SpaceUnfold(buf.segs, k, nVecs - |vecs|);
      var vec, next := OneVec(buf, chain, howmuch - soFar, exact, k);
      VecTotalNext(vecs, vec);
      VecsNext(vecs, buf.spine, buf.segs, f, vec);
      vecs := vecs + [vec];
      soFar := soFar + vec.len;
      chain := next;
    }
    SpaceUnfold(buf.segs, f + |vecs|, 0);
  }

  /** The first `n` vectors offer all of the free space of their chains. */
  ghost predicate Whole(vecs: seq<Vec>, n: int, cs: seq<Seg>, f: nat) {
    && n <= |vecs| && f + |vecs| <= |cs|
    && forall i {:trigger vecs[i]} | 0 <= i < n :: vecs[i].len == cs[f + i].Space()
  }

  lemma NoVecs(s: seq<Ptr>, cs: seq<Seg>, f: nat)
    ensures VecTotal([]) == 0
    ensures |s| == |cs| && f <= |s| ==> Fits([], s, cs, f) && Whole([], 0, cs, f) && Whole([], -1, cs, f)
  {
  }

  lemma FitsLength(vecs: seq<Vec>, s: seq<Ptr>, cs: seq<Seg>, f: nat)
    requires Fits(vecs, s, cs, f)
    ensures |s| == |cs| && f + |vecs| <= |s|
  {
  }

  /** One more vector, in the next chain. */
  lemma VecsNext(vecs: seq<Vec>, s: seq<Ptr>, cs: seq<Seg>, f: nat, vec: Vec)
    requires Fits(vecs, s, cs, f) && Whole(vecs, |vecs|, cs, f)
    requires f + |vecs| < |s| && InSpaceOf(vec, s[f + |vecs|], cs[f + |vecs|])
    ensures Fits(vecs + [vec], s, cs, f) && Whole(vecs + [vec], |vecs|, cs, f)
    ensures vec.len == cs[f + |vecs|].Space() ==> Whole(vecs + [vec], |vecs| + 1, cs, f)
  {
  }

  lemma VecTotalNext(vecs: seq<Vec>, vec: Vec)
    ensures VecTotal(vecs + [vec]) == VecTotal(vecs) + vec.len
  {
    assert (vecs + [vec])[..|vecs|] == vecs;
  }

  lemma SpaceUnfold(cs: seq<Seg>, k: nat, n: nat)
    ensures n == 0 || k >= |cs| ==> SpaceOf(cs, k, n) == 0
    ensures n > 0 && k < |cs| ==> SpaceOf(cs, k, n) == cs[k].Space() + SpaceOf(cs, k + 1, n - 1)
  {
  }

  lemma SpaceHere(c: Chain)
    requires c.InBounds()
    ensures 0 <= c.SpaceLen() == c.View().Space() && |c.View().data| == c.off
  {
  }

  /** The space offered by a vector that is taken as data. */
  method Take(buf: EvBuffer, chain: Ptr, n: nat, ghost k: nat)
    requires |buf.spine| == |buf.segs| && Chained(buf.mem.at, buf.spine, buf.segs)
    requires k < |buf.spine| && chain == buf.spine[k] && n <= buf.segs[k].Space() && EmptyFrom(buf.segs, k + 1)
    modifies buf`segs, buf.mem
    ensures Chained(buf.mem.at, buf.spine, buf.segs) && |buf.segs| == |buf.spine| && EmptyFrom(buf.segs, k + 1)
    ensures var v, x := old(buf.segs[k]),
            Written(old(buf.mem.at), Vec(chain, old(buf.segs[k].misalign + |buf.segs[k].data|), n));
            && |x| == n && buf.segs == old(buf.segs)[k := v.(data := v.data + x)]
            && buf.Contents() == old(buf.Contents()) + x
    ensures Confined(old(buf.mem.at), buf.spine, buf.mem.at, buf.spine)
    ensures SameBuffers(old(buf.mem.at), buf.mem.at)
  {
    hide Flat, Chain.View, Chain.InBounds, Seg.Good, Chained, Confined, Ptrs;
    var mem := buf.mem;
    ghost var at0, s, cs := mem.at, buf.spine, buf.segs;
    ChainedAt(at0, s, cs, k);
    ChainedIn(at0, s, cs);
    var c := mem.at[chain];
    SpaceBound(c, n);
    var d := c.Extended(n);
    ChainedSet(at0, s, cs, k, d);
    ConfinedSet(at0, s, chain, d);
    FillAt(cs, k, d.View(), c.FreeBytes(n));
    mem.at := mem.at[chain := d];
    buf.segs := cs[k := d.View()];
  }

  lemma SpaceBound(c: Chain, n: nat)
    requires c.InBounds() && c.View().Good() && n <= c.View().Space()
    ensures n <= |c.buffer| - (c.misalign + c.off) && n <= c.SpaceLen() && c.off == |c.View().data|
  {
  }

  /** evbuffer_commit_space accepts these vectors. */
  ghost predicate Committable(vecs: seq<Vec>, s: seq<Ptr>, cs: seq<Seg>, lwd: nat) {
    && |s| == |cs|
    && (vecs == []
        || (s != [] && lwd < |s|
            && var e, v := |s| - 1, vecs[0];
               if |vecs| == 1 && v.chain == s[e] && v.pos == cs[e].misalign + |cs[e].data| then v.len <= cs[e].Space()
               else Fits(vecs, s, cs, FirstWritable(cs, lwd))))
  }

  /** Pass 1 of evbuffer_commit_space. */
  method FitsHere(buf: EvBuffer, vecs: seq<Vec>, firstchainp: Link, ghost f: nat) returns (ok: bool)
    requires buf.Linked() && f <= |buf.spine| && firstchainp == buf.LinkAt(f)
    ensures ok == Fits(vecs, buf.spine, buf.segs, f)
  {
    hide Flat, Chain.View, Chain.InBounds, Seg.Good, EmptyFrom, Chained, Ptrs, CbState.Accounts, Marked;
    var mem := buf.mem;
    buf.TargetAt(f);
    var chain := buf.Target(firstchainp);
    var i := 0;
    while i < |vecs|
      invariant i <= |vecs| && f + i <= |buf.spine| && Fits(vecs[..i], buf.spine, buf.segs, f)
      invariant chain == if f + i < |buf.spine| then buf.spine[f + i] else NULL
    {
      if f + i < |buf.spine| {
        buf.TargetAt(f + i);
      }
      if chain == NULL {
        return false;
      }
      var c := mem.at[chain];
      SpaceHere(c);
      if vecs[i].chain != chain || vecs[i].pos != c.misalign + c.off || vecs[i].len > c.SpaceLen() {
        assert !InSpaceOf(vecs[i], buf.spine[f + i], buf.segs[f + i]);
        return false;
      }
      chain := c.next;
      i := i + 1;
      if f + i < |buf.spine| {
        buf.TargetAt(f + i);
      }
    }
    assert vecs[..i] == vecs;
    ok := true;
  }

  lemma WrittenSame(at0: Store, at1: Store, vec: Vec)
    requires vec.chain in at0 <==> vec.chain in at1
    requires vec.chain in at0 ==> at1[vec.chain].buffer == at0[vec.chain].buffer
    ensures Written(at0, vec) == Written(at1, vec)
  {
  }

  lemma AllWrittenNext(at: Store, vecs: seq<Vec>, i: nat)
    requires i < |vecs|
    ensures AllWritten(at, vecs[..i + 1]) == AllWritten(at, vecs[..i]) + Written(at, vecs[i])
    ensures VecTotal(vecs[..i + 1]) == VecTotal(vecs[..i]) + vecs[i].len
  {
    assert vecs[..i + 1][..i] == vecs[..i];
  }

  lemma NothingWritten(at: Store, vecs: seq<Vec>)
    ensures AllWritten(at, vecs[..0]) == [] && VecTotal(vecs[..0]) == 0
  {
    assert vecs[..0] == [];
  }

  lemma MarkFrom(cs: seq<Seg>, lwd: nat, f: nat)
    requires Marked(cs, lwd) && lwd <= f
    ensures EmptyFrom(cs, f + 1)
  {
  }

  /** Data taken at position `k`, behind which there is none. */
  lemma TakeMark(cs: seq<Seg>, lwd: nat, k: nat, v: Seg, x: seq<byte>)
    requires Marked(cs, lwd) && lwd <= k < |cs| && EmptyFrom(cs, k + 1) && v.data == cs[k].data + x
    ensures Marked(cs[k := v], if x == [] then lwd else k) && EmptyFrom(cs[k := v], k + 2)
  {
  }

  ghost predicate SameBuffers(at0: Store, at1: Store) {
    at1.Keys == at0.Keys && forall p | p in at0 :: at1[p].buffer == at0[p].buffer
  }

  /** Takes what was written to one chain, and returns the link to the next one. */
  method CommitOne(buf: EvBuffer, vec: Vec, chainp: Link, ghost k: nat) returns (next: Link)
    requires |buf.spine| == |buf.segs| && Chained(buf.mem.at, buf.spine, buf.segs) && buf.first == HeadOf(buf.spine)
    requires Marked(buf.segs, buf.lwd) && buf.lastWithDatap == buf.LinkAt(buf.lwd)
    requires buf.lwd <= k < |buf.spine| && EmptyFrom(buf.segs, k + 1) && chainp == buf.LinkAt(k)
    requires InSpaceOf(vec, buf.spine[k], buf.segs[k])
    modifies buf`segs, buf`lwd, buf`lastWithDatap, buf.mem
    ensures |buf.segs| == |buf.spine| && Chained(buf.mem.at, buf.spine, buf.segs)
    ensures Marked(buf.segs, buf.lwd) && buf.lastWithDatap == buf.LinkAt(buf.lwd)
    ensures buf.lwd <= k && EmptyFrom(buf.segs, k + 2) && next == buf.LinkAt(k + 1)
    ensures buf.segs == old(buf.segs)[k := buf.segs[k]] && |Written(old(buf.mem.at), vec)| == vec.len
    ensures buf.Contents() == old(buf.Contents()) + Written(old(buf.mem.at), vec)
    ensures Confined(old(buf.mem.at), buf.spine, buf.mem.at, buf.spine) && SameBuffers(old(buf.mem.at), buf.mem.at)
  {
    hide Flat, Chain.View, Chain.InBounds, Seg.Good, EmptyFrom, Chained, Confined, Ptrs, Written, Marked;
    ghost var cs, x := buf.segs, Written(buf.mem.at, vec);
    EvbufferMove.LinkTarget(buf, k);
    Take(buf, buf.Target(chainp), vec.len, k);
    TakeMark(cs, buf.lwd, k, buf.segs[k], x);
    if vec.len != 0 {
      buf.lastWithDatap := chainp;
      buf.lwd := k;
    }
    EvbufferMove.LinkTarget(buf, k);
    next := NextOf(buf.Target(chainp));
  }

  /** Pass 2 of evbuffer_commit_space. */
  method CommitAll(buf: EvBuffer, vecs: seq<Vec>, firstchainp: Link, ghost f: nat) returns (added: nat)
    requires buf.Linked() && Fits(vecs, buf.spine, buf.segs, f) && firstchainp == buf.LinkAt(f)
    requires buf.lwd <= f && buf.spine != []
    modifies buf`segs, buf`lwd, buf`lastWithDatap, buf.mem
    ensures Chained(buf.mem.at, buf.spine, buf.segs) && Marked(buf.segs, buf.lwd)
    ensures |buf.segs| == |buf.spine| && buf.lastWithDatap == buf.LinkAt(buf.lwd)
    ensures added == VecTotal(vecs) && |buf.Contents()| == buf.totalLen + added
    ensures buf.Contents() == old(buf.Contents()) + AllWritten(old(buf.mem.at), vecs)
    ensures Confined(old(buf.mem.at), buf.spine, buf.mem.at, buf.spine)
  {
    hide Flat, Chain.View, Chain.InBounds, Seg.Good, EmptyFrom, Chained, Confined, Ptrs, Written, Marked, VecTotal,
         AllWritten;
    ghost var at0, cs := buf.mem.at, buf.segs;
    ChainedIn(at0, buf.spine, cs);
    ConfinedSame(at0, buf.spine);
    NothingWritten(at0, vecs);
    MarkFrom(cs, buf.lwd, f);
    var chainp, i := firstchainp, 0;
    added := 0;
    while i < |vecs|
      invariant i <= |vecs| && |buf.segs| == |buf.spine| && chainp == buf.LinkAt(f + i)
      invariant Chained(buf.mem.at, buf.spine, buf.segs) && Marked(buf.segs, buf.lwd) && EmptyFrom(buf.segs, f + i + 1)
      invariant buf.lastWithDatap == buf.LinkAt(buf.lwd) && buf.lwd <= f + i
      invariant forall j {:trigger buf.segs[j]} | f + i <= j < |cs| :: buf.segs[j] == cs[j]
      invariant added == VecTotal(vecs[..i]) && |buf.Contents()| == buf.totalLen + added
      invariant buf.Contents() == old(buf.Contents()) + AllWritten(at0, vecs[..i])
      invariant Confined(at0, buf.spine, buf.mem.at, buf.spine) && SameBuffers(at0, buf.mem.at)
    {
      ghost var vec, at1 := vecs[i], buf.mem.at;
      assert buf.segs[f + i] == cs[f + i] && InSpaceOf(vec, buf.spine[f + i], cs[f + i]);
      WrittenSame(at0, at1, vec);
      AllWrittenNext(at0, vecs, i);
      Assoc(old(buf.Contents()), AllWritten(at0, vecs[..i]), Written(at0, vec));
      chainp := CommitOne(buf, vecs[i], chainp, f + i);
      ConfinedTrans(at0, buf.spine, at1, buf.spine, buf.mem.at, buf.spine);
      added := added + vecs[i].len;
      i := i + 1;
    }
    assert vecs[..i] == vecs;
  }

  /** The case of one vector that starts at the free space of the last chain. */
  method CommitLast(buf: EvBuffer, vec: Vec) returns (ok: bool)
    requires buf.Linked() && buf.LastOk() && buf.spine != []
    requires var e := |buf.spine| - 1; vec.chain == buf.spine[e] && vec.pos == buf.segs[e].misalign + |buf.segs[e].data|
    modifies buf`segs, buf`lwd, buf`lastWithDatap, buf.mem
    ensures Chained(buf.mem.at, buf.spine, buf.segs) && Marked(buf.segs, buf.lwd)
    ensures |buf.segs| == |buf.spine| && buf.lastWithDatap == buf.LinkAt(buf.lwd)
    ensures ok == (vec.len <= old(buf.segs[|buf.spine| - 1].Space()))
    ensures !ok ==> buf.mem.at == old(buf.mem.at) && buf.segs == old(buf.segs)
    ensures ok ==>
              && buf.Contents() == old(buf.Contents()) + Written(old(buf.mem.at), vec)
              && |buf.Contents()| == buf.totalLen + vec.len
    ensures Confined(old(buf.mem.at), buf.spine, buf.mem.at, buf.spine)
  {
    hide Flat, Chain.View, Chain.InBounds, Seg.Good, EmptyFrom, Chained, Confined, Ptrs, Written, Marked;
    ghost var cs, lwd, k := buf.segs, buf.lwd, |buf.spine| - 1;
    ChainedIn(buf.mem.at, buf.spine, buf.segs);
    ConfinedSame(buf.mem.at, buf.spine);
    buf.TargetAt(k);
    SpaceHere(buf.mem.at[buf.last]);
    if vec.len > buf.mem.at[buf.last].SpaceLen() {
      return false;
    }
    NothingBehind(cs, lwd);
    ghost var x := Written(buf.mem.at, vec);
    Take(buf, buf.last, vec.len, k);
    MarkAhead(cs, lwd, buf.segs[k], x);
    if vec.len != 0 {
      var n := EvbufferMove.AdvanceLastWithData(buf);
    }
    ok := true;
  }

  lemma NothingBehind(cs: seq<Seg>, lwd: nat)
    requires Marked(cs, lwd) && cs != []
    ensures EmptyFrom(cs, |cs|) && lwd < |cs|
  {
  }

  /** Data taken at the last position: the mark may be too far ahead, but not in the wrong place. */
  lemma MarkAhead(cs: seq<Seg>, lwd: nat, v: Seg, x: seq<byte>)
    requires Marked(cs, lwd) && cs != [] && v.data == cs[|cs| - 1].data + x
    ensures var ds := cs[|cs| - 1 := v];
            && lwd < |ds| && (lwd > 0 ==> ds[lwd].data != [])
            && (x == [] ==> Marked(ds, lwd))
  {
  }

  /** The case of vectors that start at the first chain with space. */
  method CommitFirst(buf: EvBuffer, vecs: seq<Vec>) returns (ok: bool, added: nat)
    requires buf.Linked() && vecs != []
    modifies buf`segs, buf`lwd, buf`lastWithDatap, buf.mem
    ensures Chained(buf.mem.at, buf.spine, buf.segs) && Marked(buf.segs, buf.lwd)
    ensures |buf.segs| == |buf.spine| && buf.lastWithDatap == buf.LinkAt(buf.lwd)
    ensures ok == (buf.spine != [] && Fits(vecs, buf.spine, old(buf.segs), FirstWritable(old(buf.segs), old(buf.lwd))))
    ensures !ok ==> buf.mem.at == old(buf.mem.at) && buf.segs == old(buf.segs)
    ensures ok ==>
              && added == VecTotal(vecs) && |buf.Contents()| == buf.totalLen + added
              && buf.Contents() == old(buf.Contents()) + AllWritten(old(buf.mem.at), vecs)
    ensures Confined(old(buf.mem.at), buf.spine, buf.mem.at, buf.spine)
  {
    hide Flat, Chain.View, Chain.InBounds, Seg.Good, EmptyFrom, Chained, Confined, Ptrs, Written, AllWritten, VecTotal;
    var mem := buf.mem;
    ok, added := false, 0;
    ChainedIn(mem.at, buf.spine, buf.segs);
    ConfinedSame(mem.at, buf.spine);
    buf.TargetAt(buf.lwd);
    var firstchainp := buf.lastWithDatap;
    if buf.Target(firstchainp) == NULL {
      return;
    }
    ghost var f := FirstWritable(buf.segs, buf.lwd);
    SpaceHere(mem.at[buf.Target(firstchainp)]);
    if mem.at[buf.Target(firstchainp)].SpaceLen() == 0 {
      firstchainp := NextOf(buf.Target(firstchainp));
    }
    ok := FitsHere(buf, vecs, firstchainp, f);
    if ok {
      added := CommitAll(buf, vecs, firstchainp, f);
    }
  }

  /** Both cases, with which one applies. */
  method CommitVecs(buf: EvBuffer, vecs: seq<Vec>) returns (ok: bool, added: nat)
    requires buf.Linked() && buf.LastOk() && vecs != []
    modifies buf`segs, buf`lwd, buf`lastWithDatap, buf.mem
    ensures Chained(buf.mem.at, buf.spine, buf.segs) && Marked(buf.segs, buf.lwd)
    ensures |buf.segs| == |buf.spine| && buf.lastWithDatap == buf.LinkAt(buf.lwd)
    ensures ok == Committable(vecs, buf.spine, old(buf.segs), old(buf.lwd))
    ensures !ok ==> buf.mem.at == old(buf.mem.at) && buf.segs == old(buf.segs)
    ensures ok ==>
              && added == VecTotal(vecs) && |buf.Contents()| == buf.totalLen + added
              && buf.Contents() == old(buf.Contents()) + AllWritten(old(buf.mem.at), vecs)
    ensures Confined(old(buf.mem.at), buf.spine, buf.mem.at, buf.spine)
  {
    hide Flat, Chain.View, Chain.InBounds, Seg.Good, EmptyFrom, Chained, Confined, Ptrs, Written, AllWritten, VecTotal,
         Fits;
    var mem := buf.mem;
    LastInside(buf);
    if |vecs| == 1 && buf.last != NULL {
      buf.TargetAt(|buf.spine| - 1);
      if vecs[0].chain == buf.last && vecs[0].pos == mem.at[buf.last].misalign + mem.at[buf.last].off {
        OneWritten(mem.at, vecs);
        ok := CommitLast(buf, vecs[0]);
        added := vecs[0].len;
        return;
      }
    }
    ok, added := CommitFirst(buf, vecs);
  }

  /** evbuffer_commit_space */
  method CommitSpace(buf: EvBuffer, vecs: seq<Vec>) returns (result: int)
    requires buf.Valid() && buf.totalLen + VecTotal(vecs) <= SIZE_MAX
    modifies buf, buf.mem, buf.cb
    ensures buf.Valid() && buf.SameSettings() && buf.spine == old(buf.spine)
    ensures result == if !buf.freezeEnd && Committable(vecs, old(buf.spine), old(buf.segs), old(buf.lwd)) then 0 else -1
    ensures result == 0 ==> buf.Contents() == old(buf.Contents()) + AllWritten(old(buf.mem.at), vecs)
    ensures result == -1 ==> buf.Contents() == old(buf.Contents()) && buf.segs == old(buf.segs)
                             && buf.mem.at == old(buf.mem.at)
    ensures Confined(old(buf.mem.at), buf.spine, buf.mem.at, buf.spine)
    ensures buf.totalLen >= old(buf.totalLen)
    ensures if result == -1 || vecs == [] then buf.cb.Untouched()
            else buf.cb.Reported(buf.totalLen - old(buf.totalLen), 0, buf.totalLen)
  {
    hide Flat, Chain.View, Chain.InBounds, Seg.Good, EmptyFrom, Chained, Confined, Ptrs, Written, VecTotal,
         CbState.Accounts, Fits, HeadOf, ReportedOver;
    ChainedIn(buf.mem.at, buf.spine, buf.segs);
    ConfinedSame(buf.mem.at, buf.spine);
    if buf.freezeEnd {
      return -1;
    }
    if |vecs| == 0 {
      return 0;
    }
    var ok, added := CommitVecs(buf, vecs);
    if !ok {
      return -1;
    }
    buf.totalLen := buf.totalLen + added;
    buf.cb.ReportGrown(added, buf.totalLen, old(buf.totalLen));
    result := 0;
  }

  lemma OneWritten(at: Store, vecs: seq<Vec>)
    requires |vecs| == 1
    ensures AllWritten(at, vecs) == Written(at, vecs[0]) && VecTotal(vecs) == vecs[0].len
  {
    NothingWritten(at, vecs);
    AllWrittenNext(at, vecs, 0);
    assert vecs[..1] == vecs;
    assert [] + Written(at, vecs[0]) == Written(at, vecs[0]);
  }

  /** What evbuffer_reserve_space does: some vectors, a refusal (-1), or a failed EVUTIL_ASSERT. */
  datatype Reserved = Vectors(vecs: seq<Vec>) | Refused | AssertionFailed

  /** evbuffer_reserve_space */
  method ReserveSpace(buf: EvBuffer, size: int, nVecs: int) returns (r: Reserved, ghost k: nat)
    requires buf.Valid() && SSIZE_MIN <= size <= SSIZE_MAX
    modifies buf, buf.mem
    ensures buf.Linked() && buf.LastOk() && buf.cb.Accounts(buf.totalLen) && buf.SameSettings()
    ensures buf.Contents() == old(buf.Contents())
    ensures Confined(old(buf.mem.at), old(buf.spine), buf.mem.at, buf.spine)
    ensures r.AssertionFailed? <==>
              !buf.freezeEnd && size == 0 && nVecs >= 2 && FullTail(old(buf.segs), old(buf.lwd))
    ensures buf.freezeEnd || nVecs < 1 || size < 0 ==> r.Refused?
    ensures r.Refused? ==> buf.freezeEnd || nVecs < 1 || size < 0 || size + MAX_TO_COPY_IN_EXPAND > MAX_CAP
    ensures r.Vectors? ==>
              && |r.vecs| <= nVecs && VecTotal(r.vecs) >= size
              && (nVecs >= 2 ==> buf.spine != [] && Fits(r.vecs, buf.spine, buf.segs, FirstWritable(buf.segs, buf.lwd))
                                 && Whole(r.vecs, |r.vecs|, buf.segs, FirstWritable(buf.segs, buf.lwd)))
              && (nVecs == 1 ==> |r.vecs| == 1 && IsSpaceOf(r.vecs[0], buf.spine, buf.segs, k)
                                 && (UsesNext(old(buf.segs), old(buf.lwd), size) ==>
                                       k == buf.lwd + 1 && buf.segs == old(buf.segs) && buf.lwd == old(buf.lwd)))
    ensures nVecs >= 2 && r.Vectors? && size >= 0 && AddsOne(old(buf.segs), old(buf.lwd), size, nVecs) ==>
              buf.segs == OneAdded(old(buf.segs), old(buf.lwd), size, nVecs) && buf.lwd == old(buf.lwd)
  {
    hide Flat, Chain.View, Chain.InBounds, Seg.Good, EmptyFrom, Chained, Confined, Ptrs, CbState.Accounts, VecTotal,
         SpaceOf;
    ChainedIn(buf.mem.at, buf.spine, buf.segs);
    ConfinedSame(buf.mem.at, buf.spine);
    if buf.freezeEnd {
      return Refused, 0;
    }
    if nVecs < 1 {
      return Refused, 0;
    }
    if nVecs == 1 {
      r, k := ReserveOne(buf, SizeT(size));
    } else {
      k := 0;
      r := ReserveMany(buf, size, nVecs);
    }
  }

  /** The vector covers all of the free space of the chain at position `k`. */
  ghost predicate IsSpaceOf(vec: Vec, s: seq<Ptr>, cs: seq<Seg>, k: nat) {
    |s| == |cs| && k < |s| && InSpaceOf(vec, s[k], cs[k]) && vec.len == cs[k].Space()
  }

  method ReserveOne(buf: EvBuffer, datlen: nat) returns (r: Reserved, ghost k: nat)
    requires buf.Linked() && buf.LastOk()
    modifies buf`first, buf`last, buf`lastWithDatap, buf`totalLen, buf`spine, buf`segs, buf`lwd, buf.mem
    ensures buf.Linked() && buf.LastOk() && buf.Contents() == old(buf.Contents())
    ensures Confined(old(buf.mem.at), old(buf.spine), buf.mem.at, buf.spine)
    ensures !r.AssertionFailed? && (r.Refused? ==> datlen + MAX_TO_COPY_IN_EXPAND > MAX_CAP)
    ensures datlen > MAX_CAP ==> r.Refused?
    ensures r.Vectors? ==> |r.vecs| == 1 && VecTotal(r.vecs) >= datlen && IsSpaceOf(r.vecs[0], buf.spine, buf.segs, k)
    ensures UsesNext(old(buf.segs), old(buf.lwd), datlen) ==>
              k == buf.lwd + 1 && buf.segs == old(buf.segs) && buf.lwd == old(buf.lwd)
  {
    hide Flat, Chain.View, Chain.InBounds, Seg.Good, EmptyFrom, Chained, Confined, Ptrs, CbState.Accounts, VecTotal,
         Marked;
    var chain;
    chain, k := ExpandSinglechain(buf, datlen);
    if chain == NULL {
      return Refused, k;
    }
    buf.TargetAt(k);
    var c := buf.mem.at[chain];
    SpaceHere(c);
    CapBound(buf.segs[k]);
    var vec := Vec(chain, c.misalign + c.off, c.SpaceLen());
    OneWritten(buf.mem.at, [vec]);
    assert IsSpaceOf(vec, buf.spine, buf.segs, k);
    r := Vectors([vec]);
  }

  method ReserveMany(buf: EvBuffer, size: int, nVecs: nat) returns (r: Reserved)
    requires buf.Linked() && buf.LastOk() && nVecs >= 2 && SSIZE_MIN <= size <= SSIZE_MAX
    modifies buf`first, buf`last, buf`lastWithDatap, buf`totalLen, buf`spine, buf`segs, buf`lwd, buf.mem
    ensures buf.Linked() && buf.LastOk() && buf.Contents() == old(buf.Contents())
    ensures Confined(old(buf.mem.at), old(buf.spine), buf.mem.at, buf.spine)
    ensures r.AssertionFailed? <==> size == 0 && FullTail(old(buf.segs), old(buf.lwd))
    ensures size < 0 ==> r.Refused?
    ensures r.Refused? ==> size < 0 || size > MAX_CAP
    ensures r.Vectors? ==>
              && |r.vecs| <= nVecs && VecTotal(r.vecs) >= size && buf.spine != []
              && Fits(r.vecs, buf.spine, buf.segs, FirstWritable(buf.segs, buf.lwd))
              && Whole(r.vecs, |r.vecs|, buf.segs, FirstWritable(buf.segs, buf.lwd))
    ensures r.Vectors? && size >= 0 && AddsOne(old(buf.segs), old(buf.lwd), size, nVecs) ==>
              buf.segs == OneAdded(old(buf.segs), old(buf.lwd), size, nVecs) && buf.lwd == old(buf.lwd)
  {
    hide Flat, Chain.View, Chain.InBounds, Seg.Good, EmptyFrom, Chained, Confined, Ptrs, CbState.Accounts, VecTotal,
         SpaceOf, Fits, Whole, FullTail, AddsOne;
    var expanded := ExpandFast(buf, SizeT(size), nVecs);
    if expanded < 0 {
      return Refused;
    }
    if size < 0 {
      return Refused;
    }
    var first := FirstWithSpace(buf);
    if first == NULL {
      return AssertionFailed;
    }
    SpaceUnfold(buf.segs, FirstWritable(buf.segs, buf.lwd), nVecs);
    LinkedGood(buf);
    SpaceMore(buf.segs, FirstWritable(buf.segs, buf.lwd), 0, nVecs);
    var vecs, chainp := ReadSetupVecs(buf, size, nVecs, false);
    r := Vectors(vecs);
  }

  /** The chain at which evbuffer_read_setup_vecs_ would start. */
  method FirstWithSpace(buf: EvBuffer) returns (chain: Ptr)
    requires buf.Linked() && buf.spine != []
    ensures buf.lwd < |buf.spine| && FirstWritable(buf.segs, buf.lwd) <= |buf.spine|
    ensures chain == NULL <==> FirstWritable(buf.segs, buf.lwd) == |buf.spine|
  {
    hide Flat, Chain.View, Chain.InBounds, Seg.Good, EmptyFrom, Chained, Confined, Ptrs, CbState.Accounts;
    buf.TargetAt(buf.lwd);
    chain := buf.Target(buf.lastWithDatap);
    SpaceHere(buf.mem.at[chain]);
    if buf.mem.at[chain].SpaceLen() == 0 {
      buf.TargetAt(buf.lwd + 1);
      chain := buf.mem.at[chain].next;
    }
  }

  /**
   * One vector from evbuffer_reserve_space is accepted by evbuffer_commit_space if and only if its
   * chain is the first one with space or the last one. The chain handed out may be neither, if two
   * empty chains follow the data.
   */
  lemma OneVectorCommits(vec: Vec, s: seq<Ptr>, cs: seq<Seg>, lwd: nat, k: nat)
    requires IsSpaceOf(vec, s, cs, k) && Distinct(s) && lwd < |s| && vec.len >= 0
    ensures Committable([vec], s, cs, lwd) <==> k == |s| - 1 || k == FirstWritable(cs, lwd)
  {
    var f := FirstWritable(cs, lwd);
    assert [vec][0] == vec;
    if f < |s| && InSpaceOf(vec, s[f], cs[f]) {
      assert f == k;
    }
  }
}
