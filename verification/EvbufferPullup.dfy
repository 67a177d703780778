/** evbuffer_pullup: making the first bytes of a buffer contiguous. */
module EvbufferPullup {
  import opened Segments
  import opened Memory
  import opened Evbuffer

  /** A pointer into the memory of a chain. */
  datatype BytePtr = Null | At(chain: Ptr, index: nat)

  /** From position `b` on, a list lost its first chains; everything but it and `tmp` is as before. */
  ghost predicate Remains(at0: Store, s0: seq<Ptr>, at1: Store, s1: seq<Ptr>, tmp: Ptr) {
    at1 - (Ptrs(s1) + {tmp}) == at0 - (Ptrs(s0) + {tmp})
  }

  /** Freeing the first chain of a list. */
  lemma RemainsFree(at0: Store, s0: seq<Ptr>, at: Store, t: seq<Ptr>, ds: seq<Seg>, tmp: Ptr, c: Chain)
    requires |t| == |ds| && t != [] && Chained(at, t, ds) && tmp !in t && Remains(at0, s0, at, t, tmp)
    ensures t[0] != NULL && t[0] in at && t[0] != tmp && at[t[0]].next == HeadOf(t[1..])
    ensures at[t[0]].InBounds() && at[t[0]].View() == ds[0] && at[t[0]].off == |ds[0].data|
    ensures var at' := at[tmp := c] - {t[0]};
            Chained(at', t[1..], ds[1..]) && tmp !in t[1..] && Remains(at0, s0, at', t[1..], tmp)
  {
    hide Chained, Ptrs, Chain.View;
    FreeFirst(at, t, ds);
    ChainedAt(at, t, ds, 0);
    PtrsIn(t);
    PtrsIn(t[1..]);
    PtrsFirst(t);
    var at' := at[tmp := c] - {t[0]};
    ChainedIn(at - {t[0]}, t[1..], ds[1..]);
    ChainedFrame(at - {t[0]}, at', t[1..], ds[1..]);
    assert at' - (Ptrs(t[1..]) + {tmp}) == at - (Ptrs(t) + {tmp});
  }

  lemma RemainsConfined(at0: Store, s0: seq<Ptr>, at1: Store, s1: seq<Ptr>, tmp: Ptr)
    requires Remains(at0, s0, at1, s1, tmp) && tmp in at1 && (forall p | p in s1 :: p in at1 && p in s0)
    requires tmp in s0 || tmp !in at0
    ensures Confined(at0, s0, at1, [tmp] + s1)
  {
    assert Ptrs([tmp] + s1) == Ptrs(s1) + {tmp};
    var r0, r1 := at0 - (Ptrs(s0) + {tmp}), at1 - (Ptrs(s1) + {tmp});
    forall p | p in at0 && p !in s0 ensures p in at1 && at1[p] == at0[p] {
      assert p != tmp && p in r0 && p in r1 && r1[p] == r0[p];
    }
    forall p ensures p in at1 <==> p in (at0.Keys - Ptrs(s0)) + Ptrs([tmp] + s1) {
      assert p in r0 <==> p in r1;
    }
  }

  /** Putting a chain, whatever it pointed to, in front of a list. */
  lemma ChainedCons(at: Store, p: Ptr, t: seq<Ptr>, ds: seq<Seg>)
    requires |t| == |ds| && Chained(at, t, ds) && p !in t && p != NULL
    requires p in at && at[p].InBounds() && at[p].View().Good()
    ensures Chained(at[p := at[p].(next := HeadOf(t))], [p] + t, [at[p].View()] + ds)
  {
    hide Chained, Ptrs, Chain.View, Chain.InBounds;
    var at' := at[p := at[p].(next := NULL)];
    SameView(at[p], NULL);
    ChainedIn(at, t, ds);
    ChainedFrame(at, at', t, ds);
    PrependFacts(at', t, ds, p);
    assert at'[p := at'[p].(next := HeadOf(t))] == at[p := at[p].(next := HeadOf(t))];
  }

  /**
   * The copying loop: `tmp` takes the bytes of the chains from position `b` on as long as whole
   * chains are wanted, and those chains are freed.
   */
  method Gather(buf: EvBuffer, tmp: Ptr, start: Ptr, pos0: nat, wanted: nat, lastWithData: Ptr, ghost b: nat)
    returns (chain: Ptr, pos: nat, left: nat, removedLast: bool, removedLink: bool, ghost j: nat)
    requires b <= |buf.spine| == |buf.segs| && start == HeadOf(buf.spine[b..]) && Distinct(buf.spine)
    requires Chained(buf.mem.at, buf.spine[b..], buf.segs[b..]) && tmp in buf.mem.at && tmp !in buf.spine[b..]
    requires 0 < buf.lwd < |buf.spine| && lastWithData == buf.spine[buf.lwd] && buf.lastWithDatap == buf.LinkAt(buf.lwd)
    requires wanted <= |Flat(buf.segs[b..])|
    requires var c := buf.mem.at[tmp];
             c.misalign <= pos0 && pos0 + wanted <= |c.buffer| && c.buffer[c.misalign..pos0] == Flat(buf.segs[..b])
    modifies buf.mem
    ensures b <= j <= |buf.spine| && chain == HeadOf(buf.spine[j..])
    ensures Chained(buf.mem.at, buf.spine[j..], buf.segs[j..]) && tmp !in buf.spine[j..]
    ensures Remains(old(buf.mem.at), buf.spine[b..], buf.mem.at, buf.spine[j..], tmp)
    ensures |Flat(buf.segs[..j])| + left == |Flat(buf.segs[..b])| + wanted
    ensures if j < |buf.spine| then chain != NULL && left < |buf.segs[j].data| else chain == NULL && left == 0
    ensures tmp in buf.mem.at
    ensures var c0, c := old(buf.mem.at[tmp]), buf.mem.at[tmp];
            && |c.buffer| == |c0.buffer| && c == c0.(buffer := c.buffer)
            && c0.misalign <= pos && pos + left <= |c.buffer| && c.buffer[c0.misalign..pos] == Flat(buf.segs[..j])
    ensures removedLast == (b <= buf.lwd < j) && removedLink == (b <= buf.lwd - 1 < j)
  {
    hide Flat, Chain.View, Chain.InBounds, Seg.Good, Chained, Confined, Ptrs, Remains, Distinct, EmptyFrom, Marked,
         HeadOf;
    var mem := buf.mem;
    ghost var at0, s, cs := mem.at, buf.spine, buf.segs;
    chain, pos, left, removedLast, removedLink, j := start, pos0, wanted, false, false, b;
    RemainsStart(at0, s[b..], tmp);
    Peek(mem.at, s, cs, j);
    FlatSplit(cs, b);
    while chain != NULL && left >= mem.at[chain].off
      invariant b <= j <= |s| && chain == HeadOf(s[j..])
      invariant Chained(mem.at, s[j..], cs[j..]) && tmp in mem.at && tmp !in s[j..]
      invariant Remains(at0, s[b..], mem.at, s[j..], tmp)
      invariant |Flat(cs[..j])| + left == |Flat(cs[..b])| + wanted
      invariant if j < |s| then chain == s[j] != NULL && chain in mem.at && mem.at[chain].off == |cs[j].data|
                else chain == NULL
      invariant |mem.at[tmp].buffer| == |at0[tmp].buffer| && mem.at[tmp] == at0[tmp].(buffer := mem.at[tmp].buffer)
      invariant at0[tmp].misalign <= pos && pos + left <= |at0[tmp].buffer|
      invariant mem.at[tmp].buffer[at0[tmp].misalign..pos] == Flat(cs[..j])
      invariant removedLast == (b <= buf.lwd < j) && removedLink == (b <= buf.lwd - 1 < j)
      decreases |s| - j
    {
      var x := mem.at[chain].off;
      SuffixStep(s, cs, j);
      Peek(mem.at, s, cs, j);
      var data := mem.at[chain].Bytes(0, x);
      var c := mem.at[tmp].Written(pos, data);
      RemainsFree(at0, s[b..], mem.at, s[j..], cs[j..], tmp, c);
      FlatNext(cs, j);
      SamePlace(s, j, buf.lwd);
      SamePlace(s, j, buf.lwd - 1);
      var next := mem.at[chain].next;
      mem.at := mem.at[tmp := c];
      if chain == lastWithData {
        removedLast := true;
      }
      if NextOf(chain) == buf.lastWithDatap {
        removedLink := true;
      }
      mem.Free(chain);
      chain, pos, left, j := next, pos + x, left - x, j + 1;
      Peek(mem.at, s, cs, j);
    }
    if j == |s| {
      assert cs[..j] == cs;
    }
  }

  lemma RemainsStart(at: Store, s: seq<Ptr>, tmp: Ptr)
    ensures Remains(at, s, at, s, tmp)
  {
  }

  lemma SuffixStep(s: seq<Ptr>, cs: seq<Seg>, j: nat)
    requires j < |s| == |cs|
    ensures s[j..][0] == s[j] && cs[j..][0] == cs[j] && s[j..][1..] == s[j + 1..] && cs[j..][1..] == cs[j + 1..]
  {
  }

  lemma SamePlace(s: seq<Ptr>, i: nat, j: nat)
    requires Distinct(s) && i < |s| && j < |s|
    ensures s[i] == s[j] <==> i == j
  {
  }

  lemma Peek(at: Store, s: seq<Ptr>, cs: seq<Seg>, j: nat)
    requires j <= |s| == |cs| && Chained(at, s[j..], cs[j..])
    ensures if j < |s| then
              && HeadOf(s[j..]) == s[j] != NULL && s[j] in at && at[s[j]].off == |cs[j].data|
              && at[s[j]].InBounds() && at[s[j]].View() == cs[j] && cs[j].Good()
            else HeadOf(s[j..]) == NULL
  {
    if j < |s| {
      ChainedAt(at, s[j..], cs[j..], 0);
    }
  }

  /** The segments after pulling `n` bytes into one segment `v`, where `left` bytes came from segment `j`. */
  ghost function Pulled(cs: seq<Seg>, j: nat, left: nat, v: Seg): seq<Seg>
    requires j <= |cs| && (j < |cs| ==> left <= |cs[j].data|)
  {
    if j == |cs| then [v]
    else [v] + cs[j..][0 := cs[j].(data := cs[j].data[left..], misalign := cs[j].misalign + left)]
  }

  lemma PulledShape(cs: seq<Seg>, j: nat, left: nat, v: Seg)
    requires j <= |cs| && (j < |cs| ==> left <= |cs[j].data|)
    ensures |Pulled(cs, j, left, v)| == |cs| - j + 1 && Pulled(cs, j, left, v)[0] == v
    ensures j < |cs| ==> |Pulled(cs, j, left, v)[1].data| == |cs[j].data| - left
  {
  }

  lemma OneMarked(v: Seg)
    ensures Marked([v], 0)
  {
  }

  lemma DataUpTo(cs: seq<Seg>, lwd: nat, j: nat)
    requires Marked(cs, lwd) && j < |cs| && cs[j].data != []
    ensures j <= lwd
  {
  }

  lemma PutBefore(v: Seg, cs: seq<Seg>, lwd: nat)
    requires Marked(cs, lwd) && lwd < |cs| && cs[lwd].data != []
    ensures Marked([v] + cs, lwd + 1)
  {
  }

  lemma PulledFlat(cs: seq<Seg>, lwd: nat, j: nat, left: nat, v: Seg)
    requires Marked(cs, lwd) && 0 < lwd < |cs| && j <= |cs|
    requires if j < |cs| then left < |cs[j].data| else left == 0
    requires v.data == Flat(cs[..j]) + (if j < |cs| then cs[j].data[..left] else []) && v.data != []
    ensures v.data <= Flat(cs)
    ensures Flat(Pulled(cs, j, left, v)) == Flat(cs)
    ensures Marked(Pulled(cs, j, left, v), if lwd < j then 0 else lwd - j + 1)
  {
    hide Flat, EmptyFrom;
    FlatSplit(cs, j);
    if j == |cs| {
      assert cs[..j] == cs;
      FlatOne(v);
      OneMarked(v);
    } else {
      DataUpTo(cs, lwd, j);
      var w := cs[j].(data := cs[j].data[left..], misalign := cs[j].misalign + left);
      DropFirst(cs, lwd, j, left, w);
      PutBefore(v, cs[j..][0 := w], lwd - j);
      FlatPlus([v], cs[j..][0 := w]);
      FlatOne(v);
      var n := |Flat(cs[..j])| + left;
      assert Flat(cs) == Flat(cs)[..n] + Flat(cs)[n..];
    }
  }

  /** The part of evbuffer_pullup behind the copying loop. */
  method Finish(buf: EvBuffer, tmp: Ptr, n: nat, rest: Ptr, pos: nat, left: nat, removedLast: bool, removedLink: bool,
                ghost at0: Store, ghost b: nat, ghost j: nat)
    requires 0 < buf.lwd < |buf.spine| == |buf.segs| && Marked(buf.segs, buf.lwd)
             && buf.lastWithDatap == buf.LinkAt(buf.lwd)
    requires buf.totalLen == |buf.Contents()| && buf.LastOk() && Distinct(buf.spine)
    requires b <= 1 && b <= j <= |buf.spine| && rest == HeadOf(buf.spine[j..])
    requires Chained(buf.mem.at, buf.spine[j..], buf.segs[j..]) && tmp !in buf.spine[j..] && tmp != NULL
             && tmp in buf.mem.at
    requires if j < |buf.spine| then rest != NULL && left < |buf.segs[j].data| else rest == NULL && left == 0
    requires var c := buf.mem.at[tmp];
             && c.InBounds() && c.off == n && !c.immutable && c.View().Good()
             && pos + left == c.misalign + n && c.misalign <= pos && c.buffer[c.misalign..pos] == Flat(buf.segs[..j])
    requires 0 < n == |Flat(buf.segs[..j])| + left <= buf.totalLen
    requires Remains(at0, buf.spine, buf.mem.at, buf.spine[j..], tmp)
    requires (tmp in buf.spine || tmp !in at0) && buf.first == tmp
    requires if b == 1 then tmp == buf.spine[0] else b == 0 && tmp !in buf.spine
    requires removedLast == (b <= buf.lwd < j) && removedLink == (b <= buf.lwd - 1 < j)
    modifies buf`last, buf`lastWithDatap, buf`spine, buf`segs, buf`lwd, buf.mem
    ensures buf.Linked() && buf.LastOk() && buf.Contents() == old(buf.Contents())
    ensures buf.spine != [] && tmp == buf.spine[0] && |buf.segs[0].data| == n && buf.segs[0].data <= buf.Contents()
    ensures Confined(at0, old(buf.spine), buf.mem.at, buf.spine)
  {
    hide Flat, Chain.View, Chain.InBounds, Seg.Good, EmptyFrom, Chained, Confined, Ptrs, Remains, Distinct, Pulled,
         Marked;
    ghost var s, cs, lwd := buf.spine, buf.segs, buf.lwd;
    ghost var at1 := buf.mem.at;
    ghost var v := Settle(buf, tmp, n, rest, pos, left, at0, j);
    PulledFlat(cs, lwd, j, left, v);
    PulledShape(cs, j, left, v);
    if rest == NULL {
      buf.last := tmp;
    }
    FirstPlaces(s, b, j, lwd, tmp);
    buf.spine, buf.segs, buf.lwd := [tmp] + s[j..], Pulled(cs, j, left, v), if lwd < j then 0 else lwd - j + 1;
    ChainedHeads(buf.mem.at, buf.spine, buf.segs);
    if removedLast {
      buf.lastWithDatap := FirstOf(buf);
    } else if removedLink {
      var next := buf.mem.at[buf.first].next;
      buf.lastWithDatap := if next != NULL && buf.mem.at[next].off != 0 then NextOf(buf.first) else FirstOf(buf);
    }
  }

  lemma FirstPlaces(s: seq<Ptr>, b: nat, j: nat, lwd: nat, tmp: Ptr)
    requires b <= 1 && b <= j <= |s| && 0 < lwd < |s| && (b == 1 ==> tmp == s[0])
    ensures j < |s| ==> ([tmp] + s[j..])[|[tmp] + s[j..]| - 1] == s[|s| - 1]
    ensures lwd - 1 >= j ==> ([tmp] + s[j..])[lwd - j] == s[lwd - 1]
  {
  }

  /** The first two chains of a list. */
  lemma ChainedHeads(at: Store, s: seq<Ptr>, cs: seq<Seg>)
    requires Chained(at, s, cs) && s != []
    ensures s[0] in at && at[s[0]].off == |cs[0].data|
    ensures if |s| == 1 then at[s[0]].next == NULL
            else at[s[0]].next == s[1] != NULL && s[1] in at && at[s[1]].off == |cs[1].data|
  {
    ChainedAt(at, s, cs, 0);
    if |s| > 1 {
      ChainedAt(at, s, cs, 1);
    }
  }

  /** Copies the last bytes, trims the chain they came from, and links `tmp` to it. */
  method Settle(buf: EvBuffer, tmp: Ptr, n: nat, rest: Ptr, pos: nat, left: nat, ghost at0: Store, ghost j: nat)
    returns (ghost v: Seg)
    requires |buf.spine| == |buf.segs| && j <= |buf.spine| && rest == HeadOf(buf.spine[j..])
    requires Chained(buf.mem.at, buf.spine[j..], buf.segs[j..]) && tmp !in buf.spine[j..] && tmp != NULL
             && tmp in buf.mem.at
    requires if j < |buf.spine| then rest != NULL && left < |buf.segs[j].data| else rest == NULL && left == 0
    requires var c := buf.mem.at[tmp];
             && c.InBounds() && c.off == n && !c.immutable && c.View().Good()
             && pos + left == c.misalign + n && c.misalign <= pos && c.buffer[c.misalign..pos] == Flat(buf.segs[..j])
    requires Remains(at0, buf.spine, buf.mem.at, buf.spine[j..], tmp)
    requires tmp in buf.spine || tmp !in at0
    modifies buf.mem
    ensures v.data == Flat(buf.segs[..j]) + (if j < |buf.segs| then buf.segs[j].data[..left] else []) && |v.data| == n
    ensures Chained(buf.mem.at, [tmp] + buf.spine[j..], Pulled(buf.segs, j, left, v))
    ensures Confined(at0, buf.spine, buf.mem.at, [tmp] + buf.spine[j..])
  {
    hide Flat, Chain.View, Seg.Good, Chained, Confined, Ptrs, Remains;
    var mem := buf.mem;
    ghost var s, cs := buf.spine, buf.segs;
    Peek(mem.at, s, cs, j);
    var data := if rest != NULL then mem.at[rest].Bytes(0, left) else [];
    var c := mem.at[tmp].Written(pos, data);
    FilledView(mem.at[tmp], c);
    v := c.View();
    ghost var at1 := mem.at;
    mem.at := mem.at[tmp := c];
    SettleRest(at0, at1, s, cs, j, tmp, c, left);
    if rest != NULL {
      mem.at := mem.at[rest := mem.at[rest].DroppedFront(left)];
    }
    mem.at := mem.at[tmp := mem.at[tmp].(next := rest)];
  }

  lemma FilledView(c0: Chain, c: Chain)
    requires c0.InBounds() && c == c0.(buffer := c.buffer) && |c.buffer| == |c0.buffer|
    ensures c.InBounds() && c.View().data == c.buffer[c.misalign..c.misalign + c.off]
    ensures c.View() == c0.View().(data := c.View().data)
    ensures c0.View().Good() ==> c.View().Good()
  {
  }

  lemma SettleRest(at0: Store, at1: Store, s: seq<Ptr>, cs: seq<Seg>, j: nat, tmp: Ptr, c: Chain, left: nat)
    requires |s| == |cs| && j <= |s| && Chained(at1, s[j..], cs[j..]) && tmp !in s[j..] && tmp != NULL && tmp in at1
    requires Remains(at0, s, at1, s[j..], tmp) && (tmp in s || tmp !in at0)
    requires c.InBounds() && c.View().Good() && (j < |s| ==> left < |cs[j].data|)
    ensures
      var at2 := at1[tmp := c];
      var t := s[j..];
      if j == |s| then
        var at3 := at2[tmp := c.(next := NULL)];
        HeadOf(t) == NULL && Chained(at3, [tmp] + t, Pulled(cs, j, left, c.View())) && Confined(at0, s, at3, [tmp] + t)
      else
        && HeadOf(t) == s[j] != NULL && s[j] in at2 && s[j] != tmp && at2[s[j]].InBounds() && left <= at2[s[j]].off
        && var at3 := at2[s[j] := at2[s[j]].DroppedFront(left)];
           var at4 := at3[tmp := c.(next := s[j])];
           && at3[tmp] == c
           && Chained(at4, [tmp] + t, Pulled(cs, j, left, c.View()))
           && Confined(at0, s, at4, [tmp] + t)
  {
    hide Chained, Confined, Ptrs, Remains, Chain.View, Chain.InBounds, Seg.Good;
    var at2 := at1[tmp := c];
    var t, ds := s[j..], cs[j..];
    PtrsIn(t);
    Peek(at1, s, cs, j);
    ChainedIn(at1, t, ds);
    ChainedFrame(at1, at2, t, ds);
    if j == |s| {
      assert [c.View()] + ds == [c.View()];
      ChainedCons(at2, tmp, t, ds);
      RemainsRewrite(at0, s, at1, t, tmp, at2[tmp := c.(next := NULL)]);
      RemainsConfined(at0, s, at2[tmp := c.(next := NULL)], t, tmp);
    } else {
      var d := at2[s[j]].DroppedFront(left);
      ChainedAt(at2, t, ds, 0);
      ChainedSet(at2, t, ds, 0, d);
      var at3 := at2[s[j] := d];
      assert t[0] == s[j];
      ChainedCons(at3, tmp, t, ds[0 := d.View()]);
      var at4 := at3[tmp := c.(next := s[j])];
      RemainsRewrite(at0, s, at1, t, tmp, at4);
      RemainsConfined(at0, s, at4, t, tmp);
    }
  }

  lemma RemainsRewrite(at0: Store, s0: seq<Ptr>, at1: Store, t: seq<Ptr>, tmp: Ptr, at2: Store)
    requires Remains(at0, s0, at1, t, tmp) && at2.Keys == at1.Keys
    requires forall p | p in at1 && p !in t && p != tmp :: at2[p] == at1[p]
    ensures Remains(at0, s0, at2, t, tmp)
  {
    assert at2 - (Ptrs(t) + {tmp}) == at1 - (Ptrs(t) + {tmp});
  }

  /** More bytes than the first segment has: the mark is further back. */
  lemma MarkBehind(cs: seq<Seg>, lwd: nat, n: nat)
    requires Marked(cs, lwd) && cs != [] && |cs[0].data| < n <= |Flat(cs)|
    ensures 0 < lwd < |cs|
    ensures cs[..1] == [cs[0]] && Flat(cs[..1]) == cs[0].data && Flat(cs[..0]) == []
    ensures |Flat(cs)| == |cs[0].data| + |Flat(cs[1..])| && cs[0..] == cs
  {
    FlatOne(cs[0]);
    FlatSplit(cs, 1);
    if lwd == 0 {
      FlatTrim(cs, 1);
    }
  }

  /** Changing only `off` of one chain, or adding a chain, next to a list. */
  lemma OffChanged(at0: Store, s: seq<Ptr>, cs: seq<Seg>, lwd: nat, b: nat, tmp: Ptr, c: Chain)
    requires |s| == |cs| && Chained(at0, s, cs) && 0 < lwd < |s| && b <= 1
    requires if b == 1 then tmp == s[0] && c.next == at0[tmp].next else tmp !in at0
    ensures var at1 := at0[tmp := c];
            && Chained(at1, s[b..], cs[b..]) && tmp !in s[b..] && Distinct(s)
            && s[lwd - 1] in at1 && at1[s[lwd - 1]].next == s[lwd]
            && s[b] == HeadOf(s[b..])
            && (b == 1 ==> tmp != NULL && tmp in at0 && at0[tmp].next == s[1])
    ensures forall at2, t | Remains(at0[tmp := c], s[b..], at2, t, tmp) :: Remains(at0, s, at2, t, tmp)
    ensures b == 0 ==> tmp !in s
  {
    hide Chained, Ptrs, Chain.View, Distinct, Remains;
    ChainedDistinct(at0, s, cs);
    var at1 := at0[tmp := c];
    ChainedDrop(at0, s, cs, b);
    ChainedAt(at0, s, cs, lwd - 1);
    ChainedIn(at0, s, cs);
    PtrsIn(s);
    PtrsIn(s[b..]);
    if b == 1 {
      ChainedAt(at0, s, cs, 0);
      PtrsFirst(s);
      HeadNotIn(s);
      assert at1 - (Ptrs(s[1..]) + {tmp}) == at0 - (Ptrs(s) + {tmp});
    } else {
      assert s[0..] == s && cs[0..] == cs;
      assert at1 - (Ptrs(s) + {tmp}) == at0 - (Ptrs(s) + {tmp});
    }
    ChainedFrame(at0, at1, s[b..], cs[b..]);
    RemainsFrom(at0, s, at1, s[b..], tmp);
  }

  lemma HeadNotIn(s: seq<Ptr>)
    requires Distinct(s) && s != []
    ensures s[0] !in s[1..]
  {
  }

  lemma ChainedDistinct(at: Store, s: seq<Ptr>, cs: seq<Seg>)
    requires Chained(at, s, cs)
    ensures Distinct(s)
  {
  }

  lemma RemainsFrom(at0: Store, s0: seq<Ptr>, at1: Store, s1: seq<Ptr>, tmp: Ptr)
    requires at1 - (Ptrs(s1) + {tmp}) == at0 - (Ptrs(s0) + {tmp})
    ensures forall at2, t | Remains(at1, s1, at2, t, tmp) :: Remains(at0, s0, at2, t, tmp)
  {
  }

  /** The first chain has room for all `n` bytes in front of its end. */
  method PullInPlace(buf: EvBuffer, n: nat)
    requires buf.Linked() && buf.LastOk() && buf.spine != [] && |buf.segs[0].data| < n <= buf.totalLen
    requires n <= buf.segs[0].cap - buf.segs[0].misalign
    modifies buf`last, buf`lastWithDatap, buf`spine, buf`segs, buf`lwd, buf.mem
    ensures buf.Linked() && buf.LastOk() && buf.Contents() == old(buf.Contents())
    ensures buf.spine != [] && |buf.segs[0].data| == n && buf.segs[0].data <= buf.Contents()
    ensures Confined(old(buf.mem.at), old(buf.spine), buf.mem.at, buf.spine)
  {
    hide Flat, Chain.View, Chain.InBounds, Seg.Good, EmptyFrom, Chained, Confined, Ptrs, Remains, Distinct;
    var mem := buf.mem;
    ghost var at0, s, cs := mem.at, buf.spine, buf.segs;
    MarkBehind(cs, buf.lwd, n);
    buf.TargetAt(0);
    var chain := buf.first;
    var c := mem.at[chain];
    Roomy(c, n);
    OffChanged(at0, s, cs, buf.lwd, 1, chain, c.(off := n));
    mem.at := mem.at[chain := c.(off := n)];
    var lastWithData := buf.Target(buf.lastWithDatap);
    var rest, pos, left, l, k, j := Gather(buf, chain, c.next, c.misalign + c.off, n - c.off, lastWithData, 1);
    SameSize(c, mem.at[chain], n);
    Finish(buf, chain, n, rest, pos, left, l, k, at0, 1, j);
  }

  /** The first `n` bytes go into a new chain. */
  method PullIntoNew(buf: EvBuffer, n: nat) returns (tmp: Ptr)
    requires buf.Linked() && buf.LastOk() && buf.spine != [] && |buf.segs[0].data| < n <= buf.totalLen
    modifies buf`first, buf`last, buf`lastWithDatap, buf`spine, buf`segs, buf`lwd, buf.mem
    ensures buf.Linked() && buf.LastOk() && buf.Contents() == old(buf.Contents())
    ensures tmp == NULL <==> n > MAX_CAP
    ensures tmp != NULL ==>
              buf.spine != [] && tmp == buf.spine[0] && |buf.segs[0].data| == n
              && buf.segs[0].data <= buf.Contents()
    ensures Confined(old(buf.mem.at), old(buf.spine), buf.mem.at, buf.spine)
  {
    hide Flat, Chain.View, Chain.InBounds, Seg.Good, EmptyFrom, Chained, Confined, Ptrs, Remains, Distinct;
    var mem := buf.mem;
    ghost var at0, s, cs := mem.at, buf.spine, buf.segs;
    MarkBehind(cs, buf.lwd, n);
    ChainedIn(at0, s, cs);
    ConfinedSame(at0, s);
    buf.TargetAt(0);
    var chain := buf.first;
    tmp := buf.NewChain(n);
    if tmp == NULL {
      return;
    }
    var c := mem.at[tmp];
    Roomy(c, n);
    OffChanged(at0, s, cs, buf.lwd, 0, tmp, c.(off := n));
    assert mem.at[tmp := c.(off := n)] == at0[tmp := c.(off := n)];
    mem.at := mem.at[tmp := c.(off := n)];
    buf.first := tmp;
    var lastWithData := buf.Target(buf.lastWithDatap);
    var rest, pos, left, l, k, j := Gather(buf, tmp, chain, c.misalign, n, lastWithData, 0);
    SameSize(c, mem.at[tmp], n);
    Finish(buf, tmp, n, rest, pos, left, l, k, at0, 0, j);
  }

  lemma Roomy(c: Chain, n: nat)
    requires c.InBounds() && c.View().Good()
    ensures c.buffer[c.misalign..c.misalign + c.off] == c.View().data
    ensures c.buffer[c.misalign..c.misalign] == []
    ensures c.immutable ==> c.misalign + c.off == |c.buffer|
  {
  }

  lemma SameSize(c0: Chain, c: Chain, n: nat)
    requires c0.InBounds() && c0.View().Good() && !c0.immutable && c0.misalign + n <= |c0.buffer|
    requires |c.buffer| == |c0.buffer| && c == c0.(off := n, buffer := c.buffer)
    ensures c.InBounds() && c.View().Good()
  {
  }

  /**
   * evbuffer_pullup: a pointer to the first `size` bytes in one piece, all of them if `size` is
   * negative; Null if there are not that many, or none are asked for.
   */
  method Pullup(buf: EvBuffer, size: int) returns (result: BytePtr)
    requires buf.Valid()
    modifies buf, buf.mem
    ensures buf.Valid() && buf.SameSettings() && buf.Contents() == old(buf.Contents())
    ensures Confined(old(buf.mem.at), old(buf.spine), buf.mem.at, buf.spine)
    ensures
      var n := if size < 0 then buf.totalLen else size;
      && (n == 0 || n > buf.totalLen ==> result == Null)
      && (0 < n <= buf.totalLen && n <= MAX_CAP ==> result.At?)
      && (result.At? ==>
            && buf.first == result.chain && result.chain in buf.mem.at
            && var c := buf.mem.at[result.chain];
               && c.misalign == result.index && c.InBounds() && n <= c.off && n <= buf.totalLen
               && c.Bytes(0, n) == buf.Contents()[..n])
    ensures old(buf.segs) != [] && 0 <= size <= |old(buf.segs)[0].data| ==> buf.segs == old(buf.segs)
  {
    hide Flat, Chain.View, Chain.InBounds, Seg.Good, EmptyFrom, Chained, Confined, Ptrs, Remains, Distinct;
    ChainedIn(buf.mem.at, buf.spine, buf.segs);
    ConfinedSame(buf.mem.at, buf.spine);
    var n := if size < 0 then buf.totalLen else size;
    if n == 0 || n > buf.totalLen {
      return Null;
    }
    SomeSegments(buf.segs);
    buf.TargetAt(0);
    var chain := buf.first;
    if buf.mem.at[chain].off < n {
      var c := buf.mem.at[chain];
      if |c.buffer| - c.misalign >= n {
        PullInPlace(buf, n);
      } else {
        chain := PullIntoNew(buf, n);
        if chain == NULL {
          return Null;
        }
      }
    } else {
      FlatSplit(buf.segs, 1);
      FlatOne(buf.segs[0]);
      assert buf.segs[..1] == [buf.segs[0]];
    }
    buf.TargetAt(0);
    result := At(buf.first, buf.mem.at[buf.first].misalign);
  }

  lemma SomeSegments(cs: seq<Seg>)
    requires Flat(cs) != []
    ensures cs != []
  {
  }
}
