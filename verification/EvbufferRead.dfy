/** Reading into the space at the end of an evbuffer. */
module EvbufferRead {
  import opened Options
  import opened Segments
  import opened Memory
  import opened BufferCallbacks
  import opened Evbuffer
  import opened EvbufferReserve
  import opened EvbufferCommit

  /** How many of `n` bytes go to position `i`, if all vectors in front of it are full. */
  ghost function Share(vecs: seq<Vec>, i: nat, n: nat): nat
    requires i < |vecs|
  {
    var before := VecTotal(vecs[..i]);
    if n <= before then 0 else if n - before <= vecs[i].len then n - before else vecs[i].len
  }

  /** Memory holds the part of `data` that belongs to vector `i`. */
  ghost predicate Holds(at: Store, vecs: seq<Vec>, i: nat, data: seq<byte>)
    requires i < |vecs|
  {
    var before, share := VecTotal(vecs[..i]), Share(vecs, i, |data|);
    share > 0 ==> before + share <= |data| && Written(at, vecs[i].(len := share)) == data[before..before + share]
  }

  /** The first `n` vectors hold what they should. */
  ghost predicate Delivered(at: Store, vecs: seq<Vec>, n: nat, data: seq<byte>)
    requires n <= |vecs|
  {
    forall i {:trigger Holds(at, vecs, i, data)} | 0 <= i < n :: Holds(at, vecs, i, data)
  }

  /** What the user or the kernel does with a vector: writing into memory that holds no data. */
  method WriteVec(buf: EvBuffer, vec: Vec, data: seq<byte>, ghost k: nat)
    requires buf.Linked() && k < |buf.spine| && InSpaceOf(vec, buf.spine[k], buf.segs[k]) && |data| <= vec.len
    modifies buf.mem
    ensures buf.Linked() && Written(buf.mem.at, vec.(len := |data|)) == data
    ensures buf.mem.at.Keys == old(buf.mem.at.Keys)
    ensures forall p | p in buf.mem.at && p != vec.chain :: buf.mem.at[p] == old(buf.mem.at[p])
    ensures Confined(old(buf.mem.at), buf.spine, buf.mem.at, buf.spine)
  {
    hide Flat, Chain.View, Chain.InBounds, Seg.Good, EmptyFrom, Chained, Confined, Ptrs, CbState.Accounts, Marked;
    var mem := buf.mem;
    ghost var at0 := mem.at;
    buf.TargetAt(k);
    ChainedIn(at0, buf.spine, buf.segs);
    var c := mem.at[vec.chain];
    SpaceBound(c, vec.len);
    var d := c.Written(vec.pos, data);
    SameData(c, d, vec.pos, data);
    ChainedSet(at0, buf.spine, buf.segs, k, d);
    ConfinedSet(at0, buf.spine, vec.chain, d);
    mem.at := mem.at[vec.chain := d];
    assert buf.segs[k := d.View()] == buf.segs;
  }

  /** Writing behind the data does not change the data. */
  lemma SameData(c: Chain, d: Chain, pos: nat, data: seq<byte>)
    requires c.InBounds() && pos >= c.misalign + c.off && pos + |data| <= |c.buffer| && d == c.Written(pos, data)
    ensures d.InBounds() && d.View() == c.View() && d.next == c.next
    ensures d.buffer[pos..pos + |data|] == data
  {
    assert d.buffer[0..pos + |data|] == c.buffer[0..pos] + data;
    assert d.buffer[..pos] == d.buffer[0..pos + |data|][..pos] == c.buffer[..pos];
    assert c.buffer[c.misalign..c.misalign + c.off] == c.buffer[..pos][c.misalign..c.misalign + c.off];
    assert d.buffer[c.misalign..c.misalign + c.off] == d.buffer[..pos][c.misalign..c.misalign + c.off];
  }

  /** Writing to the chain of vector `i` leaves what other vectors hold alone. */
  lemma KeptDelivered(at0: Store, at1: Store, vecs: seq<Vec>, i: nat, data: seq<byte>, s: seq<Ptr>, cs: seq<Seg>,
                      f: nat)
    requires Chained(at0, s, cs) && Fits(vecs, s, cs, f) && i < |vecs| && Delivered(at0, vecs, i, data)
    requires at1.Keys == at0.Keys && forall p | p in at0 && p != vecs[i].chain :: at1[p] == at0[p]
    ensures Delivered(at1, vecs, i, data)
  {
    hide Bodies, Links, Written, VecTotal;
    forall j | 0 <= j < i ensures Holds(at1, vecs, j, data) {
      assert Holds(at0, vecs, j, data);
      assert vecs[j].chain == s[f + j] != s[f + i] == vecs[i].chain;
      WrittenSame(at0, at1, vecs[j].(len := Share(vecs, j, |data|)));
    }
  }

  lemma {:induction false} TotalMore(vecs: seq<Vec>, i: nat, j: nat)
    requires i <= j <= |vecs|
    ensures VecTotal(vecs[..i]) <= VecTotal(vecs[..j])
  {
    if i < j {
      TotalMore(vecs, i, j - 1);
      AllWrittenNext(map[], vecs, j - 1);
    }
  }

  lemma AllDelivered(at: Store, vecs: seq<Vec>, i: nat, data: seq<byte>)
    requires i <= |vecs| && Delivered(at, vecs, i, data)
    requires i == |vecs| || |data| <= VecTotal(vecs[..i])
    ensures Delivered(at, vecs, |vecs|, data)
  {
    hide Written, VecTotal;
    forall j | 0 <= j < |vecs| ensures Holds(at, vecs, j, data) {
      if j >= i {
        TotalMore(vecs, i, j);
      }
    }
  }

  /** readv: the bytes go to the vectors in order. */
  method WriteAll(buf: EvBuffer, vecs: seq<Vec>, data: seq<byte>, ghost f: nat)
    requires buf.Linked() && Fits(vecs, buf.spine, buf.segs, f) && |data| <= VecTotal(vecs)
    modifies buf.mem
    ensures buf.Linked() && Delivered(buf.mem.at, vecs, |vecs|, data)
    ensures Confined(old(buf.mem.at), buf.spine, buf.mem.at, buf.spine)
  {
    hide Flat, Chain.View, Chain.InBounds, Seg.Good, EmptyFrom, Chained, Confined, Ptrs, CbState.Accounts, Marked,
         Written, VecTotal;
    var i, done := 0, 0;
    ChainedIn(buf.mem.at, buf.spine, buf.segs);
    ConfinedSame(buf.mem.at, buf.spine);
    NothingWritten(buf.mem.at, vecs);
    while i < |vecs| && done < |data|
      invariant i <= |vecs| && buf.Linked() && Delivered(buf.mem.at, vecs, i, data)
      invariant done == if |data| <= VecTotal(vecs[..i]) then |data| else VecTotal(vecs[..i])
      invariant Confined(old(buf.mem.at), buf.spine, buf.mem.at, buf.spine)
    {
      var vec, rest := vecs[i], |data| - done;
      var n := if rest < vec.len then rest else vec.len;
      ghost var at1 := buf.mem.at;
      AllWrittenNext(at1, vecs, i);
      WriteVec(buf, vec, data[done..done + n], f + i);
      KeptDelivered(at1, buf.mem.at, vecs, i, data, buf.spine, buf.segs, f);
      ConfinedTrans(old(buf.mem.at), buf.spine, at1, buf.spine, buf.mem.at, buf.spine);
      i, done := i + 1, done + n;
    }
    AllDelivered(buf.mem.at, vecs, i, data);
  }

  lemma PeekSpace(at: Store, s: seq<Ptr>, cs: seq<Seg>, k: nat)
    requires Chained(at, s, cs) && k < |s|
    ensures s[k] in at && 0 <= at[s[k]].SpaceLen() == cs[k].Space()
  {
    hide Chained;
    ChainedAt(at, s, cs, k);
  }

  lemma NextPart(data: seq<byte>, before: nat, k: nat, front: seq<byte>)
    requires before + k <= |data|
    ensures (front + data[..before]) + data[before..before + k] == front + data[..before + k]
    ensures data[before..before] == []
    ensures before + k == |data| ==> data[..before + k] == data
  {
    assert data[..before] + data[before..before + k] == data[..before + k];
  }

  lemma TakenMark(cs: seq<Seg>, k: nat)
    requires k < |cs| && EmptyFrom(cs, k + 1) && cs[k].data != []
    ensures Marked(cs, k)
  {
  }

  lemma EmptyNext(cs: seq<Seg>, k: nat)
    requires EmptyFrom(cs, k)
    ensures EmptyFrom(cs, k + 1)
  {
  }

  /** The loop of evbuffer_read that takes what has been delivered. */
  method CommitRead(buf: EvBuffer, vecs: seq<Vec>, chainp0: Link, n: nat, ghost data: seq<byte>, ghost f: nat)
    requires buf.Linked() && buf.lwd <= f && chainp0 == buf.LinkAt(f) && buf.spine != []
    requires Fits(vecs, buf.spine, buf.segs, f) && Whole(vecs, |vecs| - 1, buf.segs, f)
    requires 0 < n == |data| <= VecTotal(vecs) && Delivered(buf.mem.at, vecs, |vecs|, data)
    modifies buf`segs, buf`lwd, buf`lastWithDatap, buf.mem
    ensures Chained(buf.mem.at, buf.spine, buf.segs) && Marked(buf.segs, buf.lwd)
    ensures |buf.segs| == |buf.spine| && buf.lastWithDatap == buf.LinkAt(buf.lwd)
    ensures buf.Contents() == old(buf.Contents()) + data && |buf.Contents()| == buf.totalLen + n
    ensures Confined(old(buf.mem.at), buf.spine, buf.mem.at, buf.spine)
  {
    hide Flat, Chain.View, Chain.InBounds, Seg.Good, EmptyFrom, Chained, Confined, Ptrs, CbState.Accounts, Marked,
         Written, VecTotal, Delivered, Whole, SameBuffers, HeadOf, SameFrom, Fits;
    ghost var at0, cs, lwd := buf.mem.at, buf.segs, buf.lwd;
    ChainedIn(at0, buf.spine, cs);
    ConfinedSame(at0, buf.spine);
    NothingWritten(at0, vecs);
    MarkFrom(cs, lwd, f);
    SomeVecs(vecs);
    SameBuffersSelf(at0);
    SameFromSelf(vecs, buf.spine, cs, f);
    var chainp, remaining, i, done := chainp0, n, 0, false;
    while i < |vecs| && !done
      invariant i <= |vecs| && (done || i < |vecs|) && |buf.segs| == |buf.spine|
      invariant !done ==> 0 < remaining <= n && n - remaining == VecTotal(vecs[..i])
      invariant !done ==> chainp == buf.LinkAt(f + i)
      invariant Chained(buf.mem.at, buf.spine, buf.segs) && (!done ==> EmptyFrom(buf.segs, f + i + 1))
      invariant !done ==> SameFrom(buf.segs, cs, f + i) && f + |vecs| <= |cs|
      invariant done ==> Marked(buf.segs, buf.lwd) && buf.lastWithDatap == buf.LinkAt(buf.lwd)
      invariant buf.Contents() == old(buf.Contents()) + (if done then data else data[..n - remaining])
      invariant Confined(at0, buf.spine, buf.mem.at, buf.spine) && SameBuffers(at0, buf.mem.at)
    {
      ghost var at1, ds, before := buf.mem.at, buf.segs, n - remaining;
      SameFromHere(ds, cs, f + i);
      var space := SpaceAt(buf, chainp, f + i);
      var k := if space < remaining then space else remaining;
      PartAt(at0, at1, vecs, i, data, buf.spine, cs, f, before, k);
      NextPart(data, before, k, old(buf.Contents()));
      var next := TakePart(buf, chainp, k, f + i);
      if space < remaining {
        chainp := next;
        remaining := remaining - space;
      } else {
        buf.lastWithDatap := chainp;
        buf.lwd := f + i;
        done := true;
      }
      SameFromNext(ds, cs, f + i, buf.segs[f + i]);
      ConfinedTrans(at0, buf.spine, at1, buf.spine, buf.mem.at, buf.spine);
      SameBuffersTrans(at0, at1, buf.mem.at);
      i := i + 1;
    }
  }

  /** From position `k` on, two lists are the same. */
  ghost predicate SameFrom(ds: seq<Seg>, cs: seq<Seg>, k: nat) {
    |ds| == |cs| && forall j {:trigger ds[j]} | k <= j < |cs| :: ds[j] == cs[j]
  }

  lemma SameFromSelf(vecs: seq<Vec>, s: seq<Ptr>, cs: seq<Seg>, f: nat)
    requires Fits(vecs, s, cs, f)
    ensures SameFrom(cs, cs, f) && f + |vecs| <= |cs|
  {
  }

  lemma SameFromHere(ds: seq<Seg>, cs: seq<Seg>, k: nat)
    requires SameFrom(ds, cs, k) && k < |cs|
    ensures |ds| == |cs| && ds[k] == cs[k]
  {
  }

  lemma SameFromNext(ds: seq<Seg>, cs: seq<Seg>, k: nat, v: Seg)
    requires SameFrom(ds, cs, k) && k < |cs|
    ensures |ds| == |cs| && ds[k] == cs[k] && SameFrom(ds[k := v], cs, k + 1)
  {
  }

  lemma SameBuffersSelf(a: Store)
    ensures SameBuffers(a, a)
  {
  }

  lemma SameBuffersTrans(a: Store, b: Store, c: Store)
    requires SameBuffers(a, b) && SameBuffers(b, c)
    ensures SameBuffers(a, c)
  {
  }

  /** CHAIN_SPACE_LEN(*chainp) */
  method SpaceAt(buf: EvBuffer, chainp: Link, ghost k: nat) returns (space: nat)
    requires |buf.spine| == |buf.segs| && Chained(buf.mem.at, buf.spine, buf.segs)
    requires buf.first == HeadOf(buf.spine) && k < |buf.spine| && chainp == buf.LinkAt(k)
    ensures space == buf.segs[k].Space()
  {
    hide Chain.View, Chain.InBounds, Seg.Good, Chained;
    EvbufferMove.LinkTarget(buf, k);
    PeekSpace(buf.mem.at, buf.spine, buf.segs, k);
    space := buf.mem.at[buf.Target(chainp)].SpaceLen();
  }

  /** (*chainp)->off += n, and the link to the next chain. */
  method TakePart(buf: EvBuffer, chainp: Link, n: nat, ghost k: nat) returns (next: Link)
    requires |buf.spine| == |buf.segs| && Chained(buf.mem.at, buf.spine, buf.segs) && buf.first == HeadOf(buf.spine)
    requires k < |buf.spine| && EmptyFrom(buf.segs, k + 1) && chainp == buf.LinkAt(k) && n <= buf.segs[k].Space()
    modifies buf`segs, buf.mem
    ensures |buf.segs| == |buf.spine| && Chained(buf.mem.at, buf.spine, buf.segs)
    ensures EmptyFrom(buf.segs, k + 2) && next == buf.LinkAt(k + 1) && (n > 0 ==> Marked(buf.segs, k))
    ensures buf.segs == old(buf.segs)[k := buf.segs[k]]
    ensures var x := Written(old(buf.mem.at), Vec(buf.spine[k], old(buf.segs[k].misalign + |buf.segs[k].data|), n));
            |x| == n && buf.Contents() == old(buf.Contents()) + x
    ensures Confined(old(buf.mem.at), buf.spine, buf.mem.at, buf.spine) && SameBuffers(old(buf.mem.at), buf.mem.at)
  {
    hide Flat, Chain.View, Chain.InBounds, Seg.Good, EmptyFrom, Chained, Confined, Ptrs, Marked, Written, SameBuffers;
    EvbufferMove.LinkTarget(buf, k);
    var chain := buf.Target(chainp);
    Take(buf, chain, n, k);
    EmptyNext(buf.segs, k + 1);
    if n > 0 {
      TakenMark(buf.segs, k);
    }
    next := NextOf(chain);
  }

  /** The part of the data that is found at the chain of vector `i`. */
  lemma PartAt(at0: Store, at1: Store, vecs: seq<Vec>, i: nat, data: seq<byte>, s: seq<Ptr>, cs: seq<Seg>, f: nat,
               before: nat, k: nat)
    requires Fits(vecs, s, cs, f) && Whole(vecs, |vecs| - 1, cs, f) && i < |vecs|
    requires Delivered(at0, vecs, |vecs|, data) && SameBuffers(at0, at1)
    requires before == VecTotal(vecs[..i]) < |data| <= VecTotal(vecs)
    requires k == if cs[f + i].Space() < |data| - before then cs[f + i].Space() else |data| - before
    ensures before + k <= |data|
    ensures k > 0 ==> Written(at1, Vec(s[f + i], cs[f + i].misalign + |cs[f + i].data|, k)) == data[before..before + k]
    ensures VecTotal(vecs[..i + 1]) == before + vecs[i].len
    ensures before + k < |data| ==> i + 1 < |vecs| && k == vecs[i].len
  {
    hide VecTotal, Written, Share;
    ShareAt(vecs, i, |data|, s, cs, f);
    assert Holds(at0, vecs, i, data);
    WrittenSame(at0, at1, vecs[i].(len := k));
  }

  lemma ShareAt(vecs: seq<Vec>, i: nat, n: nat, s: seq<Ptr>, cs: seq<Seg>, f: nat)
    requires Fits(vecs, s, cs, f) && Whole(vecs, |vecs| - 1, cs, f) && i < |vecs|
    requires VecTotal(vecs[..i]) < n <= VecTotal(vecs)
    ensures
      var rest, space := n - VecTotal(vecs[..i]), cs[f + i].Space();
      && Share(vecs, i, n) == (if space < rest then space else rest)
      && VecTotal(vecs[..i + 1]) == VecTotal(vecs[..i]) + vecs[i].len
      && vecs[i].chain == s[f + i] && vecs[i].pos == cs[f + i].misalign + |cs[f + i].data|
      && (space < rest ==> i + 1 < |vecs| && space == vecs[i].len)
  {
    hide VecTotal;
    AllWrittenNext(map[], vecs, i);
    assert i == |vecs| - 1 ==> vecs[..i + 1] == vecs;
    assert InSpaceOf(vecs[i], s[f + i], cs[f + i]);
  }

  lemma SomeVecs(vecs: seq<Vec>)
    requires VecTotal(vecs) > 0
    ensures |vecs| > 0
  {
  }

  /** What evbuffer_read does: a result, or a failed EVUTIL_ASSERT. */
  datatype ReadResult = Returned(n: int) | ReadAborted

  /** How much evbuffer_read asks for: `readable` is what FIONREAD said. */
  function Asked(maxRead: nat, howmuch: int, readable: int): (n: nat)
    ensures n <= maxRead && (howmuch >= 0 ==> n <= howmuch) && (readable > 0 ==> n <= readable)
    ensures n == maxRead || n == howmuch || n == readable
  {
    var n := if readable <= 0 || readable > maxRead then maxRead else readable;
    if howmuch < 0 || howmuch > n then n else howmuch
  }

  /** What readv delivers: the first bytes of what is there, as many as were asked for. */
  function Delivery(wanted: nat, incoming: seq<byte>): (got: seq<byte>)
    ensures |got| <= wanted && got <= incoming
    ensures |got| == wanted || got == incoming
  {
    if |incoming| < wanted then incoming else incoming[..wanted]
  }

  /**
   * evbuffer_read. The socket has `incoming` to deliver, or fails; a short read is one with less to
   * deliver than is asked for.
   */
  method Read(buf: EvBuffer, maxRead: nat, howmuch: int, readable: int, incoming: seq<byte>, fails: bool)
    returns (r: ReadResult)
    requires buf.Valid() && maxRead <= INT_MAX && buf.totalLen + maxRead <= SIZE_MAX
    modifies buf, buf.mem, buf.cb
    ensures buf.Linked() && buf.LastOk() && buf.cb.Accounts(buf.totalLen) && buf.SameSettings()
    ensures Confined(old(buf.mem.at), old(buf.spine), buf.mem.at, buf.spine)
    ensures
      var wanted := Asked(maxRead, howmuch, readable);
      var got := if fails then [] else Delivery(wanted, incoming);
      if buf.freezeEnd then r == Returned(-1) && buf.Contents() == old(buf.Contents())
      else if wanted == 0 && FullTail(old(buf.segs), old(buf.lwd)) then
        r == ReadAborted && buf.Contents() == old(buf.Contents())
      else r == Returned(if fails then -1 else |got|) && buf.Contents() == old(buf.Contents()) + got
    ensures if r.Returned? && r.n > 0 then buf.cb.Reported(r.n, 0, buf.totalLen) else buf.cb.Untouched()
  {
    hide Flat, Chain.View, Chain.InBounds, Seg.Good, EmptyFrom, Chained, Confined, Ptrs, CbState.Accounts, Marked,
         VecTotal, SpaceOf, FullTail, ReportedOver;
    ChainedIn(buf.mem.at, buf.spine, buf.segs);
    ConfinedSame(buf.mem.at, buf.spine);
    if buf.freezeEnd {
      return Returned(-1);
    }
    var wanted := Asked(maxRead, howmuch, readable);
    var expanded := ExpandFast(buf, wanted, NUM_READ_IOVEC);
    var first := FirstWithSpace(buf);
    if first == NULL {
      SpaceUnfold(buf.segs, FirstWritable(buf.segs, buf.lwd), NUM_READ_IOVEC);
      return ReadAborted;
    }
    LinkedGood(buf);
    SpaceMore(buf.segs, FirstWritable(buf.segs, buf.lwd), 0, NUM_READ_IOVEC);
    SpaceUnfold(buf.segs, FirstWritable(buf.segs, buf.lwd), 0);
    var vecs, chainp := ReadSetupVecs(buf, wanted, NUM_READ_IOVEC, true);
    var got := if fails then [] else Delivery(wanted, incoming);
    if fails || |got| == 0 {
      assert buf.Contents() + [] == buf.Contents();
      return Returned(if fails then -1 else 0);
    }
    ghost var at1, s1 := buf.mem.at, buf.spine;
    ReadInto(buf, vecs, chainp, got);
    ConfinedTrans(old(buf.mem.at), old(buf.spine), at1, s1, buf.mem.at, buf.spine);
    r := Returned(|got|);
  }

  /** The delivery itself, and what evbuffer_read does about it. */
  method ReadInto(buf: EvBuffer, vecs: seq<Vec>, chainp: Link, got: seq<byte>)
    requires buf.Linked() && buf.LastOk() && buf.cb.Accounts(buf.totalLen) && buf.lwd < |buf.spine|
    requires 0 < |got| <= VecTotal(vecs) && buf.totalLen + |got| <= SIZE_MAX
    requires Fits(vecs, buf.spine, buf.segs, FirstWritable(buf.segs, buf.lwd))
    requires Whole(vecs, |vecs| - 1, buf.segs, FirstWritable(buf.segs, buf.lwd))
    requires chainp == buf.LinkAt(FirstWritable(buf.segs, buf.lwd))
    modifies buf, buf.mem, buf.cb
    ensures buf.Linked() && buf.LastOk() && buf.cb.Accounts(buf.totalLen) && buf.SameSettings()
    ensures buf.Contents() == old(buf.Contents()) + got
    ensures Confined(old(buf.mem.at), buf.spine, buf.mem.at, buf.spine) && buf.spine == old(buf.spine)
    ensures buf.cb.Reported(|got|, 0, buf.totalLen)
  {
    hide Flat, Chain.View, Chain.InBounds, Seg.Good, EmptyFrom, Chained, Confined, Ptrs, CbState.Accounts, Marked,
         VecTotal, Delivered, Fits, Whole, ReportedOver, FirstWritable;
    ReceiveInto(buf, vecs, chainp, got);
    buf.cb.ReportGrown(|got|, buf.totalLen, old(buf.totalLen));
  }

  /** The bytes have been received, and nobody has been told. */
  method ReceiveInto(buf: EvBuffer, vecs: seq<Vec>, chainp: Link, got: seq<byte>)
    requires buf.Linked() && buf.LastOk() && buf.lwd < |buf.spine|
    requires 0 < |got| <= VecTotal(vecs) && buf.totalLen + |got| <= SIZE_MAX
    requires Fits(vecs, buf.spine, buf.segs, FirstWritable(buf.segs, buf.lwd))
    requires Whole(vecs, |vecs| - 1, buf.segs, FirstWritable(buf.segs, buf.lwd))
    requires chainp == buf.LinkAt(FirstWritable(buf.segs, buf.lwd))
    modifies buf, buf.mem
    ensures buf.Linked() && buf.LastOk() && buf.SameSettings()
    ensures buf.Contents() == old(buf.Contents()) + got && buf.totalLen == old(buf.totalLen) + |got|
    ensures Confined(old(buf.mem.at), buf.spine, buf.mem.at, buf.spine) && buf.spine == old(buf.spine)
  {
    hide Flat, Chain.View, Chain.InBounds, Seg.Good, EmptyFrom, Chained, Confined, Ptrs, CbState.Accounts, Marked,
         VecTotal, Delivered, Fits, Whole;
    ghost var f := FirstWritable(buf.segs, buf.lwd);
    ghost var at0 := buf.mem.at;
    WriteAll(buf, vecs, got, f);
    ghost var at1 := buf.mem.at;
    CommitRead(buf, vecs, chainp, |got|, got, f);
    ConfinedTrans(at0, buf.spine, at1, buf.spine, buf.mem.at, buf.spine);
    buf.totalLen := buf.totalLen + |got|;
  }
}
