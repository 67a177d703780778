/**
 * The memory evbuffer chains live in. A chain is a record at an address; freeing it removes the
 * record, so every access to a chain below is an access to one that has not been freed. Addresses
 * of freed chains may be handed out again.
 */
module Memory {
  import opened Options
  import opened Segments

  const SIZE_MAX: nat := 0xffff_ffff_ffff_ffff
  const SSIZE_MAX: int := 0x7fff_ffff_ffff_ffff
  const SSIZE_MIN: int := -0x8000_0000_0000_0000

  /** Conversion of a signed number to a size_t. */
  function SizeT(n: int): nat
    requires SSIZE_MIN <= n <= SSIZE_MAX
  {
    if n < 0 then n + SIZE_MAX + 1 else n
  }

  const MIN_BUFFER_SIZE: nat := 1024

  const MAX_TO_REALIGN_IN_EXPAND: nat := 2048

  /** `n`, doubled until it is at least `total`. */
  ghost function Doublings(n: nat, total: nat): (d: nat)
    requires n > 0
    ensures d >= n && d >= total && (d == n || d < 2 * total)
    decreases total - n
  {
    if n < total then Doublings(2 * n, total) else n
  }

  /** The capacity of a new chain that is to have room for `size` bytes. */
  ghost function CapFor(size: nat): nat {
    if size + CHAIN_SIZE < CHAIN_MAX / 2 then Doublings(MIN_BUFFER_SIZE, size + CHAIN_SIZE) - CHAIN_SIZE else size
  }

  type Ptr = nat
  const NULL: Ptr := 0

  /** struct evbuffer_chain, with the bytes its `buffer` field points to. */
  datatype Chain = Chain(next: Ptr, buffer: seq<byte>, misalign: nat, off: nat, immutable: bool) {

    predicate InBounds() {
      misalign + off <= |buffer|
    }

    function View(): (v: Seg)
      ensures v.misalign == misalign && v.cap == |buffer| && v.immutable == immutable
      ensures InBounds() ==> |v.data| == off
    {
      Seg(if InBounds() then buffer[misalign..misalign + off] else [], misalign, |buffer|, immutable)
    }

    /** The `n` bytes at position `from` of the data. */
    function Bytes(from: nat, n: nat): (b: seq<byte>)
      requires InBounds() && from + n <= off
      ensures b == View().data[from..from + n]
    {
      buffer[misalign + from..misalign + from + n]
    }

    /** Overwriting memory from index `pos` on: memcpy. */
    function Written(pos: nat, data: seq<byte>): (c: Chain)
      requires pos + |data| <= |buffer|
      ensures |c.buffer| == |buffer| && c == this.(buffer := c.buffer)
      ensures forall a | 0 <= a <= pos :: c.buffer[a..pos + |data|] == buffer[a..pos] + data
    {
      this.(buffer := buffer[..pos] + data + buffer[pos + |data|..])
    }

    /** CHAIN_SPACE_LEN */
    function SpaceLen(): int {
      if immutable then 0 else |buffer| - (misalign + off)
    }

    /** Writing behind the data, at CHAIN_SPACE_PTR. */
    function Appended(data: seq<byte>): (c: Chain)
      requires InBounds() && |data| <= |buffer| - (misalign + off)
      ensures c.InBounds() && c.next == next && c.off == off + |data|
      ensures c.View() == View().(data := View().data + data)
      ensures View().Good() && !immutable ==> c.View().Good()
    {
      this.(buffer := buffer[..misalign + off] + data + buffer[misalign + off + |data|..], off := off + |data|)
    }

    /** The first `n` bytes of the free space. */
    function FreeBytes(n: nat): (b: seq<byte>)
      requires InBounds() && n <= |buffer| - (misalign + off)
      ensures |b| == n
    {
      buffer[misalign + off..misalign + off + n]
    }

    /** off += n: taking the first `n` bytes of the free space as data. */
    function Extended(n: nat): (c: Chain)
      requires InBounds() && n <= |buffer| - (misalign + off)
      ensures c.InBounds() && c.next == next && c.off == off + n && c.misalign == misalign && c.buffer == buffer
      ensures c.View() == View().(data := View().data + FreeBytes(n))
      ensures View().Good() && n <= SpaceLen() ==> c.View().Good()
    {
      this.(off := off + n)
    }

    /** Writing in front of the data, into the misalignment. */
    function Prepended(data: seq<byte>): (c: Chain)
      requires InBounds() && |data| <= misalign
      ensures c.InBounds() && c.next == next && c.off == off + |data|
      ensures c.View() == View().(data := data + View().data, misalign := misalign - |data|)
      ensures View().Good() ==> c.View().Good()
    {
      var b := buffer[..misalign - |data|] + data + buffer[misalign..];
      InFront(buffer, data, misalign, off);
      this.(buffer := b, misalign := misalign - |data|, off := off + |data|)
    }

    /** An empty chain seen as empty at its beginning rather than at its end. */
    function EmptyAtFront(): (c: Chain)
      requires InBounds() && off == 0
      ensures c.InBounds() && c.next == next && c.off == 0 && c.misalign == |buffer|
      ensures c.View() == View().(misalign := |buffer|) && c.View().data == []
      ensures View().Good() ==> c.View().Good()
    {
      this.(misalign := |buffer|)
    }

    /** An empty chain with all its memory free. */
    function EmptyAtEnd(): (c: Chain)
      requires InBounds() && off == 0
      ensures c.InBounds() && c.next == next && c.off == 0
      ensures c.View() == View().(misalign := 0) && c.View().data == []
      ensures View().Good() ==> c.View().Good() && c.View().Space() == |buffer|
    {
      this.(misalign := 0)
    }

    /** misalign += n; off -= n */
    function DroppedFront(n: nat): (c: Chain)
      requires InBounds() && n <= off
      ensures c.InBounds() && c.next == next && c.off == off - n
      ensures c.View() == View().(data := View().data[n..], misalign := misalign + n)
      ensures View().Good() && n < off ==> c.View().Good()
    {
      this.(misalign := misalign + n, off := off - n)
    }

    /** evbuffer_chain_align */
    function Aligned(): (c: Chain)
      requires InBounds()
      ensures c.InBounds() && c.next == next && c.off == off
      ensures c.View() == View().(misalign := 0)
      ensures View().Good() && !immutable ==> c.View().Good()
    {
      this.(buffer := buffer[misalign..misalign + off] + buffer[off..], misalign := 0)
    }

    /** evbuffer_chain_should_realign */
    predicate ShouldRealign(datlen: nat) {
      |buffer| - off >= datlen && off < |buffer| / 2 && off <= MAX_TO_REALIGN_IN_EXPAND
    }
  }

  lemma InFront(buffer: seq<byte>, data: seq<byte>, misalign: nat, off: nat)
    requires misalign + off <= |buffer| && |data| <= misalign
    ensures
      var b := buffer[..misalign - |data|] + data + buffer[misalign..];
      |b| == |buffer| && b[misalign - |data|..misalign + off] == data + buffer[misalign..misalign + off]
  {
  }

  type Store = map<Ptr, Chain>

  ghost function Ptrs(s: seq<Ptr>): set<Ptr> {
    set p | p in s
  }

  lemma NoPtrs()
    ensures Ptrs([]) == {}
  {
  }

  lemma {:induction false} FreshExists(s: set<Ptr>) returns (p: Ptr)
    ensures p != NULL && forall q | q in s :: q < p
  {
    if s == {} {
      p := 1;
    } else {
      var q :| q in s;
      var r := FreshExists(s - {q});
      p := if r <= q then q + 1 else r;
      forall x | x in s ensures x < p {
        assert x == q || x in s - {q};
      }
    }
  }

  class Memory {
    var at: Store

    constructor ()
      ensures at == map[]
    {
      at := map[];
    }

    /** malloc: any address not in use. */
    method Malloc(c: Chain) returns (p: Ptr)
      modifies this
      ensures p != NULL && p !in old(at) && at == old(at)[p := c]
    {
      ghost var q := FreshExists(at.Keys);
      assert q !in at;
      p :| p != NULL && p !in at;
      at := at[p := c];
    }

    /** mm_free */
    method Free(p: Ptr)
      requires p in at
      modifies this
      ensures at == old(at) - {p}
    {
      at := at - {p};
    }

    /** evbuffer_free_all_chains */
    method FreeAll(chain: Ptr, ghost s: seq<Ptr>, ghost cs: seq<Seg>)
      requires |s| == |cs| && Chained(at, s, cs) && chain == HeadOf(s)
      modifies this
      ensures at == old(at) - Ptrs(s)
    {
      hide Chained;
      var p := chain;
      ghost var t, ds := s, cs;
      while p != NULL
        invariant |t| == |ds| && Chained(at, t, ds) && p == HeadOf(t)
        invariant at - Ptrs(t) == old(at) - Ptrs(s)
        decreases |t|
      {
        FreeFirst(at, t, ds);
        var next := at[p].next;
        Free(p);
        p, t, ds := next, t[1..], ds[1..];
      }
      ChainedNull(at, t, ds);
    }

    /** evbuffer_chain_new: room for `size` bytes, rounded up to the next doubling that fits. */
    method ChainNew(size: nat) returns (p: Ptr)
      modifies this
      ensures p == NULL <==> size > MAX_CAP
      ensures p == NULL ==> at == old(at)
      ensures p != NULL ==>
                && p !in old(at) && p in at && at == old(at)[p := at[p]]
                && at[p].next == NULL && at[p].InBounds() && at[p].off == 0
                && at[p].View() == Seg([], 0, |at[p].buffer|, false) && at[p].View().Good() && !at[p].immutable
                && size <= |at[p].buffer| <= MAX_CAP && |at[p].buffer| == CapFor(size)
    {
      if size > MAX_CAP {
        return NULL;
      }
      var total := size + CHAIN_SIZE;
      var toAlloc := total;
      if total < CHAIN_MAX / 2 {
        toAlloc := MIN_BUFFER_SIZE;
        while toAlloc < total
          invariant MIN_BUFFER_SIZE <= toAlloc && Doublings(toAlloc, total) == Doublings(MIN_BUFFER_SIZE, total)
          invariant toAlloc == MIN_BUFFER_SIZE || toAlloc < 2 * total
          decreases total - toAlloc
        {
          toAlloc := toAlloc * 2;
        }
      }
      p := Malloc(Chain(NULL, seq(toAlloc - CHAIN_SIZE, _ => 0), 0, 0, false));
    }
  }

  ghost predicate Distinct(s: seq<Ptr>) {
    forall i, j | 0 <= i < j < |s| :: s[i] != s[j]
  }

  ghost predicate Bodies(at: Store, s: seq<Ptr>, cs: seq<Seg>) {
    && |s| == |cs|
    && forall i {:trigger s[i]} {:trigger cs[i]} | 0 <= i < |s| ::
         s[i] != NULL && s[i] in at && at[s[i]].InBounds() && at[s[i]].View() == cs[i] && cs[i].Good()
  }

  /** What `next` of the chain at position `i` has to be. */
  ghost function NextIn(s: seq<Ptr>, i: nat): Ptr {
    if i + 1 < |s| then s[i + 1] else NULL
  }

  ghost predicate Links(at: Store, s: seq<Ptr>) {
    forall i {:trigger NextIn(s, i)} | 0 <= i < |s| :: s[i] in at && at[s[i]].next == NextIn(s, i)
  }

  lemma LinkOf(at: Store, s: seq<Ptr>, i: nat)
    requires Links(at, s) && i < |s|
    ensures s[i] in at && at[s[i]].next == NextIn(s, i)
  {
  }

  /** `s` lists the chains of a list in order, and `cs` says what is in them. */
  ghost predicate Chained(at: Store, s: seq<Ptr>, cs: seq<Seg>) {
    |s| == |cs| && Distinct(s) && Bodies(at, s, cs) && Links(at, s)
  }

  ghost function HeadOf(s: seq<Ptr>): Ptr {
    if s == [] then NULL else s[0]
  }

  /** Looking at position `k` of a list. */
  lemma ChainedAt(at: Store, s: seq<Ptr>, cs: seq<Seg>, k: nat)
    requires Chained(at, s, cs) && k < |s|
    ensures s[k] != NULL && s[k] in at && at[s[k]].next == HeadOf(s[k + 1..])
    ensures at[s[k]].InBounds() && at[s[k]].View() == cs[k] && cs[k].Good()
    ensures at[s[k]].off == |cs[k].data|
  {
    assert at[s[k]].next == NextIn(s, k);
  }

  lemma ChainedEmpty(at: Store)
    ensures Chained(at, [], [])
  {
  }

  lemma ChainedOne(at: Store, p: Ptr)
    requires p != NULL && p in at && at[p].InBounds() && at[p].View().Good() && at[p].next == NULL
    ensures Chained(at, [p], [at[p].View()])
  {
  }

  lemma DistinctTake(s: seq<Ptr>, k: nat)
    requires Distinct(s) && k <= |s|
    ensures Distinct(s[..k])
  {
  }

  lemma LinksCut(at: Store, s: seq<Ptr>, k: nat)
    requires Links(at, s) && Distinct(s) && 0 < k <= |s|
    ensures s[k - 1] in at && Links(at[s[k - 1] := at[s[k - 1]].(next := NULL)], s[..k])
  {
    LinkOf(at, s, k - 1);
    forall i | 0 <= i < k - 1 ensures s[i] in at && at[s[i]].next == NextIn(s[..k], i) && s[i] != s[k - 1] {
      LinkOf(at, s, i);
    }
  }

  lemma BodiesTake(at: Store, s: seq<Ptr>, cs: seq<Seg>, k: nat)
    requires Bodies(at, s, cs) && k <= |s|
    ensures Bodies(at, s[..k], cs[..k]) && Bodies(at, s[k..], cs[k..])
  {
    hide Chain.View, Chain.InBounds, Seg.Good;
  }

  lemma BodiesRelink(at: Store, s: seq<Ptr>, cs: seq<Seg>, p: Ptr, q: Ptr)
    requires Bodies(at, s, cs) && p in at
    ensures Bodies(at[p := at[p].(next := q)], s, cs)
  {
    hide Chain.View, Chain.InBounds, Seg.Good;
    SameView(at[p], q);
  }

  lemma SameView(c: Chain, p: Ptr)
    ensures c.(next := p).View() == c.View() && c.(next := p).InBounds() == c.InBounds()
  {
  }

  /** The first `k` chains, once the pointer behind them is cleared. */
  lemma ChainedCut(at: Store, s: seq<Ptr>, cs: seq<Seg>, k: nat)
    requires Chained(at, s, cs) && 0 < k <= |s|
    ensures s[k - 1] in at
    ensures Chained(at[s[k - 1] := at[s[k - 1]].(next := NULL)], s[..k], cs[..k])
  {
    hide Bodies, Links, Distinct;
    assert Distinct(s[..k]) by { DistinctTake(s, k); }
    LinksCut(at, s, k);
    BodiesTake(at, s, cs, k);
    BodiesRelink(at, s[..k], cs[..k], s[k - 1], NULL);
  }

  /** The rest of a list is a list. */
  lemma ChainedDrop(at: Store, s: seq<Ptr>, cs: seq<Seg>, k: nat)
    requires Chained(at, s, cs) && k <= |s|
    ensures Chained(at, s[k..], cs[k..])
  {
    hide Bodies;
    BodiesTake(at, s, cs, k);
    forall i | 0 <= i < |s| - k ensures s[k + i] in at && at[s[k..][i]].next == NextIn(s[k..], i) {
      LinkOf(at, s, k + i);
    }
  }

  /** Only the chains of a list matter to it. */
  lemma ChainedFrame(at: Store, at': Store, s: seq<Ptr>, cs: seq<Seg>)
    requires Chained(at, s, cs)
    requires forall p | p in s :: p in at' && p in at && at'[p] == at[p]
    ensures Chained(at', s, cs)
  {
    hide Chain.View, Chain.InBounds, Seg.Good, NextIn;
  }

  lemma LinksSet(at: Store, s: seq<Ptr>, k: nat, c: Chain)
    requires Links(at, s) && Distinct(s) && k < |s| && c.next == NextIn(s, k)
    ensures Links(at[s[k] := c], s)
  {
    forall i | 0 <= i < |s| ensures s[i] in at && (at[s[k] := c])[s[i]].next == NextIn(s, i) {
      LinkOf(at, s, i);
    }
  }

  lemma BodiesSet(at: Store, s: seq<Ptr>, cs: seq<Seg>, k: nat, c: Chain)
    requires Bodies(at, s, cs) && Distinct(s) && k < |s| && c.InBounds() && c.View().Good()
    ensures Bodies(at[s[k] := c], s, cs[k := c.View()])
  {
    hide Chain.View, Chain.InBounds, Seg.Good;
  }

  /** Rewriting one chain without relinking it. */
  lemma ChainedSet(at: Store, s: seq<Ptr>, cs: seq<Seg>, k: nat, c: Chain)
    requires Chained(at, s, cs) && k < |s|
    requires c.InBounds() && c.View().Good() && c.next == HeadOf(s[k + 1..])
    ensures Chained(at[s[k] := c], s, cs[k := c.View()])
  {
    hide Bodies, Links, Distinct, Chain.View;
    LinksSet(at, s, k, c);
    BodiesSet(at, s, cs, k, c);
  }

  lemma DistinctJoin(s: seq<Ptr>, t: seq<Ptr>)
    requires Distinct(s) && Distinct(t) && Ptrs(s) !! Ptrs(t)
    ensures Distinct(s + t)
  {
    forall i, j | 0 <= i < j < |s + t| ensures (s + t)[i] != (s + t)[j] {
      if i < |s| <= j {
        assert s[i] in Ptrs(s) && t[j - |s|] in Ptrs(t);
      }
    }
  }

  lemma LinksJoin(at: Store, s: seq<Ptr>, t: seq<Ptr>)
    requires Links(at, s) && Links(at, t) && Distinct(s) && s != [] && s[|s| - 1] !in t
    ensures s[|s| - 1] in at
    ensures Links(at[s[|s| - 1] := at[s[|s| - 1]].(next := HeadOf(t))], s + t)
  {
    var n, e := |s|, s[|s| - 1];
    LinkOf(at, s, n - 1);
    forall i | 0 <= i < |s + t|
      ensures (s + t)[i] in at
      ensures if i == n - 1 then (s + t)[i] == e && NextIn(s + t, i) == HeadOf(t)
              else (s + t)[i] != e && at[(s + t)[i]].next == NextIn(s + t, i)
    {
      if i < n {
        LinkOf(at, s, i);
      } else {
        LinkOf(at, t, i - n);
        assert t[i - n] in t;
      }
    }
  }

  lemma BodiesJoin(at: Store, s: seq<Ptr>, cs: seq<Seg>, t: seq<Ptr>, ds: seq<Seg>)
    requires Bodies(at, s, cs) && Bodies(at, t, ds)
    ensures Bodies(at, s + t, cs + ds)
  {
    hide Chain.View, Chain.InBounds, Seg.Good;
  }

  /** Pointing the last chain of one list to the first chain of another. */
  lemma ChainedJoin(at: Store, s: seq<Ptr>, cs: seq<Seg>, t: seq<Ptr>, ds: seq<Seg>)
    requires Chained(at, s, cs) && Chained(at, t, ds) && Ptrs(s) !! Ptrs(t) && s != []
    ensures s[|s| - 1] in at
    ensures Chained(at[s[|s| - 1] := at[s[|s| - 1]].(next := HeadOf(t))], s + t, cs + ds)
  {
    hide Bodies, Links, Distinct;
    PtrsIn(s);
    PtrsIn(t);
    assert s[|s| - 1] in s;
    DistinctJoin(s, t);
    LinksJoin(at, s, t);
    BodiesJoin(at, s, cs, t, ds);
    BodiesRelink(at, s + t, cs + ds, s[|s| - 1], HeadOf(t));
  }

  /**
   * A change to the list `s0`, now `s1`, that leaves all other chains alone, takes only unused
   * addresses, and frees exactly the chains it drops.
   */
  ghost predicate Confined(at0: Store, s0: seq<Ptr>, at1: Store, s1: seq<Ptr>) {
    && at1.Keys == (at0.Keys - Ptrs(s0)) + Ptrs(s1)
    && (forall p | p in at0 && p !in s0 :: p in at1 && at1[p] == at0[p])
    && (forall p | p in s1 :: p in s0 || p !in at0)
  }

  /** Memory that may only be read is as it was. */
  ghost predicate ReadOnlyKept(at0: Store, at1: Store) {
    forall p | p in at0 && at0[p].immutable :: p in at1 && at1[p].immutable && at1[p].buffer == at0[p].buffer
  }

  lemma ReadOnlySet(at: Store, p: Ptr, c: Chain)
    requires p !in at || !at[p].immutable || (c.immutable && c.buffer == at[p].buffer)
    ensures ReadOnlyKept(at, at[p := c])
  {
  }

  lemma ReadOnlySame(at: Store)
    ensures ReadOnlyKept(at, at)
  {
  }

  lemma ReadOnlyTwice(at0: Store, at1: Store, at2: Store)
    requires ReadOnlyKept(at0, at1) && ReadOnlyKept(at1, at2)
    ensures ReadOnlyKept(at0, at2)
  {
  }

  lemma ReadOnlyElsewhere(at0: Store, at1: Store, s: seq<Ptr>)
    requires Confined(at0, [], at1, s)
    ensures ReadOnlyKept(at0, at1)
  {
  }

  lemma ConfinedTrans(at0: Store, s0: seq<Ptr>, at1: Store, s1: seq<Ptr>, at2: Store, s2: seq<Ptr>)
    requires Confined(at0, s0, at1, s1) && Confined(at1, s1, at2, s2)
    ensures Confined(at0, s0, at2, s2)
  {
    forall p ensures p in at2 <==> p in (at0.Keys - Ptrs(s0)) + Ptrs(s2) {
    }
  }

  lemma ConfinedSet(at: Store, s: seq<Ptr>, p: Ptr, c: Chain)
    requires p in s && forall q | q in s :: q in at
    ensures Confined(at, s, at[p := c], s)
  {
  }

  lemma ConfinedSame(at: Store, s: seq<Ptr>)
    requires forall q | q in s :: q in at
    ensures Confined(at, s, at, s)
  {
  }

  lemma ConfinedNew(at: Store, s: seq<Ptr>, p: Ptr, c: Chain)
    requires p !in at && forall q | q in s :: q in at
    ensures Confined(at, s, at[p := c], s + [p]) && Confined(at, s, at[p := c], [p] + s)
  {
  }

  lemma ConfinedFree(at: Store, s: seq<Ptr>, k: nat)
    requires k <= |s| && (forall q | q in s :: q in at) && Ptrs(s[..k]) !! Ptrs(s[k..])
    ensures Confined(at, s, at - Ptrs(s[k..]), s[..k])
    ensures Confined(at, s, at - Ptrs(s[..k]), s[k..])
  {
    assert forall q :: q in s <==> q in s[..k] || q in s[k..] by {
      assert s == s[..k] + s[k..];
    }
  }

  /** A change that does not touch chain `p`, seen as a change to the list and `p`. */
  lemma ConfinedExtra(at0: Store, s0: seq<Ptr>, at1: Store, s1: seq<Ptr>, p: Ptr)
    requires Confined(at0, s0, at1, s1) && p in at0 && p !in s0
    ensures Confined(at0, s0 + [p], at1, s1 + [p]) && p in at1 && at1[p] == at0[p] && p !in s1
  {
    forall q ensures q in at1 <==> q in (at0.Keys - Ptrs(s0 + [p])) + Ptrs(s1 + [p]) {
    }
  }

  /** A list elsewhere is not affected by a confined change. */
  lemma ConfinedElsewhere(at0: Store, s0: seq<Ptr>, at1: Store, s1: seq<Ptr>, t: seq<Ptr>, ds: seq<Seg>)
    requires Confined(at0, s0, at1, s1) && Chained(at0, t, ds) && Ptrs(s0) !! Ptrs(t)
    ensures Chained(at1, t, ds) && Ptrs(s1) !! Ptrs(t)
  {
    forall p | p in t ensures p in at0 && p in at1 && at1[p] == at0[p] && p !in s1 {
      assert p in Ptrs(t) && p !in Ptrs(s0);
    }
    ChainedFrame(at0, at1, t, ds);
  }

  lemma ChainedIn(at: Store, s: seq<Ptr>, cs: seq<Seg>)
    requires Chained(at, s, cs)
    ensures forall q | q in s :: q in at && q != NULL
  {
  }

  lemma ChainedNull(at: Store, s: seq<Ptr>, cs: seq<Seg>)
    requires Chained(at, s, cs)
    ensures HeadOf(s) == NULL <==> s == []
  {
  }

  lemma PtrsFirst(s: seq<Ptr>)
    requires s != []
    ensures Ptrs(s) == {s[0]} + Ptrs(s[1..])
  {
    assert s == [s[0]] + s[1..];
  }

  lemma PtrsIn(s: seq<Ptr>)
    ensures forall p :: p in s <==> p in Ptrs(s)
  {
  }

  lemma FreeFirst(at: Store, s: seq<Ptr>, cs: seq<Seg>)
    requires |s| == |cs| && Chained(at, s, cs) && s != []
    ensures s[0] != NULL && s[0] in at && at[s[0]].next == HeadOf(s[1..])
    ensures Chained(at - {s[0]}, s[1..], cs[1..])
    ensures at - Ptrs(s) == (at - {s[0]}) - Ptrs(s[1..])
  {
    hide Chained, Ptrs, Chain.View;
    ChainedAt(at, s, cs, 0);
    ChainedDrop(at, s, cs, 1);
    ChainedDisjoint(at, s, cs, 1);
    ChainedIn(at, s[1..], cs[1..]);
    PtrsIn(s[..1]);
    PtrsIn(s[1..]);
    PtrsFirst(s);
    assert s[..1][0] == s[0];
    ChainedFrame(at, at - {s[0]}, s[1..], cs[1..]);
  }

  lemma ChainedDisjoint(at: Store, s: seq<Ptr>, cs: seq<Seg>, k: nat)
    requires Chained(at, s, cs) && k <= |s|
    ensures Ptrs(s[..k]) !! Ptrs(s[k..])
  {
    forall p | p in s[..k] ensures p !in s[k..] {
      var i :| 0 <= i < k && s[i] == p;
      assert forall j | 0 <= j < |s| - k :: s[k..][j] == s[k + j] && s[k + j] != s[i];
    }
  }
}
