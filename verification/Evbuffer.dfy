/**
 * The evbuffer: a singly linked list of chains with three cached facts, the tail, the total
 * length, and a pointer to whatever pointer leads to the last chain with data.
 *
 * Every operation relinks the chains as the C code does. The ghost fields of a buffer name its
 * chains in order (`spine`) and say what is in them (`segs`), so that facts about the contents are
 * facts about values.
 */
module Evbuffer {
  import opened Options
  import opened Segments
  import opened Memory
  import opened BufferCallbacks

  const CHAIN_MAX_AUTO_SIZE: nat := 4096

  /** A pointer to a pointer to a chain: `&buf->first` or `&chain->next`. */
  datatype Link = FirstOf(buf: EvBuffer) | NextOf(chain: Ptr)

  class EvBuffer {
    const mem: Memory
    const cb: CbState
    var first: Ptr
    var last: Ptr
    var lastWithDatap: Link
    var totalLen: nat
    var freezeStart: bool
    var freezeEnd: bool

    ghost var spine: seq<Ptr>
    ghost var segs: seq<Seg>
    /** Position of the last chain with data. */
    ghost var lwd: nat

    constructor (mem: Memory)
      ensures this.mem == mem && Valid() && Contents() == [] && fresh(cb) && spine == []
      ensures !freezeStart && !freezeEnd && cb.callbacks == [] && cb.lens == [0]
    {
      this.mem := mem;
      first, last, totalLen, freezeStart, freezeEnd := NULL, NULL, 0, false, false;
      lastWithDatap := FirstOf(this);
      spine, segs, lwd := [], [], 0;
      cb := new CbState();
    }

    ghost function Contents(): seq<byte>
      reads this
    {
      Flat(segs)
    }

    ghost function LinkAt(k: int): Link
      reads this
    {
      if 0 < k <= |spine| then NextOf(spine[k - 1]) else FirstOf(this)
    }

    /** Everything but `last` and the callback counters. */
    ghost predicate Linked()
      reads this, mem
    {
      && |spine| == |segs| && Chained(mem.at, spine, segs)
      && first == HeadOf(spine)
      && Marked(segs, lwd) && lastWithDatap == LinkAt(lwd)
      && totalLen == |Contents()|
    }

    ghost predicate LastOk()
      reads this
    {
      last == if spine == [] then NULL else spine[|spine| - 1]
    }

    ghost predicate Valid()
      reads this, mem, cb
    {
      Linked() && LastOk() && totalLen <= SIZE_MAX && cb.Accounts(totalLen)
    }

    /** A link can be followed if it does not point into a freed chain. */
    predicate Live(l: Link)
      reads mem
    {
      match l case FirstOf(b) => b == this case NextOf(c) => c in mem.at
    }

    function Target(l: Link): Ptr
      requires Live(l)
      reads this, mem
    {
      match l case FirstOf(_) => first case NextOf(c) => mem.at[c].next
    }

    /** The link at position `k` leads to the chain at position `k`. */
    lemma TargetAt(k: nat)
      requires Linked() && k <= |spine|
      ensures Live(LinkAt(k)) && Target(LinkAt(k)) == HeadOf(spine[k..])
      ensures k < |spine| ==>
                && HeadOf(spine[k..]) == spine[k] != NULL && spine[k] in mem.at
                && mem.at[spine[k]].InBounds() && mem.at[spine[k]].View() == segs[k] && segs[k].Good()
                && mem.at[spine[k]].off == |segs[k].data|
                && mem.at[spine[k]].next == HeadOf(spine[k + 1..])
      ensures k == |spine| ==> HeadOf(spine[k..]) == NULL
    {
      hide Chained, Marked, Flat, Chain.InBounds, Chain.View, Seg.Good;
      if k > 0 {
        ChainedAt(mem.at, spine, segs, k - 1);
      }
      if k < |spine| {
        ChainedAt(mem.at, spine, segs, k);
      }
    }

    /** *link = chain */
    method Put(link: Link, chain: Ptr)
      requires Live(link)
      modifies this`first, mem
      ensures match link
              case FirstOf(_) => first == chain && mem.at == old(mem.at)
              case NextOf(c) => first == old(first) && mem.at == old(mem.at[c := mem.at[c].(next := chain)])
    {
      match link
      case FirstOf(_) => first := chain;
      case NextOf(c) => mem.at := mem.at[c := mem.at[c].(next := chain)];
    }

    /** The link to the first chain behind the data, found by walking from the end of the data. */
    method FirstVictim() returns (ch: Link)
      requires Linked()
      ensures ch == LinkAt(Keep(segs, lwd))
    {
      hide Flat, Chain.View, Chained;
      ch := lastWithDatap;
      ghost var j := lwd;
      TargetAt(j);
      while Target(ch) != NULL && mem.at[Target(ch)].off != 0
        invariant lwd <= j <= Keep(segs, lwd) && ch == LinkAt(j)
        invariant Live(ch) && Target(ch) == HeadOf(spine[j..])
        invariant j < |spine| ==>
                    spine[j] != NULL && spine[j] in mem.at && mem.at[spine[j]].off == |segs[j].data|
        decreases |spine| - j
      {
        ch := NextOf(Target(ch));
        j := j + 1;
        TargetAt(j);
      }
    }

    /**
     * evbuffer_free_trailing_empty_chains: frees the empty chains behind the data and returns where
     * the next chain goes. `last` is left for the caller to fix.
     */
    method FreeTrailing() returns (ch: Link)
      requires Linked()
      modifies this`first, this`spine, this`segs, mem
      ensures Linked() && Contents() == old(Contents())
      ensures Confined(old(mem.at), old(spine), mem.at, spine)
      ensures var k := Keep(old(segs), lwd);
              spine == old(spine[..k]) && segs == old(segs[..k]) && ch == LinkAt(k)
    {
      hide Flat, Chain.View, Chain.InBounds, Seg.Good, EmptyFrom, Chained, Confined;
      ch := FirstVictim();
      ghost var k := Keep(segs, lwd);
      TargetAt(k);
      KeepFlat(segs, lwd);
      if Target(ch) != NULL {
        CutBehind(ch, k);
      } else {
        ChainedIn(mem.at, spine, segs);
        ConfinedSame(mem.at, spine);
      }
    }

    /** Frees the chains from position `k` on and clears the pointer to them. */
    method CutBehind(ch: Link, ghost k: nat)
      requires Linked() && k <= |spine| && ch == LinkAt(k)
      modifies this`first, this`spine, this`segs, mem
      ensures spine == old(spine[..k]) && segs == old(segs[..k])
      ensures Chained(mem.at, spine, segs) && first == HeadOf(spine)
      ensures Confined(old(mem.at), old(spine), mem.at, spine)
    {
      hide Flat, Chain.View, Chain.InBounds, Seg.Good, EmptyFrom, Chained, Confined;
      TargetAt(k);
      CutFacts(mem.at, spine, segs, k);
      mem.FreeAll(Target(ch), spine[k..], segs[k..]);
      spine, segs := spine[..k], segs[..k];
      Put(ch, NULL);
    }

    /** evbuffer_chain_insert: puts a chain behind the data, in place of the empty chains there. */
    method ChainInsert(chain: Ptr)
      requires Linked() && LastOk() && chain !in spine && chain != NULL && chain in mem.at
      requires mem.at[chain].next == NULL && mem.at[chain].InBounds() && mem.at[chain].View().Good()
      modifies this`first, this`last, this`lastWithDatap, this`totalLen, this`spine, this`segs, this`lwd, mem
      ensures Linked() && LastOk()
      ensures var k, v := Keep(old(segs), old(lwd)), old(mem.at[chain].View());
              && spine == old(spine[..k]) + [chain] && segs == old(segs[..k]) + [v]
              && lwd == (if v.data != [] || k == 0 then k else old(lwd))
              && Contents() == old(Contents()) + v.data
      ensures Confined(old(mem.at), old(spine) + [chain], mem.at, spine)
    {
      hide Flat, Chain.View, Chain.InBounds, Seg.Good, EmptyFrom, Chained, Confined;
      ghost var k, v := Keep(segs, lwd), mem.at[chain].View();
      InsertFlat(segs, lwd, v);
      TargetAt(lwd);
      if Target(lastWithDatap) == NULL {
        assert spine == [] && spine[..k] + [chain] == [chain] && segs[..k] + [v] == [v];
        ChainedOne(mem.at, chain);
        ChainedIn(mem.at, [chain], [v]);
        ConfinedSame(mem.at, spine + [chain]);
        first, last := chain, chain;
        spine, segs := [chain], [v];
      } else {
        InsertBehind(chain);
      }
      totalLen := totalLen + mem.at[chain].off;
    }

    method InsertBehind(chain: Ptr)
      requires Linked() && LastOk() && chain !in spine && chain != NULL && chain in mem.at && spine != []
      requires mem.at[chain].next == NULL && mem.at[chain].InBounds() && mem.at[chain].View().Good()
      modifies this`first, this`last, this`lastWithDatap, this`spine, this`segs, this`lwd, mem
      ensures var k, v := Keep(old(segs), old(lwd)), old(mem.at[chain].View());
              && spine == old(spine[..k]) + [chain] && segs == old(segs[..k]) + [v]
              && lwd == (if v.data != [] || k == 0 then k else old(lwd))
      ensures Chained(mem.at, spine, segs) && first == HeadOf(spine) && LastOk() && lastWithDatap == LinkAt(lwd)
      ensures chain in mem.at && mem.at[chain].off == old(mem.at[chain].off)
      ensures Confined(old(mem.at), old(spine) + [chain], mem.at, spine)
    {
      hide Flat, Chain.View, Chain.InBounds, Seg.Good, EmptyFrom, Chained, Confined;
      ghost var k := Keep(segs, lwd);
      var chp := FreeTrailing();
      ConfinedExtra(old(mem.at), old(spine), mem.at, spine, chain);
      ghost var at1, s1 := mem.at, spine;
      Hang(chp, chain);
      ConfinedTrans(old(mem.at), old(spine) + [chain], at1, s1 + [chain], mem.at, spine);
      if mem.at[chain].off != 0 {
        lastWithDatap := chp;
        lwd := k;
      }
      last := chain;
    }

    /** Hangs a chain behind the last one. */
    method Hang(chp: Link, chain: Ptr)
      requires |spine| == |segs| && Chained(mem.at, spine, segs) && first == HeadOf(spine) && chp == LinkAt(|spine|)
      requires chain !in spine && chain != NULL && chain in mem.at
      requires mem.at[chain].next == NULL && mem.at[chain].InBounds() && mem.at[chain].View().Good()
      modifies this`first, this`spine, this`segs, mem
      ensures spine == old(spine) + [chain] && segs == old(segs) + [old(mem.at[chain].View())]
      ensures Chained(mem.at, spine, segs) && first == HeadOf(spine)
      ensures chain in mem.at && mem.at[chain] == old(mem.at[chain])
      ensures Confined(old(mem.at), old(spine) + [chain], mem.at, spine)
    {
      hide Flat, Chain.View, Chain.InBounds, Seg.Good, EmptyFrom, Chained, Confined;
      ghost var v := mem.at[chain].View();
      AppendFacts(mem.at, spine, segs, chain);
      Put(chp, chain);
      spine, segs := spine + [chain], segs + [v];
    }

    /** Rewrites the last chain with data so that it holds `x` more bytes at its end. */
    method Refill(c: Chain, ghost x: seq<byte>)
      requires Linked() && spine != [] && c.InBounds() && c.View().Good()
      requires spine[lwd] in mem.at && c.next == mem.at[spine[lwd]].next
      requires c.View().data == segs[lwd].data + x && c.off == mem.at[spine[lwd]].off + |x|
      modifies this`totalLen, this`segs, mem
      ensures Linked() && spine == old(spine) && lwd == old(lwd) && segs == old(segs)[lwd := c.View()]
      ensures Contents() == old(Contents()) + x
      ensures Confined(old(mem.at), old(spine), mem.at, spine)
    {
      hide Flat, Chain.View, Chain.InBounds, Seg.Good, EmptyFrom, Chained, Confined;
      TargetAt(lwd);
      var chain := Target(lastWithDatap);
      ChainedIn(mem.at, spine, segs);
      ChainedSet(mem.at, spine, segs, lwd, c);
      ConfinedSet(mem.at, spine, chain, c);
      FillAt(segs, lwd, c.View(), x);
      totalLen := totalLen + (c.off - mem.at[chain].off);
      mem.at := mem.at[chain := c];
      segs := segs[lwd := c.View()];
    }

    /** evbuffer_chain_new, for a chain that is not yet part of this buffer. */
    method NewChain(size: nat) returns (p: Ptr)
      requires Linked()
      modifies mem
      ensures Linked() && (p == NULL <==> size > MAX_CAP)
      ensures p == NULL ==> mem.at == old(mem.at)
      ensures p != NULL ==>
                && p !in spine && p !in old(mem.at) && p in mem.at && mem.at == old(mem.at)[p := mem.at[p]]
                && mem.at[p].next == NULL && mem.at[p].InBounds() && mem.at[p].off == 0
                && mem.at[p].View() == Seg([], 0, |mem.at[p].buffer|, false) && mem.at[p].View().Good()
                && !mem.at[p].immutable && size <= |mem.at[p].buffer| == CapFor(size)
                && Confined(old(mem.at), spine, mem.at, spine + [p])
                && Confined(old(mem.at), spine, mem.at, [p] + spine)
    {
      hide Flat, Chain.View, Chain.InBounds, Seg.Good, EmptyFrom, Chained, Confined;
      ChainedIn(mem.at, spine, segs);
      ghost var at0 := mem.at;
      p := mem.ChainNew(size);
      if p != NULL {
        ConfinedNew(at0, spine, p, mem.at[p]);
        ChainedFrame(at0, mem.at, spine, segs);
      }
    }

    twostate predicate SameSettings()
      reads this, cb
    {
      && freezeStart == old(freezeStart) && freezeEnd == old(freezeEnd)
      && cb.callbacks == old(cb.callbacks) && cb.deferredCbs == old(cb.deferredCbs)
    }

    /** The part of evbuffer_add that starts from the last chain with data. */
    method AddBehind(chain: Ptr, data: seq<byte>) returns (result: int)
      requires Linked() && LastOk() && spine != [] && chain == spine[lwd]
      modifies this`first, this`last, this`lastWithDatap, this`totalLen, this`spine, this`segs, this`lwd, mem
      ensures Linked() && LastOk() && result == (if |data| > MAX_CAP then -1 else 0)
      ensures Contents() == if result == 0 then old(Contents()) + data else old(Contents())
      ensures old(lwd) < |old(segs)| && !old(segs)[old(lwd)].immutable && old(segs)[old(lwd)].Space() >= |data| ==>
                result == 0 && lwd == old(lwd)
                  && segs == old(segs)[lwd := old(segs)[lwd].(data := old(segs)[lwd].data + data)]
      ensures Confined(old(mem.at), old(spine), mem.at, spine)
    {
      hide Flat, Chain.View, Chain.InBounds, Seg.Good, EmptyFrom, Chained, Confined;
      TargetAt(lwd);
      var c := mem.at[chain];
      var remain := 0;
      if !c.immutable {
        CapBound(segs[lwd]);
        remain := |c.buffer| - c.misalign - c.off;
        if remain >= |data| {
          Refill(c.Appended(data), data);
          return 0;
        } else if c.ShouldRealign(|data|) {
          Refill(c.Aligned().Appended(data), data);
          return 0;
        }
      }
      CapBound(segs[lwd]);
      var toAlloc := |c.buffer|;
      if toAlloc <= CHAIN_MAX_AUTO_SIZE / 2 {
        toAlloc := toAlloc * 2;
      }
      if |data| > toAlloc {
        toAlloc := |data|;
      }
      result := AddNewChain(chain, data, remain, toAlloc);
    }

    /** Writes `x` into the empty chain `tmp` and inserts it. */
    method InsertFilled(tmp: Ptr, x: seq<byte>)
      requires Linked() && LastOk() && tmp !in spine && tmp != NULL && tmp in mem.at
      requires var c := mem.at[tmp];
               && c.next == NULL && c.InBounds() && c.View() == Seg([], 0, |c.buffer|, false) && c.View().Good()
               && c.off == 0 && |x| <= |c.buffer|
      modifies this`first, this`last, this`lastWithDatap, this`totalLen, this`spine, this`segs, this`lwd, mem
      ensures Linked() && LastOk()
      ensures Contents() == old(Contents()) + x
      ensures Confined(old(mem.at), old(spine) + [tmp], mem.at, spine)
    {
      hide Flat, Chain.View, Chain.InBounds, Seg.Good, EmptyFrom, Chained, Confined;
      ghost var at0 := mem.at;
      var c := mem.at[tmp].Appended(x);
      ChainedIn(mem.at, spine, segs);
      ConfinedSet(mem.at, spine + [tmp], tmp, c);
      mem.at := mem.at[tmp := c];
      ChainedFrame(at0, mem.at, spine, segs);
      ChainInsert(tmp);
      ConfinedTrans(at0, old(spine) + [tmp], at0[tmp := c], old(spine) + [tmp], mem.at, spine);
    }

    /** Fills the rest of the last chain with data. */
    method FillRest(chain: Ptr, x: seq<byte>)
      requires Linked() && spine != [] && chain == spine[lwd] && x != []
      requires !segs[lwd].immutable && segs[lwd].Space() == |x|
      modifies this`totalLen, this`segs, mem
      ensures Linked() && spine == old(spine) && lwd == old(lwd)
      ensures Contents() == old(Contents()) + x
      ensures Confined(old(mem.at), old(spine), mem.at, spine)
    {
      hide Flat, Chain.View, Chain.InBounds, Seg.Good, EmptyFrom, Chained, Confined;
      TargetAt(lwd);
      Refill(mem.at[chain].Appended(x), x);
    }

    /** Fills the rest of the last chain with data and puts what is left into a new chain. */
    method AddNewChain(chain: Ptr, data: seq<byte>, remain: nat, toAlloc: nat) returns (result: int)
      requires Linked() && LastOk() && spine != [] && chain == spine[lwd]
      requires |data| <= toAlloc && remain <= |data|
      requires remain > 0 ==> !segs[lwd].immutable && segs[lwd].Space() == remain
      modifies this`first, this`last, this`lastWithDatap, this`totalLen, this`spine, this`segs, this`lwd, mem
      ensures Linked() && LastOk() && result == (if toAlloc > MAX_CAP then -1 else 0)
      ensures Contents() == if result == 0 then old(Contents()) + data else old(Contents())
      ensures Confined(old(mem.at), old(spine), mem.at, spine)
    {
      hide Flat, Chain.View, Chain.InBounds, Seg.Good, EmptyFrom, Chained, Confined, Marked, Ptrs;
      ChainedIn(mem.at, spine, segs);
      ConfinedSame(mem.at, spine);
      var tmp := NewChain(toAlloc);
      if tmp == NULL {
        return -1;
      }
      ghost var at1 := mem.at;
      if remain != 0 {
        FillRest(chain, data[..remain]);
      } else {
        ChainedIn(mem.at, spine, segs);
        ConfinedSame(mem.at, spine);
      }
      ConfinedExtra(at1, spine, mem.at, spine, tmp);
      ConfinedTrans(old(mem.at), spine, at1, spine + [tmp], mem.at, spine + [tmp]);
      ghost var at2 := mem.at;
      InsertFilled(tmp, data[remain..]);
      ConfinedTrans(old(mem.at), old(spine), at2, old(spine) + [tmp], mem.at, spine);
      assert data == data[..remain] + data[remain..];
      result := 0;
    }

    /** The last chain with data; in a buffer without chains, a new one with room for `n` bytes. */
    method ChainForAdd(n: nat) returns (chain: Ptr)
      requires Linked() && LastOk()
      modifies this`first, this`last, this`lastWithDatap, this`totalLen, this`spine, this`segs, this`lwd, mem
      ensures Linked() && LastOk() && Contents() == old(Contents())
      ensures chain == NULL ==> n > MAX_CAP && mem.at == old(mem.at) && spine == old(spine)
      ensures chain != NULL ==> spine != [] && chain == spine[lwd]
      ensures chain != NULL && old(spine) == [] ==> segs == [Seg([], 0, CapFor(n), false)] && lwd == 0
      ensures Confined(old(mem.at), old(spine), mem.at, spine)
    {
      hide Flat, Chain.View, Chain.InBounds, Seg.Good, EmptyFrom, Chained, Confined, CbState.Accounts;
      ChainedIn(mem.at, spine, segs);
      ConfinedSame(mem.at, spine);
      TargetAt(lwd);
      chain := if Target(lastWithDatap) == NULL then last else Target(lastWithDatap);
      if chain == NULL {
        chain := NewChain(n);
        if chain == NULL {
          return;
        }
        ghost var at1 := mem.at;
        ChainInsert(chain);
        ConfinedTrans(old(mem.at), old(spine), at1, old(spine) + [chain], mem.at, spine);
      }
    }

    /** The part of evbuffer_add between its checks and its callbacks. */
    method AddData(data: seq<byte>) returns (result: int)
      requires Linked() && LastOk()
      modifies this`first, this`last, this`lastWithDatap, this`totalLen, this`spine, this`segs, this`lwd, mem
      ensures Linked() && LastOk() && result == (if |data| > MAX_CAP then -1 else 0)
      ensures Contents() == if result == 0 then old(Contents()) + data else old(Contents())
      ensures result == 0 && old(spine) == [] ==> segs == [Seg(data, 0, CapFor(|data|), false)] && lwd == 0
      ensures Confined(old(mem.at), old(spine), mem.at, spine)
    {
      hide Flat, Chain.View, Chain.InBounds, Seg.Good, EmptyFrom, Chained, Confined;
      ChainedIn(mem.at, spine, segs);
      ConfinedSame(mem.at, spine);
      var chain := ChainForAdd(|data|);
      if chain == NULL {
        return -1;
      }
      ghost var at1, s1 := mem.at, spine;
      OnlySegment(data, CapFor(|data|));
      result := AddBehind(chain, data);
      ConfinedTrans(old(mem.at), old(spine), at1, s1, mem.at, spine);
    }

    /** evbuffer_add */
    method Add(data: seq<byte>) returns (result: int)
      requires Valid()
      modifies this, mem, cb
      ensures Valid() && SameSettings() && Confined(old(mem.at), old(spine), mem.at, spine)
      ensures result == if freezeEnd || |data| > SIZE_MAX - old(totalLen) || |data| > MAX_CAP then -1 else 0
      ensures Contents() == if result == 0 then old(Contents()) + data else old(Contents())
      ensures result == 0 && old(spine) == [] ==> segs == [Seg(data, 0, CapFor(|data|), false)] && lwd == 0
      ensures if result == 0 then cb.Reported(|data|, 0, totalLen) else cb.Untouched()
    {
      hide Flat, Chain.View, Chain.InBounds, Seg.Good, EmptyFrom, Chained, Confined, CbState.Accounts,
           ReportedOver;
      ChainedIn(mem.at, spine, segs);
      ConfinedSame(mem.at, spine);
      if freezeEnd {
        return -1;
      }
      if |data| > SIZE_MAX - totalLen {
        return -1;
      }
      result := AddData(data);
      if result == -1 {
        return;
      }
      cb.ReportGrown(|data|, totalLen, old(totalLen));
    }

    /** A chain for memory that is only read, at the end of the list. */
    method InsertReference(data: seq<byte>)
      requires Linked() && LastOk() && |data| <= MAX_CAP
      modifies this`first, this`last, this`lastWithDatap, this`totalLen, this`spine, this`segs, this`lwd, mem
      ensures Linked() && LastOk() && Contents() == old(Contents()) + data
      ensures segs == old(segs[..Keep(segs, lwd)]) + [Seg(data, 0, |data|, true)]
      ensures Confined(old(mem.at), old(spine), mem.at, spine)
    {
      hide Flat, Chain.View, Chain.InBounds, Seg.Good, EmptyFrom, Chained, Confined, CbState.Accounts, Marked;
      ghost var at0 := mem.at;
      ChainedIn(at0, spine, segs);
      var c := Chain(NULL, data, 0, |data|, true);
      ReferenceView(c);
      var chain := mem.Malloc(c);
      ConfinedNew(at0, spine, chain, c);
      ChainedFrame(at0, mem.at, spine, segs);
      ghost var at1 := mem.at;
      ChainInsert(chain);
      ConfinedTrans(at0, old(spine), at1, old(spine) + [chain], mem.at, spine);
    }

    /**
     * evbuffer_add_reference: `data` stays where it is and is only read. The total is not checked, and
     * the buffer is in order afterwards if and only if it has not gone around.
     */
    method AddReference(data: seq<byte>) returns (result: int)
      requires Valid() && |data| <= MAX_CAP
      modifies this, mem, cb
      ensures LastOk() && SameSettings() && Confined(old(mem.at), old(spine), mem.at, spine)
      ensures |spine| == |segs| && Chained(mem.at, spine, segs) && Marked(segs, lwd) && lastWithDatap == LinkAt(lwd)
      ensures result == if freezeEnd then -1 else 0
      ensures Contents() == if result == 0 then old(Contents()) + data else old(Contents())
      ensures segs == if result == 0 then old(segs[..Keep(segs, lwd)]) + [Seg(data, 0, |data|, true)] else old(segs)
      ensures totalLen == |Contents()| % (SIZE_MAX + 1) && cb.Accounts(totalLen)
      ensures Valid() <==> result == -1 || old(totalLen) + |data| <= SIZE_MAX
      ensures if result == 0 then cb.Reported(|data|, 0, totalLen) else cb.Untouched()
    {
      hide Flat, Chain.View, Chain.InBounds, Seg.Good, EmptyFrom, Chained, Confined, CbState.Accounts, Marked,
           ReportedOver;
      ChainedIn(mem.at, spine, segs);
      ConfinedSame(mem.at, spine);
      if freezeEnd {
        return -1;
      }
      InsertReference(data);
      totalLen := totalLen % (SIZE_MAX + 1);
      cb.ReportGrown(|data|, totalLen, old(totalLen));
      result := 0;
    }

    /** Rewrites the first chain so that it holds `x` more bytes in front. */
    method RefillFirst(c: Chain, ghost x: seq<byte>)
      requires Linked() && spine != [] && c.InBounds() && c.View().Good()
      requires spine[0] in mem.at && c.next == mem.at[spine[0]].next
      requires c.View().data == x + segs[0].data && c.off == mem.at[spine[0]].off + |x|
      modifies this`totalLen, this`segs, mem
      ensures Linked() && spine == old(spine) && segs == old(segs[0 := c.View()])
      ensures Contents() == x + old(Contents())
      ensures mem.at == old(mem.at[spine[0] := c])
      ensures Confined(old(mem.at), old(spine), mem.at, spine)
    {
      hide Flat, Chain.View, Chain.InBounds, Seg.Good, EmptyFrom, Chained, Confined, CbState.Accounts;
      TargetAt(0);
      ChainedIn(mem.at, spine, segs);
      ChainedSet(mem.at, spine, segs, 0, c);
      ConfinedSet(mem.at, spine, first, c);
      FillFirst(segs, lwd, c.View(), x);
      totalLen := totalLen + (c.off - mem.at[first].off);
      mem.at := mem.at[first := c];
      segs := segs[0 := c.View()];
    }

    /** Puts the chain `tmp`, which holds data, in front of the first chain. */
    method PushChain(tmp: Ptr)
      requires Linked() && LastOk() && spine != [] && tmp !in spine && tmp != NULL && tmp in mem.at
      requires mem.at[tmp].next == NULL && mem.at[tmp].InBounds() && mem.at[tmp].View().Good() && mem.at[tmp].off > 0
      modifies this`first, this`lastWithDatap, this`totalLen, this`spine, this`segs, this`lwd, mem
      ensures Linked() && LastOk()
      ensures Contents() == old(mem.at[tmp].View().data) + old(Contents())
      ensures mem.at == old(mem.at[tmp := mem.at[tmp].(next := first)])
      ensures Confined(old(mem.at), [tmp] + old(spine), mem.at, spine)
    {
      hide Flat, Chain.View, Chain.InBounds, Seg.Good, EmptyFrom, Chained, Confined, CbState.Accounts;
      ghost var v := mem.at[tmp].View();
      TargetAt(0);
      var chain := first;
      PushFirst(segs, lwd, v);
      PrependFacts(mem.at, spine, segs, tmp);
      first := tmp;
      if lastWithDatap == FirstOf(this) && mem.at[chain].off != 0 {
        lastWithDatap := NextOf(tmp);
      }
      lwd := if segs[lwd].data == [] then 0 else lwd + 1;
      mem.at := mem.at[tmp := mem.at[tmp].(next := chain)];
      spine, segs := [tmp] + spine, [v] + segs;
      totalLen := totalLen + mem.at[tmp].off;
    }

    /** Writes as much of the end of `data` as fits in front of the first chain's data. */
    method PrependIntoFirst(data: seq<byte>) returns (left: nat)
      requires Linked() && spine != [] && data != []
      modifies this`totalLen, this`segs, mem
      ensures left <= |data|
      ensures Linked() && spine == old(spine)
      ensures Contents() == data[left..] + old(Contents())
      ensures Confined(old(mem.at), old(spine), mem.at, spine) && ReadOnlyKept(old(mem.at), mem.at)
    {
      hide Flat, Chain.View, Chain.InBounds, Seg.Good, EmptyFrom, Chained, Confined, CbState.Accounts, ReadOnlyKept;
      TargetAt(0);
      ChainedIn(mem.at, spine, segs);
      ConfinedSame(mem.at, spine);
      var c := mem.at[first];
      ReadOnlySame(mem.at);
      left := |data|;
      if !c.immutable {
        if c.off == 0 {
          c := c.EmptyAtFront();
        }
        if c.misalign >= |data| {
          c := c.Prepended(data);
          left := 0;
        } else if c.misalign > 0 {
          left := |data| - c.misalign;
          c := c.Prepended(data[left..]);
        }
        ReadOnlySet(mem.at, first, c);
        RefillFirst(c, data[left..]);
      } else {
        assert data[left..] + Contents() == Contents();
      }
    }

    /** Writes `x` at the end of the empty chain `tmp` and puts it in front. */
    method PrependChain(tmp: Ptr, x: seq<byte>)
      requires Linked() && LastOk() && spine != [] && tmp !in spine && tmp != NULL && tmp in mem.at && x != []
      requires var c := mem.at[tmp];
               && c.next == NULL && c.InBounds() && c.View() == Seg([], 0, |c.buffer|, false) && c.View().Good()
               && c.off == 0 && |x| <= |c.buffer|
      modifies this`first, this`lastWithDatap, this`totalLen, this`spine, this`segs, this`lwd, mem
      ensures Linked() && LastOk()
      ensures Contents() == x + old(Contents())
      ensures tmp in mem.at && mem.at == old(mem.at)[tmp := mem.at[tmp]]
      ensures Confined(old(mem.at), [tmp] + old(spine), mem.at, spine)
    {
      hide Flat, Chain.View, Chain.InBounds, Seg.Good, EmptyFrom, Chained, Confined, CbState.Accounts;
      ghost var at0 := mem.at;
      var c := mem.at[tmp].EmptyAtFront().Prepended(x);
      ChainedIn(mem.at, spine, segs);
      ConfinedSet(mem.at, [tmp] + spine, tmp, c);
      mem.at := mem.at[tmp := c];
      ChainedFrame(at0, mem.at, spine, segs);
      PushChain(tmp);
      ConfinedTrans(at0, [tmp] + old(spine), at0[tmp := c], [tmp] + old(spine), mem.at, spine);
    }

    /** Puts `x` into a new chain in front of the first one. */
    method PrependRest(x: seq<byte>) returns (ok: bool)
      requires Linked() && LastOk() && spine != [] && x != []
      modifies this`first, this`lastWithDatap, this`totalLen, this`spine, this`segs, this`lwd, mem
      ensures Linked() && LastOk() && ok == (|x| <= MAX_CAP)
      ensures Contents() == if ok then x + old(Contents()) else old(Contents())
      ensures Confined(old(mem.at), old(spine), mem.at, spine) && ReadOnlyKept(old(mem.at), mem.at)
    {
      hide Flat, Chain.View, Chain.InBounds, Seg.Good, EmptyFrom, Chained, Confined, CbState.Accounts, ReadOnlyKept;
      ChainedIn(mem.at, spine, segs);
      ConfinedSame(mem.at, spine);
      ghost var at0 := mem.at;
      ReadOnlySame(at0);
      var tmp := NewChain(|x|);
      if tmp == NULL {
        return false;
      }
      ghost var at1 := mem.at;
      PrependChain(tmp, x);
      ReadOnlySet(at0, tmp, mem.at[tmp]);
      assert mem.at == at0[tmp := mem.at[tmp]];
      ConfinedTrans(at0, old(spine), at1, [tmp] + old(spine), mem.at, spine);
      ok := true;
    }

    /** The part of evbuffer_prepend behind its checks; `left` bytes did not find room. */
    method PrependData(data: seq<byte>) returns (left: nat)
      requires Linked() && LastOk() && data != []
      modifies this`first, this`last, this`lastWithDatap, this`totalLen, this`spine, this`segs, this`lwd, mem
      ensures Linked() && LastOk() && left <= |data| && (left > 0 ==> |data| > MAX_CAP)
      ensures Contents() == data[left..] + old(Contents())
      ensures Confined(old(mem.at), old(spine), mem.at, spine) && ReadOnlyKept(old(mem.at), mem.at)
    {
      hide Flat, Chain.View, Chain.InBounds, Seg.Good, EmptyFrom, Chained, Confined, Ptrs, Marked, HeadOf,
           CbState.Accounts, ReadOnlyKept;
      ReadOnlySame(mem.at);
      TargetAt(0);
      if first == NULL {
        var chain := ChainForAdd(|data|);
        if chain == NULL {
          Rejoin(data, |data|, old(Contents()));
          return |data|;
        }
        ReadOnlyElsewhere(old(mem.at), mem.at, spine);
      } else {
        ChainedIn(mem.at, spine, segs);
        ConfinedSame(mem.at, spine);
      }
      ghost var at1, s1 := mem.at, spine;
      left := PrependIntoFirst(data);
      ReadOnlyTwice(old(mem.at), at1, mem.at);
      ConfinedTrans(old(mem.at), old(spine), at1, s1, mem.at, spine);
      if left > 0 {
        ghost var at2, s2 := mem.at, spine;
        var ok := PrependRest(data[..left]);
        ReadOnlyTwice(old(mem.at), at2, mem.at);
        ConfinedTrans(old(mem.at), old(spine), at2, s2, mem.at, spine);
        if ok {
          Rejoin(data, left, old(Contents()));
          left := 0;
        }
      }
    }

    /**
     * evbuffer_prepend. If it fails for lack of a chain large enough, it may already have put the
     * end of `data` in front of the first chain.
     */
    method Prepend(data: seq<byte>) returns (result: int)
      requires Valid()
      modifies this, mem, cb
      ensures Valid() && SameSettings() && Confined(old(mem.at), old(spine), mem.at, spine)
      ensures ReadOnlyKept(old(mem.at), mem.at)
      ensures result == 0 || result == -1
      ensures result == 0 <== |data| == 0 || (!freezeStart && |data| <= SIZE_MAX - old(totalLen) && |data| <= MAX_CAP)
      ensures result == 0 ==> Contents() == data + old(Contents())
      ensures result == -1 ==> freezeStart || |data| > SIZE_MAX - old(totalLen) || |data| > MAX_CAP
      ensures |data| > 0 && (freezeStart || |data| > SIZE_MAX - old(totalLen)) ==>
                result == -1 && Contents() == old(Contents()) && totalLen == old(totalLen) && cb.Untouched()
      ensures result == -1 ==> exists k | 0 <= k <= |data| :: Contents() == data[k..] + old(Contents())
      ensures result == 0 ==> if |data| == 0 then cb.Untouched() else cb.Reported(|data|, 0, totalLen)
      ensures result == -1 ==>
                && cb.calls == old(cb.calls) && cb.scheduled == old(cb.scheduled) && cb.nDel == old(cb.nDel)
                && totalLen >= old(totalLen) && cb.nAdd == (old(cb.nAdd) + (totalLen - old(totalLen))) % WRAP
    {
      hide Flat, Chain.View, Chain.InBounds, Seg.Good, EmptyFrom, Chained, Confined, CbState.Accounts,
           ReadOnlyKept, ReportedOver;
      ReadOnlySame(mem.at);
      ChainedIn(mem.at, spine, segs);
      ConfinedSame(mem.at, spine);
      assert data[|data|..] + Contents() == Contents();
      cb.CountersFit(totalLen);
      if |data| == 0 {
        return 0;
      }
      if freezeStart {
        return -1;
      }
      if |data| > SIZE_MAX - totalLen {
        return -1;
      }
      var left := PrependData(data);
      if left > 0 {
        cb.Grew(|data| - left, old(totalLen));
        return -1;
      }
      assert data[0..] == data;
      cb.ReportGrown(|data|, totalLen, old(totalLen));
      result := 0;
    }

    /** Frees every chain: evbuffer_free_all_chains and ZERO_CHAIN. */
    method FreeEverything()
      requires Linked()
      modifies this`first, this`last, this`lastWithDatap, this`totalLen, this`spine, this`segs, this`lwd, mem
      ensures Linked() && LastOk() && spine == [] && Contents() == [] && totalLen == 0
      ensures Confined(old(mem.at), old(spine), mem.at, spine)
      ensures mem.at == old(mem.at) - Ptrs(old(spine))
    {
      hide Flat, Chain.View, Chain.InBounds, Seg.Good, EmptyFrom, Chained, Confined, CbState.Accounts;
      CutFacts(mem.at, spine, segs, 0);
      assert spine[0..] == spine && segs[0..] == segs;
      mem.FreeAll(first, spine, segs);
      first, last, totalLen := NULL, NULL, 0;
      lastWithDatap := FirstOf(this);
      spine, segs, lwd := [], [], 0;
      NoSegments();
    }

    /** One chain goes: `lastWithDatap` must not be left pointing into it. */
    method PassChain(chain: Ptr, ghost j: nat)
      requires j < lwd < |spine| == |segs| && chain == spine[j] && first == spine[0]
      requires chain in mem.at && Chained(mem.at, spine[j..], segs[j..])
      requires lastWithDatap == LinkAt(lwd)
      modifies this`lastWithDatap, mem
      ensures mem.at == old(mem.at) - {chain}
      ensures lastWithDatap == if j + 1 == lwd then FirstOf(this) else LinkAt(lwd)
    {
      hide Flat, Chain.View, Chain.InBounds, Seg.Good, EmptyFrom, Chained, Confined, CbState.Accounts;
      LinkAhead(mem.at, spine, segs, j, lwd);
      lastWithDatap := if chain == Target(lastWithDatap) then FirstOf(this) else lastWithDatap;
      lastWithDatap := if lastWithDatap == NextOf(chain) then FirstOf(this) else lastWithDatap;
      mem.Free(chain);
    }

    /**
     * The loop of evbuffer_drain: frees the chains all of whose bytes go, and keeps
     * `lastWithDatap` from pointing into one of them. It stops at a chain with bytes left over.
     */
    method FreeDrained(len: nat) returns (chain: Ptr, remaining: nat, ghost j: nat)
      requires Linked() && len < totalLen
      modifies this`lastWithDatap, mem
      ensures j <= lwd < |spine| && chain == spine[j]
      ensures len == |Flat(segs[..j])| + remaining && remaining < |segs[j].data|
      ensures mem.at == old(mem.at) - Ptrs(spine[..j])
      ensures lastWithDatap == if 0 < lwd == j then FirstOf(this) else LinkAt(lwd)
      ensures Chained(mem.at, spine[j..], segs[j..])
    {
      hide Flat, Chain.View, Chain.InBounds, Seg.Good, EmptyFrom, Chained, Confined, CbState.Accounts, Marked, Ptrs,
           HeadOf;
      if spine == [] {
        NoSegments();
      }
      NothingPassed(segs);
      NoPtrs();
      MarkBelow(segs, lwd);
      chain, remaining, j := first, len, 0;
      assert spine[0..] == spine && segs[0..] == segs && spine[..0] == [];
      TargetAt(0);
      WalkStep(segs, lwd, 0, len);
      DrainAt(mem.at, spine, segs, 0);
      while remaining >= mem.at[chain].off
        invariant j <= lwd < |spine| && chain == spine[j] && chain in mem.at
        invariant mem.at[chain].off == |segs[j].data| && mem.at[chain].next == HeadOf(spine[j + 1..])
        invariant len == |Flat(segs[..j])| + remaining
        invariant remaining >= |segs[j].data| ==> j < lwd
        invariant mem.at == old(mem.at) - Ptrs(spine[..j]) && Chained(mem.at, spine[j..], segs[j..])
        invariant lastWithDatap == if 0 < lwd == j then FirstOf(this) else LinkAt(lwd)
        decreases lwd - j
      {
        var next := mem.at[chain].next;
        remaining := remaining - mem.at[chain].off;
        DrainAt(mem.at, spine, segs, j);
        PassChain(chain, j);
        WalkStep(segs, lwd, j, len);
        chain, j := next, j + 1;
        DrainAt(mem.at, spine, segs, j);
        WalkStep(segs, lwd, j, len);
      }
    }

    /** evbuffer_drain, when data remains. */
    method DrainSome(len: nat)
      requires Linked() && LastOk() && len < totalLen
      modifies this`first, this`lastWithDatap, this`totalLen, this`spine, this`segs, this`lwd, mem
      ensures Linked() && LastOk()
      ensures Contents() == old(Contents())[len..]
      ensures Confined(old(mem.at), old(spine), mem.at, spine)
    {
      hide Flat, Chain.View, Chain.InBounds, Seg.Good, EmptyFrom, Chained, Confined, CbState.Accounts;
      var chain, remaining, j := FreeDrained(len);
      DrainAt(mem.at, spine, segs, j);
      var c := mem.at[chain].DroppedFront(remaining);
      DropFirst(segs, lwd, j, remaining, c.View());
      DrainedFacts(old(mem.at), spine, segs, j, mem.at, c);
      totalLen := totalLen - len;
      first := chain;
      mem.at := mem.at[chain := c];
      spine, segs, lwd := spine[j..], segs[j..][0 := c.View()], lwd - j;
    }

    /** evbuffer_drain */
    method Drain(len: nat) returns (result: int)
      requires Valid()
      modifies this, mem, cb
      ensures Valid() && SameSettings() && Confined(old(mem.at), old(spine), mem.at, spine)
      ensures result == if freezeStart && old(totalLen) != 0 then -1 else 0
      ensures Contents() == if result == -1 then old(Contents())
                            else if len >= old(totalLen) then []
                            else old(Contents())[len..]
      ensures if result == -1 || old(totalLen) == 0 then cb.Untouched()
              else cb.Reported(0, old(totalLen) - totalLen, totalLen)
    {
      hide Flat, Chain.View, Chain.InBounds, Seg.Good, EmptyFrom, Chained, Confined, CbState.Accounts,
           ReportedOver;
      ChainedIn(mem.at, spine, segs);
      ConfinedSame(mem.at, spine);
      if totalLen == 0 {
        return 0;
      }
      if freezeStart {
        return -1;
      }
      var n := len;
      if len >= totalLen {
        n := totalLen;
        FreeEverything();
      } else {
        DrainSome(len);
      }
      cb.ReportShrunk(n, totalLen, old(totalLen));
      result := 0;
    }
  }

  lemma Rejoin(data: seq<byte>, k: nat, rest: seq<byte>)
    requires k <= |data|
    ensures data[..k] + (data[k..] + rest) == data[0..] + rest
    ensures data[|data|..] + rest == rest
  {
  }

  lemma CutFacts(at: Store, s: seq<Ptr>, cs: seq<Seg>, k: nat)
    requires Chained(at, s, cs) && k <= |s| == |cs|
    ensures Chained(at, s[k..], cs[k..])
    ensures var rest := at - Ptrs(s[k..]);
      if k == 0 then Chained(rest, [], []) && Confined(at, s, rest, [])
      else
        var p := s[k - 1];
        && p in rest && Chained(rest[p := rest[p].(next := NULL)], s[..k], cs[..k])
        && Confined(at, s, rest[p := rest[p].(next := NULL)], s[..k])
  {
    hide Chained, Confined, Chain.View;
    ChainedDrop(at, s, cs, k);
    ChainedDisjoint(at, s, cs, k);
    ChainedIn(at, s, cs);
    ConfinedFree(at, s, k);
    var rest := at - Ptrs(s[k..]);
    assert forall q | q in s[..k] :: q in Ptrs(s[..k]);
    if k == 0 {
      assert s[..0] == [] && cs[..0] == [];
      ChainedEmpty(rest);
    } else {
      var p := s[k - 1];
      ChainedCut(at, s, cs, k);
      assert p in s[..k];
      var cut := rest[p := rest[p].(next := NULL)];
      ChainedFrame(at[p := at[p].(next := NULL)], cut, s[..k], cs[..k]);
      ConfinedSet(rest, s[..k], p, rest[p].(next := NULL));
      ConfinedTrans(at, s, rest, s[..k], cut, s[..k]);
    }
  }

  lemma OnlySegment(data: seq<byte>, cap: nat)
    ensures [Seg([], 0, cap, false)][0 := Seg([] + data, 0, cap, false)] == [Seg(data, 0, cap, false)]
  {
    assert [] + data == data;
  }

  /** Hanging the chain `p` behind the last chain of a list. */
  lemma AppendFacts(at: Store, s: seq<Ptr>, cs: seq<Seg>, p: Ptr)
    requires |s| == |cs| && Chained(at, s, cs) && p !in s && p != NULL
    requires p in at && at[p].next == NULL && at[p].InBounds() && at[p].View().Good()
    ensures
      var v := at[p].View();
      if s == [] then Chained(at, s + [p], cs + [v]) && Confined(at, s + [p], at, s + [p])
      else
        var e := s[|s| - 1];
        && e in at && e != p
        && Chained(at[e := at[e].(next := p)], s + [p], cs + [v])
        && Confined(at, s + [p], at[e := at[e].(next := p)], s + [p])
  {
    hide Chained, Confined, Chain.View;
    var v := at[p].View();
    ChainedOne(at, p);
    ChainedIn(at, s, cs);
    if s == [] {
      assert s + [p] == [p] && cs + [v] == [v];
      ConfinedSame(at, s + [p]);
    } else {
      var e := s[|s| - 1];
      PtrsIn(s);
      PtrsIn([p]);
      ChainedJoin(at, s, cs, [p], [v]);
      ConfinedSet(at, s + [p], e, at[e].(next := p));
    }
  }

  lemma CapBound(v: Seg)
    requires v.Good()
    ensures v.misalign + |v.data| <= v.cap <= MAX_CAP
  {
  }

  lemma ReferenceView(c: Chain)
    requires c.immutable && c.misalign == 0 && c.off == |c.buffer| && |c.buffer| <= MAX_CAP
    ensures c.InBounds() && c.View() == Seg(c.buffer, 0, |c.buffer|, true) && c.View().Good()
  {
  }

  /** Pointing a chain to the head of a list. */
  lemma PrependFacts(at: Store, s: seq<Ptr>, cs: seq<Seg>, p: Ptr)
    requires |s| == |cs| && Chained(at, s, cs) && p !in s && p != NULL
    requires p in at && at[p].next == NULL && at[p].InBounds() && at[p].View().Good()
    ensures Chained(at[p := at[p].(next := HeadOf(s))], [p] + s, [at[p].View()] + cs)
    ensures Confined(at, [p] + s, at[p := at[p].(next := HeadOf(s))], [p] + s)
  {
    hide Chained, Confined, Chain.View;
    ChainedOne(at, p);
    ChainedIn(at, s, cs);
    PtrsIn(s);
    PtrsIn([p]);
    ChainedJoin(at, [p], [at[p].View()], s, cs);
    ConfinedSet(at, [p] + s, p, at[p].(next := HeadOf(s)));
  }

  lemma NothingPassed(cs: seq<Seg>)
    ensures Flat(cs[..0]) == []
  {
    assert cs[..0] == [];
  }

  /** The chain at position `j` of a list whose first `j` chains are gone. */
  lemma DrainAt(at: Store, s: seq<Ptr>, cs: seq<Seg>, j: nat)
    requires j < |s| == |cs| && Chained(at, s[j..], cs[j..])
    ensures s[j] != NULL && s[j] in at && at[s[j]].InBounds() && at[s[j]].View() == cs[j] && cs[j].Good()
    ensures at[s[j]].off == |cs[j].data| && at[s[j]].next == HeadOf(s[j + 1..])
    ensures HeadOf(s[j + 1..]) == if j + 1 < |s| then s[j + 1] else NULL
    ensures Chained(at - {s[j]}, s[j + 1..], cs[j + 1..])
    ensures s[..j + 1] == s[..j] + [s[j]]
    ensures Ptrs(s[..j + 1]) == Ptrs(s[..j]) + {s[j]}
  {
    FreeFirst(at, s[j..], cs[j..]);
    ChainedAt(at, s[j..], cs[j..], 0);
    assert s[j..][1..] == s[j + 1..] && cs[j..][1..] == cs[j + 1..];
    assert Ptrs(s[..j + 1]) == Ptrs(s[..j]) + {s[j]} by {
      assert s[..j + 1] == s[..j] + [s[j]];
    }
  }

  /** While the chain at `j` is in front of the one at `k`, the link to the latter is alive. */
  lemma LinkAhead(at: Store, s: seq<Ptr>, cs: seq<Seg>, j: nat, k: nat)
    requires j < k < |s| == |cs| && Chained(at, s[j..], cs[j..])
    ensures s[k - 1] in at && at[s[k - 1]].next == s[k] && s[k] != s[j]
    ensures s[k - 1] == s[j] <==> k - 1 == j
  {
    ChainedAt(at, s[j..], cs[j..], k - 1 - j);
    assert s[j..][k - j] == s[k] && s[j..][0] == s[j] && s[j..][k - 1 - j] == s[k - 1];
  }

  /** A list that lost its first `j` chains and then had its new first chain rewritten. */
  lemma DrainedFacts(at0: Store, s: seq<Ptr>, cs: seq<Seg>, j: nat, at1: Store, c: Chain)
    requires |s| == |cs| && Chained(at0, s, cs) && j < |s| && at1 == at0 - Ptrs(s[..j])
    requires Chained(at1, s[j..], cs[j..]) && s[j] in at1
    requires c.InBounds() && c.View().Good() && c.next == at1[s[j]].next
    ensures Chained(at1[s[j] := c], s[j..], cs[j..][0 := c.View()])
    ensures Confined(at0, s, at1[s[j] := c], s[j..])
  {
    hide Chained, Confined, Chain.View, Chain.InBounds;
    ChainedIn(at0, s, cs);
    ChainedDisjoint(at0, s, cs, j);
    ConfinedFree(at0, s, j);
    ChainedAt(at1, s[j..], cs[j..], 0);
    ChainedSet(at1, s[j..], cs[j..], 0, c);
    ChainedIn(at1, s[j..], cs[j..]);
    assert s[j..][0] == s[j];
    ConfinedSet(at1, s[j..], s[j], c);
    ConfinedTrans(at0, s, at1, s[j..], at1[s[j] := c], s[j..]);
  }
}
