/** Any sequence of operations on two evbuffers, seen as operations on two byte sequences. */
module EvbufferRuns {
  import opened Options
  import opened Segments
  import opened Memory
  import opened BufferCallbacks
  import opened Evbuffer
  import opened EvbufferMove
  import opened EvbufferReserve
  import opened EvbufferSearch
  import EvbufferPullup
  import opened EvbufferRead

  const MAX_READ_DEFAULT: nat := 4096

  /** What a buffer looks like from outside. */
  datatype Buf = Buf(data: seq<byte>, startFrozen: bool, endFrozen: bool)

  datatype Both = Both(x: Buf, y: Buf) {
    function Swapped(): Both {
      Both(y, x)
    }
  }

  /** An operation on one buffer, or one that moves bytes from it to the other one. */
  datatype Op =
    | Add(data: seq<byte>)
    | AddReference(data: seq<byte>)
    | Prepend(data: seq<byte>)
    | Drain(n: nat)
    | Remove(n: nat)
    | Pullup(size: int)
    | Expand(n: nat)
    | Read(howmuch: nat, incoming: seq<byte>)
    | MoveAllToEnd
    | MoveAllToFront
    | MoveToEnd(n: nat)
    | Freeze(start: bool, on: bool)
    | RunDeferred

  /** The operation, and whether it is for the second buffer. */
  datatype Event = Event(op: Op, second: bool)

  /** What has to be true for allocations to succeed and lengths to make sense. */
  ghost predicate InRange(op: Op, p: Both) {
    && |p.x.data| + |p.y.data| <= SSIZE_MAX
    && match op
       case Prepend(data) => |data| <= MAX_CAP && |data| <= SIZE_MAX - |p.x.data|
       case AddReference(data) => |data| <= MAX_CAP && |data| <= SIZE_MAX - |p.x.data|
       case Read(howmuch, _) => 0 < howmuch
       case _ => true
  }

  /** The operation on plain byte sequences. */
  ghost function Apply(op: Op, p: Both): Both {
    match op
    case Add(data) =>
      if p.x.endFrozen || |data| > SIZE_MAX - |p.x.data| || |data| > MAX_CAP then p
      else p.(x := p.x.(data := p.x.data + data))
    case AddReference(data) => if p.x.endFrozen then p else p.(x := p.x.(data := p.x.data + data))
    case Prepend(data) => if p.x.startFrozen then p else p.(x := p.x.(data := data + p.x.data))
    case Drain(n) => if p.x.startFrozen then p else p.(x := p.x.(data := Dropped(p.x.data, n)))
    case Remove(n) => if p.x.startFrozen then p else p.(x := p.x.(data := Dropped(p.x.data, n)))
    case Pullup(_) => p
    case Expand(_) => p
    case Read(howmuch, incoming) =>
      if p.x.endFrozen then p
      else p.(x := p.x.(data := p.x.data + Delivery(Asked(MAX_READ_DEFAULT, howmuch, 0), incoming)))
    case MoveAllToEnd =>
      if p.y.endFrozen || p.x.startFrozen then p
      else Both(p.x.(data := []), p.y.(data := p.y.data + p.x.data))
    case MoveAllToFront =>
      if p.y.startFrozen || p.x.startFrozen then p
      else Both(p.x.(data := []), p.y.(data := p.x.data + p.y.data))
    case MoveToEnd(n) =>
      if p.y.endFrozen || p.x.startFrozen then p
      else Both(p.x.(data := Dropped(p.x.data, n)), p.y.(data := p.y.data + Taken(p.x.data, n)))
    case Freeze(start, on) =>
      p.(x := if start then p.x.(startFrozen := on) else p.x.(endFrozen := on))
    case RunDeferred => p
  }

  ghost function Dropped(s: seq<byte>, n: nat): seq<byte> {
    if n >= |s| then [] else s[n..]
  }

  ghost function Taken(s: seq<byte>, n: nat): seq<byte> {
    if n >= |s| then s else s[..n]
  }

  ghost function ApplyEvent(e: Event, p: Both): Both {
    if e.second then Apply(e.op, p.Swapped()).Swapped() else Apply(e.op, p)
  }

  ghost function Run(es: seq<Event>, p: Both): Both
    decreases |es|
  {
    if es == [] then p else ApplyEvent(es[|es| - 1], Run(es[..|es| - 1], p))
  }

  ghost predicate RunInRange(es: seq<Event>, p: Both)
    decreases |es|
  {
    es != [] ==>
      && RunInRange(es[..|es| - 1], p)
      && var q, e := Run(es[..|es| - 1], p), es[|es| - 1]; InRange(e.op, if e.second then q.Swapped() else q)
  }

  ghost function Seen(b: EvBuffer): Buf
    reads b
  {
    Buf(b.Contents(), b.freezeStart, b.freezeEnd)
  }

  ghost predicate Ready(x: EvBuffer, y: EvBuffer)
    reads x, y, x.mem, y.mem, x.cb, y.cb
  {
    x.Valid() && y.Valid() && Apart(x, y)
  }

  /** An operation on `x` alone, as far as `y` can tell. */
  lemma Bystander(x: EvBuffer, y: EvBuffer, at0: Store, s0: seq<Ptr>)
    requires x.mem == y.mem && Chained(at0, y.spine, y.segs) && Confined(at0, s0, x.mem.at, x.spine)
             && Ptrs(s0) !! Ptrs(y.spine)
    ensures Chained(y.mem.at, y.spine, y.segs) && Ptrs(x.spine) !! Ptrs(y.spine)
    ensures Confined(at0, s0 + y.spine, x.mem.at, x.spine + y.spine)
  {
    hide Chained, Confined, Ptrs;
    ConfinedElsewhere(at0, s0, x.mem.at, x.spine, y.spine, y.segs);
    ChainedIn(at0, y.spine, y.segs);
    ConfinedPair(at0, s0, y.spine, x.mem.at, x.spine);
  }

  /** An operation that brings bytes or room for them. */
  predicate Grows(op: Op) {
    op.Add? || op.AddReference? || op.Prepend? || op.Expand? || op.Read?
  }

  method GrowingStep(x: EvBuffer, op: Op)
    requires x.Valid() && Grows(op)
    requires InRange(op, Both(Seen(x), Buf([], false, false)))
    modifies x, x.mem, x.cb
    ensures x.Valid() && Confined(old(x.mem.at), old(x.spine), x.mem.at, x.spine)
    ensures Seen(x) == Apply(op, Both(old(Seen(x)), Buf([], false, false))).x
    ensures x.cb.Kept(old(x.totalLen), x.totalLen)
  {
    hide Flat, Chain.View, Chain.InBounds, Seg.Good, EmptyFrom, Chained, Confined, Ptrs, CbState.Accounts, Marked,
         KeptOver, ReportedOver;
    ghost var n0, s0 := x.totalLen, x.cb.State();
    ghost var added: nat := 0;
    match op {
      case Add(data) =>
        var r := x.Add(data);
        added := if r == 0 then |data| else 0;
      case AddReference(data) =>
        var r := x.AddReference(data);
        added := if r == 0 then |data| else 0;
      case Prepend(data) =>
        assert [] + x.Contents() == x.Contents();
        var r := x.Prepend(data);
        added := if r == 0 then |data| else 0;
      case Expand(n) => var chain, k := ExpandSinglechain(x, n);
      case Read(howmuch, incoming) =>
        var r := EvbufferRead.Read(x, MAX_READ_DEFAULT, howmuch, 0, incoming, false);
        added := if r.Returned? && r.n > 0 then r.n else 0;
    }
    KeptStep(x.cb.callbacks, x.cb.deferredCbs, s0, x.cb.State(), n0, x.totalLen, added, 0);
  }

  /** What an operation on one buffer means for its callbacks. */
  lemma KeptStep(cbs: seq<CbFlags>, deferred: bool, was: Counts, now: Counts, size0: nat, size: nat,
                 added: nat, deleted: nat)
    requires ReportedOver(cbs, deferred, was, now, added, deleted, size) || (now == was && size == size0)
    requires size - size0 == added - deleted
    ensures KeptOver(cbs, deferred, was, now, size0, size)
  {
    hide KeptOver, ReportedOver;
    if now == was && size == size0 {
      NothingKept(cbs, deferred, was, size);
    } else {
      ReportedKept(cbs, deferred, was, now, added, deleted, size0, size);
    }
  }

  /** The same for a buffer that gets bytes from another one. */
  lemma KeptMove(cbs: seq<CbFlags>, deferred: bool, was: Counts, now: Counts, size0: nat, size: nat, added: nat)
    requires
      || ReportedOver(cbs, deferred, was, now, added, 0, size)
      || TwiceOver(cbs, deferred, was, now, added, size)
      || (now == was && size == size0)
    requires size - size0 == added
    ensures KeptOver(cbs, deferred, was, now, size0, size)
  {
    hide KeptOver, ReportedOver, TwiceOver;
    if TwiceOver(cbs, deferred, was, now, added, size) {
      TwiceKept(cbs, deferred, was, now, added, size0, size);
    } else {
      KeptStep(cbs, deferred, was, now, size0, size, added, 0);
    }
  }

  /** An operation that needs `x` only. */
  method OwnStep(x: EvBuffer, op: Op)
    requires x.Valid() && !op.MoveAllToEnd? && !op.MoveAllToFront? && !op.MoveToEnd?
    requires InRange(op, Both(Seen(x), Buf([], false, false)))
    modifies x, x.mem, x.cb
    ensures x.Valid() && Confined(old(x.mem.at), old(x.spine), x.mem.at, x.spine)
    ensures Seen(x) == Apply(op, Both(old(Seen(x)), Buf([], false, false))).x
    ensures x.cb.Kept(old(x.totalLen), x.totalLen)
  {
    hide Flat, Chain.View, Chain.InBounds, Seg.Good, EmptyFrom, Chained, Confined, Ptrs, CbState.Accounts, Marked,
         KeptOver, ReportedOver;
    ghost var n0, s0 := x.totalLen, x.cb.State();
    ChainedIn(x.mem.at, x.spine, x.segs);
    ConfinedSame(x.mem.at, x.spine);
    if Grows(op) {
      GrowingStep(x, op);
      return;
    }
    match op {
      case Drain(n) => var r := x.Drain(n);
      case Remove(n) => var r, out := EvbufferSearch.Remove(x, n);
      case Pullup(size) => var r := EvbufferPullup.Pullup(x, size);
      case Freeze(start, on) =>
        if start {
          x.freezeStart := on;
        } else {
          x.freezeEnd := on;
        }
      case RunDeferred =>
        RunPutOff(x);
        return;
    }
    KeptStep(x.cb.callbacks, x.cb.deferredCbs, s0, x.cb.State(), n0, x.totalLen, 0, n0 - x.totalLen);
  }

  /** The round that was put off, if there is one. */
  method RunPutOff(x: EvBuffer)
    requires x.Valid()
    modifies x.cb
    ensures x.cb.Accounts(x.totalLen) && x.cb.Kept(x.totalLen, x.totalLen)
  {
    hide CbState.Accounts, OneCallEach, KeptOver;
    ghost var was := x.cb.State();
    if x.cb.scheduled {
      x.cb.RunDeferred(x.totalLen);
      QuietKept(x.cb.callbacks, x.cb.deferredCbs, was, x.cb.State(), x.totalLen);
    } else {
      NothingKept(x.cb.callbacks, x.cb.deferredCbs, was, x.totalLen);
    }
  }

  /** One operation for `x`, with `y` as the other buffer. */
  method Step(x: EvBuffer, y: EvBuffer, op: Op)
    requires Ready(x, y) && InRange(op, Both(Seen(x), Seen(y)))
    modifies x, y, x.mem, x.cb, y.cb
    ensures Ready(x, y) && Both(Seen(x), Seen(y)) == Apply(op, old(Both(Seen(x), Seen(y))))
    ensures Confined(old(x.mem.at), old(x.spine + y.spine), x.mem.at, x.spine + y.spine)
    ensures x.cb.Kept(old(x.totalLen), x.totalLen) && y.cb.Kept(old(y.totalLen), y.totalLen)
  {
    hide Flat, Chain.View, Chain.InBounds, Seg.Good, EmptyFrom, Chained, Confined, Ptrs, CbState.Accounts, Marked,
         KeptOver;
    ghost var at0, s0 := x.mem.at, x.spine;
    NothingKept(y.cb.callbacks, y.cb.deferredCbs, y.cb.State(), y.totalLen);
    if op.MoveAllToEnd? || op.MoveAllToFront? || op.MoveToEnd? {
      MoveStep(x, y, op);
    } else {
      OwnStep(x, op);
      Bystander(x, y, at0, s0);
    }
  }

  /** An operation that moves bytes from `x` to `y`. */
  method MoveStep(x: EvBuffer, y: EvBuffer, op: Op)
    requires Ready(x, y) && InRange(op, Both(Seen(x), Seen(y)))
    requires op.MoveAllToEnd? || op.MoveAllToFront? || op.MoveToEnd?
    modifies x, y, x.mem, x.cb, y.cb
    ensures Ready(x, y) && Both(Seen(x), Seen(y)) == Apply(op, old(Both(Seen(x), Seen(y))))
    ensures Confined(old(x.mem.at), old(x.spine + y.spine), x.mem.at, x.spine + y.spine)
    ensures x.cb.Kept(old(x.totalLen), x.totalLen) && y.cb.Kept(old(y.totalLen), y.totalLen)
  {
    hide Flat, Chain.View, Chain.InBounds, Seg.Good, EmptyFrom, Chained, Confined, Ptrs, CbState.Accounts, Marked,
         KeptOver, ReportedOver, TwiceOver;
    ghost var at0, s0, t0, xs, ys := x.mem.at, x.spine, y.spine, x.Contents(), y.Contents();
    ghost var m0, n0, cx, cy := x.totalLen, y.totalLen, x.cb.State(), y.cb.State();
    Neutral(xs, ys);
    match op {
      case MoveAllToEnd => var r := AddBuffer(y, x);
      case MoveAllToFront => var r := PrependBuffer(y, x);
      case MoveToEnd(n) => var r := RemoveBuffer(x, y, n);
    }
    ConfinedOrder(at0, t0, s0, x.mem.at, y.spine, x.spine);
    KeptStep(x.cb.callbacks, x.cb.deferredCbs, cx, x.cb.State(), m0, x.totalLen, 0, m0 - x.totalLen);
    KeptMove(y.cb.callbacks, y.cb.deferredCbs, cy, y.cb.State(), n0, y.totalLen, y.totalLen - n0);
  }

  lemma Neutral(xs: seq<byte>, ys: seq<byte>)
    ensures [] + ys == ys && ys + [] == ys && xs[..0] == [] && xs[0..] == xs && xs[..|xs|] == xs && xs[|xs|..] == []
  {
  }

  lemma ConfinedOrder(at0: Store, s0: seq<Ptr>, t0: seq<Ptr>, at1: Store, s1: seq<Ptr>, t1: seq<Ptr>)
    requires Confined(at0, s0 + t0, at1, s1 + t1)
    ensures Confined(at0, t0 + s0, at1, t1 + s1)
  {
    assert Ptrs(s0 + t0) == Ptrs(t0 + s0);
    assert Ptrs(s1 + t1) == Ptrs(t1 + s1);
  }

  /** Any operation on either buffer. */
  method Do(a: EvBuffer, b: EvBuffer, e: Event)
    requires Ready(a, b)
    requires InRange(e.op, if e.second then Both(Seen(b), Seen(a)) else Both(Seen(a), Seen(b)))
    modifies a, b, a.mem, a.cb, b.cb
    ensures Ready(a, b) && Both(Seen(a), Seen(b)) == ApplyEvent(e, old(Both(Seen(a), Seen(b))))
    ensures Confined(old(a.mem.at), old(a.spine + b.spine), a.mem.at, a.spine + b.spine)
    ensures a.cb.Kept(old(a.totalLen), a.totalLen) && b.cb.Kept(old(b.totalLen), b.totalLen)
  {
    hide Flat, Chain.View, Chain.InBounds, Seg.Good, EmptyFrom, Chained, Confined, Ptrs, CbState.Accounts, Marked,
         KeptOver;
    if e.second {
      ghost var at0, s0, t0 := a.mem.at, a.spine, b.spine;
      ApartOrder(a, b);
      Step(b, a, e.op);
      ApartOrder(b, a);
      ConfinedOrder(at0, t0, s0, a.mem.at, b.spine, a.spine);
    } else {
      Step(a, b, e.op);
    }
  }

  lemma ApartOrder(a: EvBuffer, b: EvBuffer)
    requires Apart(a, b)
    ensures Apart(b, a)
  {
  }

  /**
   * Any run: the chain invariants hold at the end, the contents are what the same operations make of
   * plain byte sequences, the memory holds the chains of the two buffers in place of the ones they
   * had, and nothing else has changed in it.
   */
  method DoAll(a: EvBuffer, b: EvBuffer, es: seq<Event>)
    requires Ready(a, b) && RunInRange(es, Both(Seen(a), Seen(b)))
    modifies a, b, a.mem, a.cb, b.cb
    ensures Ready(a, b) && Both(Seen(a), Seen(b)) == Run(es, old(Both(Seen(a), Seen(b))))
    ensures Confined(old(a.mem.at), old(a.spine + b.spine), a.mem.at, a.spine + b.spine)
    ensures Same(NetChange(a.cb.rounds) + a.cb.nAdd - a.cb.nDel, a.totalLen)
    ensures Same(NetChange(b.cb.rounds) + b.cb.nAdd - b.cb.nDel, b.totalLen)
    ensures a.cb.Kept(old(a.totalLen), a.totalLen) && b.cb.Kept(old(b.totalLen), b.totalLen)
    decreases |es|
  {
    hide Flat, Chain.View, Chain.InBounds, Seg.Good, EmptyFrom, Chained, Confined, Ptrs, CbState.Accounts, Marked, Same,
         ApplyEvent, InRange, KeptOver;
    ghost var m0, n0, ca0, cb0 := a.totalLen, b.totalLen, a.cb.State(), b.cb.State();
    NothingKept(a.cb.callbacks, a.cb.deferredCbs, ca0, m0);
    NothingKept(b.cb.callbacks, b.cb.deferredCbs, cb0, n0);
    if es == [] {
      ChainedIn(a.mem.at, a.spine, a.segs);
      ChainedIn(b.mem.at, b.spine, b.segs);
      ConfinedSame(a.mem.at, a.spine + b.spine);
    } else {
      ghost var at0, s0 := a.mem.at, a.spine + b.spine;
      DoAll(a, b, es[..|es| - 1]);
      ghost var at1, s1 := a.mem.at, a.spine + b.spine;
      ghost var m1, n1, ca1, cb1 := a.totalLen, b.totalLen, a.cb.State(), b.cb.State();
      Do(a, b, es[|es| - 1]);
      KeptTwice(a.cb.callbacks, a.cb.deferredCbs, ca0, ca1, a.cb.State(), m0, m1, a.totalLen);
      KeptTwice(b.cb.callbacks, b.cb.deferredCbs, cb0, cb1, b.cb.State(), n0, n1, b.totalLen);
      ConfinedTrans(at0, s0, at1, s1, a.mem.at, a.spine + b.spine);
    }
    ReportsAddUp(a.cb, a.totalLen);
    ReportsAddUp(b.cb, b.totalLen);
  }

  /** Two new buffers in new memory, and any run: all memory in use belongs to one of the two. */
  method FromNothing(es: seq<Event>) returns (a: EvBuffer, b: EvBuffer)
    requires RunInRange(es, Both(Buf([], false, false), Buf([], false, false)))
    ensures Ready(a, b) && Both(Seen(a), Seen(b)) == Run(es, Both(Buf([], false, false), Buf([], false, false)))
    ensures a.mem.at.Keys == Ptrs(a.spine + b.spine)
  {
    hide RunInRange, Run, CbState.Accounts, Ready, Confined, Ptrs;
    a, b := NewPair();
    DoAll(a, b, es);
    NothingBefore(a.mem.at, a.spine + b.spine);
  }

  method NewPair() returns (a: EvBuffer, b: EvBuffer)
    ensures Ready(a, b) && Seen(a) == Seen(b) == Buf([], false, false) && a.mem.at == map[] && a.spine + b.spine == []
    ensures fresh(a) && fresh(b) && fresh(a.mem) && fresh(a.cb) && fresh(b.cb)
  {
    var mem := new Memory();
    a := new EvBuffer(mem);
    b := new EvBuffer(mem);
  }

  /** Chains in memory that was empty are all the chains there are. */
  lemma NothingBefore(at: Store, s: seq<Ptr>)
    requires Confined(map[], [], at, s)
    ensures at.Keys == Ptrs(s)
  {
  }

  /** Moving bytes between buffers neither loses nor duplicates any. */
  lemma MovesConserve(op: Op, p: Both)
    requires op.MoveAllToEnd? || op.MoveAllToFront? || op.MoveToEnd?
    ensures var q := Apply(op, p);
            multiset(q.x.data) + multiset(q.y.data) == multiset(p.x.data) + multiset(p.y.data)
  {
    if op.MoveToEnd? && op.n < |p.x.data| {
      assert p.x.data == p.x.data[..op.n] + p.x.data[op.n..];
    }
  }
}
