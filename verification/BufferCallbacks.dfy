/**
 * The change counters of an evbuffer and the callback rounds that report them.
 *
 * The counters are size_t and wrap; all statements about them are modulo 2^64. User callbacks do
 * not touch the buffer, so a round is recorded as the list of calls it makes.
 */
module BufferCallbacks {

  const WRAP: nat := 0x1_0000_0000_0000_0000

  ghost predicate Same(a: int, b: int) {
    (a - b) % WRAP == 0
  }

  /** EVBUFFER_CB_ENABLED and EVBUFFER_CB_NODEFER */
  datatype CbFlags = CbFlags(enabled: bool, nodefer: bool)

  /** struct evbuffer_cb_info */
  datatype CbInfo = CbInfo(origSize: nat, nAdded: nat, nDeleted: nat)

  datatype CbCall = CbCall(entry: nat, info: CbInfo, newSize: nat)

  /** Which callbacks one round may run. */
  datatype Round = Immediate | NodeferOnly | Deferred

  /** (flags & mask) == masked_val */
  predicate Wanted(f: CbFlags, r: Round) {
    match r
    case Immediate => f.enabled
    case NodeferOnly => f.enabled && f.nodefer
    case Deferred => f.enabled && !f.nodefer
  }

  /** The calls of one round over the callbacks from position `from` on, in list order. */
  ghost function Calls(cbs: seq<CbFlags>, from: nat, r: Round, info: CbInfo, size: nat): seq<CbCall>
    requires from <= |cbs|
    decreases |cbs| - from
  {
    if from == |cbs| then []
    else (if Wanted(cbs[from], r) then [CbCall(from, info, size)] else []) + Calls(cbs, from + 1, r, info, size)
  }

  /** A buffer starts empty; each cleared round starts at the previous clearing and its counts lead to the next one. */
  ghost predicate History(lens: seq<nat>, rounds: seq<CbInfo>) {
    && |lens| == |rounds| + 1 && lens[0] == 0
    && (forall i | 0 <= i < |lens| :: lens[i] < WRAP)
    && forall i {:trigger rounds[i]} | 0 <= i < |rounds| ::
         && rounds[i].origSize == lens[i]
         && Same(lens[i] + rounds[i].nAdded - rounds[i].nDeleted, lens[i + 1])
  }

  lemma HistoryStep(lens: seq<nat>, rounds: seq<CbInfo>, info: CbInfo, total: nat)
    requires History(lens, rounds) && total < WRAP
    requires info.origSize == lens[|lens| - 1]
    requires Same(info.origSize + info.nAdded - info.nDeleted, total)
    ensures History(lens + [total], rounds + [info])
  {
  }

  /** The call reports these counts, for a buffer that has `size` bytes now. */
  ghost predicate Tells(c: CbCall, added: nat, deleted: nat, size: nat) {
    && c.newSize == size && c.info.origSize < WRAP && c.info.nAdded == added && c.info.nDeleted == deleted
    && Same(c.info.origSize + added - deleted, size)
  }

  ghost predicate AllCalled(calls: seq<CbCall>, entries: set<nat>) {
    forall k | k in entries :: exists i :: 0 <= i < |calls| && calls[i].entry == k
  }

  /** Each of these callbacks has one call, in list order, with these counts, and nobody else has one. */
  ghost predicate OneCallEach(calls: seq<CbCall>, entries: set<nat>, added: nat, deleted: nat, size: nat) {
    && (forall i | 0 <= i < |calls| :: Tells(calls[i], added, deleted, size))
    && (forall i | 0 <= i < |calls| :: calls[i].entry in entries)
    && AllCalled(calls, entries)
    && forall i, j | 0 <= i < j < |calls| :: calls[i].entry < calls[j].entry
  }

  /** The callbacks of a round, from position `from` on. */
  ghost function WantedFrom(cbs: seq<CbFlags>, from: nat, r: Round): set<nat> {
    set k: nat | from <= k < |cbs| && Wanted(cbs[k], r)
  }

  lemma {:induction false} CallsEach(cbs: seq<CbFlags>, from: nat, r: Round, info: CbInfo, size: nat)
    requires from <= |cbs| && info.origSize < WRAP && Same(info.origSize + info.nAdded - info.nDeleted, size)
    ensures OneCallEach(Calls(cbs, from, r, info, size), WantedFrom(cbs, from, r), info.nAdded, info.nDeleted, size)
    decreases |cbs| - from
  {
    hide Same, Wanted, OneCallEach, WantedFrom;
    if from == |cbs| {
      NoCalls(cbs, r, info.nAdded, info.nDeleted, size);
    } else {
      CallsEach(cbs, from + 1, r, info, size);
      var rest, entries := Calls(cbs, from + 1, r, info, size), WantedFrom(cbs, from + 1, r);
      WantedNext(cbs, from, r);
      if Wanted(cbs[from], r) {
        OneMore(CbCall(from, info, size), rest, entries, info.nAdded, info.nDeleted, size);
      } else {
        assert [] + rest == rest;
      }
    }
  }

  lemma NoCalls(cbs: seq<CbFlags>, r: Round, added: nat, deleted: nat, size: nat)
    ensures OneCallEach([], WantedFrom(cbs, |cbs|, r), added, deleted, size)
  {
  }

  lemma WantedNext(cbs: seq<CbFlags>, from: nat, r: Round)
    requires from < |cbs|
    ensures var rest := WantedFrom(cbs, from + 1, r);
            && (if Wanted(cbs[from], r) then WantedFrom(cbs, from, r) == rest + {from}
               else WantedFrom(cbs, from, r) == rest)
            && forall k | k in rest :: from < k
  {
    hide Wanted;
  }

  lemma OneMore(c: CbCall, rest: seq<CbCall>, entries: set<nat>, added: nat, deleted: nat, size: nat)
    requires OneCallEach(rest, entries, added, deleted, size) && Tells(c, added, deleted, size)
    requires forall k | k in entries :: c.entry < k
    ensures OneCallEach([c] + rest, entries + {c.entry}, added, deleted, size)
  {
    hide Tells, AllCalled;
    var all := [c] + rest;
    assert all[0] == c && forall i | 0 < i < |all| :: all[i] == rest[i - 1];
    forall i | 0 < i < |all| ensures all[i].entry in entries && c.entry < all[i].entry {
      assert rest[i - 1].entry in entries;
    }
    OneMoreCalled(c, rest, entries);
  }

  lemma OneMoreCalled(c: CbCall, rest: seq<CbCall>, entries: set<nat>)
    requires AllCalled(rest, entries)
    ensures AllCalled([c] + rest, entries + {c.entry})
  {
    var all := [c] + rest;
    forall k | k in entries + {c.entry} ensures exists i :: 0 <= i < |all| && all[i].entry == k {
      if k == c.entry {
        assert all[0].entry == k;
      } else {
        var i :| 0 <= i < |rest| && rest[i].entry == k;
        assert all[i + 1].entry == k;
      }
    }
  }

  /**
   * The callbacks that run at once: the enabled ones, and if callbacks are deferred, only those that are
   * never put off.
   */
  ghost function AtOnce(cbs: seq<CbFlags>, deferred: bool): set<nat> {
    set k: nat | k < |cbs| && cbs[k].enabled && (deferred ==> cbs[k].nodefer)
  }

  /** The callbacks that a round that was put off runs. */
  ghost function PutOff(cbs: seq<CbFlags>): set<nat> {
    set k: nat | k < |cbs| && cbs[k].enabled && !cbs[k].nodefer
  }

  lemma WantedIs(cbs: seq<CbFlags>)
    ensures WantedFrom(cbs, 0, Immediate) == AtOnce(cbs, false)
    ensures WantedFrom(cbs, 0, NodeferOnly) == AtOnce(cbs, true)
    ensures WantedFrom(cbs, 0, Deferred) == PutOff(cbs)
  {
  }

  /**
   * What has become of changes that have been counted, `a` additions and `d` deletions: everybody who
   * runs at once has been told, and either nothing is counted any more or the rest has been scheduled.
   */
  ghost predicate Settled(cbs: seq<CbFlags>, deferred: bool, a: nat, d: nat, size: nat, now: Counts) {
    && (cbs == [] || (a == 0 && d == 0) ==> now.calls == [])
    && (cbs != [] && (a != 0 || d != 0) ==> OneCallEach(now.calls, AtOnce(cbs, deferred), a, d, size))
    && (cbs != [] && deferred ==> now.nAdd == a && now.nDel == d && now.scheduled)
    && (cbs == [] || !deferred ==> now.nAdd == now.nDel == 0)
  }

  /** New calls, counters, and whether a round has been put off. */
  datatype Counts = Counts(calls: seq<CbCall>, nAdd: nat, nDel: nat, scheduled: bool)

  /** Between two states, what has been counted, `added` and `deleted` included, has been reported or put off. */
  ghost predicate ReportedOver(cbs: seq<CbFlags>, deferred: bool, was: Counts, now: Counts, added: nat, deleted: nat,
                               size: nat) {
    && was.calls <= now.calls && now.scheduled == (was.scheduled || (cbs != [] && deferred))
    && Settled(cbs, deferred, (was.nAdd + added) % WRAP, (was.nDel + deleted) % WRAP, size,
               now.(calls := now.calls[|was.calls|..]))
  }

  /**
   * `added` bytes have been reported twice over: callbacks that are never put off have been told twice
   * while the counters were kept for those that are; otherwise the second round had nothing to tell.
   */
  ghost predicate TwiceOver(cbs: seq<CbFlags>, deferred: bool, was: Counts, now: Counts, added: nat, size: nat) {
    var a, d := (was.nAdd + added) % WRAP, was.nDel % WRAP;
    if cbs == [] || !deferred then ReportedOver(cbs, deferred, was, now, added, 0, size)
    else
      && was.calls <= now.calls
      && exists mid: nat {:trigger now.calls[mid..]} | |was.calls| <= mid <= |now.calls| ::
           && Settled(cbs, true, a, d, size, now.(calls := now.calls[|was.calls|..mid]))
           && Settled(cbs, true, a, d, size, now.(calls := now.calls[mid..]))
  }

  /** A round right after something has been counted reports it. */
  lemma CountedAndTold(cbs: seq<CbFlags>, deferred: bool, was: Counts, mid: Counts, now: Counts, added: nat,
                       deleted: nat, size: nat)
    requires mid == was.(nAdd := (was.nAdd + added) % WRAP, nDel := (was.nDel + deleted) % WRAP)
    requires mid.calls <= now.calls && now.scheduled == (mid.scheduled || (cbs != [] && deferred))
    requires Settled(cbs, deferred, mid.nAdd, mid.nDel, size, now.(calls := now.calls[|mid.calls|..]))
    ensures ReportedOver(cbs, deferred, was, now, added, deleted, size)
  {
    hide Settled;
  }

  /** Something had been counted before, and is reported with the rest. */
  lemma CountedBefore(cbs: seq<CbFlags>, deferred: bool, was: Counts, mid: Counts, now: Counts, m: nat, n: nat,
                      size: nat)
    requires mid == was.(nAdd := (was.nAdd + m) % WRAP) && ReportedOver(cbs, deferred, mid, now, n, 0, size)
    ensures ReportedOver(cbs, deferred, was, now, m + n, 0, size)
  {
    hide Settled;
    WrapTwice(was.nAdd, m, n);
  }

  /** A second round right after the first one. */
  lemma ToldTwice(cbs: seq<CbFlags>, deferred: bool, was: Counts, mid: Counts, now: Counts, added: nat, size: nat)
    requires ReportedOver(cbs, deferred, was, mid, added, 0, size)
    requires mid.calls <= now.calls && now.scheduled == (mid.scheduled || (cbs != [] && deferred))
    requires Settled(cbs, deferred, mid.nAdd, mid.nDel, size, now.(calls := now.calls[|mid.calls|..]))
    ensures TwiceOver(cbs, deferred, was, now, added, size)
  {
    hide OneCallEach;
    var m := |mid.calls|;
    assert now.calls[|was.calls|..m] == mid.calls[|was.calls|..];
    assert now.calls[m..] == [] ==> now.calls == mid.calls;
  }

  /** What is counted is going to be reported. */
  ghost predicate DueIn(cbs: seq<CbFlags>, deferred: bool, s: Counts) {
    s.nAdd != 0 || s.nDel != 0 ==> cbs != [] && deferred && s.scheduled
  }

  /** While no callbacks are deferred, each that is enabled has been told by how much the buffer has changed. */
  ghost predicate ToldOver(cbs: seq<CbFlags>, was: Counts, now: Counts, size0: nat, size: nat) {
    forall k: nat {:trigger ToldTo(now.calls, k)} | k < |cbs| && cbs[k].enabled ::
      Same(ToldTo(now.calls, k) - ToldTo(was.calls, k), size - size0)
  }

  ghost predicate KeptOver(cbs: seq<CbFlags>, deferred: bool, was: Counts, now: Counts, size0: nat, size: nat) {
    DueIn(cbs, deferred, was) ==> DueIn(cbs, deferred, now) && (!deferred ==> ToldOver(cbs, was, now, size0, size))
  }

  lemma ReportedKept(cbs: seq<CbFlags>, deferred: bool, was: Counts, now: Counts, added: nat, deleted: nat, size0: nat,
                     size: nat)
    requires ReportedOver(cbs, deferred, was, now, added, deleted, size) && size - size0 == added - deleted
    ensures KeptOver(cbs, deferred, was, now, size0, size)
  {
    hide Settled, Same, ToldTo;
    var a, d, more := (was.nAdd + added) % WRAP, (was.nDel + deleted) % WRAP, now.(calls := now.calls[|was.calls|..]);
    SettledNow(cbs, deferred, a, d, size, more);
    if DueIn(cbs, deferred, was) && !deferred {
      forall k: nat | k < |cbs| && cbs[k].enabled
        ensures Same(ToldTo(now.calls, k) - ToldTo(was.calls, k), size - size0)
      {
        ToldAll(cbs, was.calls, now.calls, a, d, size, more, k);
        SameSelf(added - deleted);
        SameCut(added, deleted, size - size0);
      }
    }
  }

  lemma TwiceKept(cbs: seq<CbFlags>, deferred: bool, was: Counts, now: Counts, added: nat, size0: nat, size: nat)
    requires TwiceOver(cbs, deferred, was, now, added, size) && size - size0 == added
    ensures KeptOver(cbs, deferred, was, now, size0, size)
  {
    hide Settled, ToldOver;
    if cbs == [] || !deferred {
      ReportedKept(cbs, deferred, was, now, added, 0, size0, size);
    } else {
      var a, d := (was.nAdd + added) % WRAP, was.nDel % WRAP;
      var mid: nat :| |was.calls| <= mid <= |now.calls|
        && Settled(cbs, true, a, d, size, now.(calls := now.calls[mid..]));
      SettledNow(cbs, true, a, d, size, now.(calls := now.calls[mid..]));
    }
  }

  lemma NothingKept(cbs: seq<CbFlags>, deferred: bool, s: Counts, size: nat)
    ensures KeptOver(cbs, deferred, s, s, size, size)
  {
    SameSelf(0);
  }

  /** A round that nobody runs at once. */
  lemma QuietKept(cbs: seq<CbFlags>, deferred: bool, was: Counts, now: Counts, size: nat)
    requires now.nAdd == now.nDel == 0
    requires cbs == [] || (was.nAdd == 0 && was.nDel == 0) ==> now.calls == was.calls
    ensures KeptOver(cbs, deferred, was, now, size, size)
  {
    hide ToldTo;
    SameSelf(0);
  }

  lemma KeptTwice(cbs: seq<CbFlags>, deferred: bool, s0: Counts, s1: Counts, s2: Counts, n0: nat, n1: nat, n2: nat)
    requires KeptOver(cbs, deferred, s0, s1, n0, n1) && KeptOver(cbs, deferred, s1, s2, n1, n2)
    ensures KeptOver(cbs, deferred, s0, s2, n0, n2)
  {
    hide Same, ToldTo, DueIn;
    if DueIn(cbs, deferred, s0) && !deferred {
      forall k: nat | k < |cbs| && cbs[k].enabled ensures Same(ToldTo(s2.calls, k) - ToldTo(s0.calls, k), n2 - n0) {
        assert Same(ToldTo(s1.calls, k) - ToldTo(s0.calls, k), n1 - n0);
        SameTrans(ToldTo(s1.calls, k) - ToldTo(s0.calls, k), ToldTo(s2.calls, k) - ToldTo(s1.calls, k), n1 - n0,
          n2 - n1);
      }
    }
  }

  lemma SameSelf(a: int)
    ensures Same(a, a)
  {
  }

  lemma SettledNow(cbs: seq<CbFlags>, deferred: bool, a: nat, d: nat, size: nat, now: Counts)
    requires Settled(cbs, deferred, a, d, size, now)
    ensures if cbs != [] && deferred then now.nAdd == a && now.nDel == d && now.scheduled else now.nAdd == now.nDel == 0
    ensures a == 0 && d == 0 ==> now.calls == []
  {
  }

  lemma WrapTwice(a: nat, m: nat, n: nat)
    ensures ((a + m) % WRAP + n) % WRAP == (a + m + n) % WRAP
  {
    var k := (a + m) / WRAP;
    assert a + m + n == ((a + m) % WRAP + n) + k * WRAP;
  }

  lemma WrapShift(a: int, x: nat, n: nat)
    requires (a + x) % WRAP == 0
    ensures (a + (x + n) % WRAP - n) % WRAP == 0
    ensures (n - a - (x + n) % WRAP) % WRAP == 0
  {
    var k := (x + n) / WRAP;
    assert a + (x + n) % WRAP - n == (a + x) - k * WRAP;
  }

  lemma SameWrapped(a: int, b: nat)
    requires Same(a, b)
    ensures Same(a, b % WRAP) && (b < WRAP ==> b % WRAP == b)
  {
    var k := b / WRAP;
    assert b == k * WRAP + b % WRAP;
    assert a - b % WRAP == (a - b) + k * WRAP;
  }

  class CbState {
    var callbacks: seq<CbFlags>
    var deferredCbs: bool
    var scheduled: bool
    var nAdd: nat
    var nDel: nat
    var calls: seq<CbCall>

    /** The buffer's length at its creation and at each time the counters were cleared. */
    ghost var lens: seq<nat>
    /** What was in the counters each time they were cleared. */
    ghost var rounds: seq<CbInfo>

    constructor ()
      ensures Accounts(0) && callbacks == [] && calls == [] && lens == [0] && rounds == []
      ensures !deferredCbs && !scheduled
    {
      callbacks, deferredCbs, scheduled, nAdd, nDel, calls := [], false, false, 0, 0, [];
      lens, rounds := [0], [];
    }

    ghost function ClearedLen(): nat
      requires lens != []
      reads this
    {
      lens[|lens| - 1]
    }

    /** The length at the last clearing plus additions minus deletions is the current length. */
    ghost predicate Accounts(total: nat)
      reads this
    {
      && nAdd < WRAP && nDel < WRAP && total < WRAP
      && History(lens, rounds)
      && Same(ClearedLen() + nAdd - nDel, total)
    }

    ghost function State(): Counts
      reads this
    {
      Counts(calls, nAdd, nDel, scheduled)
    }

    /** What has been counted, `added` and `deleted` included, has been reported or put off. */
    twostate predicate Reported(added: nat, deleted: nat, size: nat)
      reads this
    {
      ReportedOver(callbacks, deferredCbs, old(State()), State(), added, deleted, size)
    }

    /** `added` bytes have been reported, twice over to callbacks that are never put off while others are. */
    twostate predicate ReportedTwice(added: nat, size: nat)
      reads this
    {
      TwiceOver(callbacks, deferredCbs, old(State()), State(), added, size)
    }

    /** Nobody has been called, and nothing has been counted. */
    twostate predicate Untouched()
      reads this
    {
      State() == old(State())
    }

    /** Nothing that is counted is forgotten, and nothing is kept from those that are told at once. */
    twostate predicate Kept(size0: nat, size: nat)
      reads this
    {
      && callbacks == old(callbacks) && deferredCbs == old(deferredCbs)
      && KeptOver(callbacks, deferredCbs, old(State()), State(), size0, size)
    }

    /** n_add_for_cb += n, when the buffer has grown from `total` by `n`. */
    method Grew(n: nat, ghost total: nat)
      requires Accounts(total)
      modifies this`nAdd
      ensures Accounts((total + n) % WRAP) && nAdd == (old(nAdd) + n) % WRAP && nDel < WRAP
      ensures total + n < WRAP ==> Accounts(total + n)
    {
      WrapShift(ClearedLen() - nDel - total, nAdd, n);
      SameWrapped(ClearedLen() + (nAdd + n) % WRAP - nDel, total + n);
      nAdd := (nAdd + n) % WRAP;
    }

    /** n_del_for_cb += n, when the buffer has shrunk from `total` by `n`. */
    method Shrank(n: nat, ghost total: nat)
      requires Accounts(total) && n <= total
      modifies this`nDel
      ensures Accounts(total - n) && nDel == (old(nDel) + n) % WRAP && nAdd < WRAP
    {
      WrapShift(total - ClearedLen() - nAdd, nDel, n);
      nDel := (nDel + n) % WRAP;
    }

    lemma CountersFit(total: nat)
      requires Accounts(total)
      ensures nAdd < WRAP && nDel < WRAP
    {
    }

    /** Subtracting the counters from the current length gives back the length they started at. */
    lemma OrigSize(total: nat)
      requires Accounts(total)
      ensures (total + nDel - nAdd) % WRAP == ClearedLen()
    {
      var e := ClearedLen() + nAdd - nDel - total;
      assert total + nDel - nAdd == ClearedLen() + (-1) * e;
    }

    method Clear(total: nat)
      requires Accounts(total)
      modifies this`nAdd, this`nDel, this`lens, this`rounds
      ensures Accounts(total) && nAdd == nDel == 0
      ensures lens == old(lens) + [total]
      ensures rounds == old(rounds) + [CbInfo(old(ClearedLen()), old(nAdd), old(nDel))]
    {
      HistoryStep(lens, rounds, CbInfo(ClearedLen(), nAdd, nDel), total);
      lens, rounds := lens + [total], rounds + [CbInfo(ClearedLen(), nAdd, nDel)];
      nAdd, nDel := 0, 0;
    }

    /** The callback loop of evbuffer_run_callbacks. */
    method CallWanted(r: Round, info: CbInfo, newSize: nat)
      modifies this`calls
      ensures calls == old(calls) + Calls(callbacks, 0, r, info, newSize)
    {
      var i := 0;
      while i < |callbacks|
        invariant i <= |callbacks|
        invariant calls + Calls(callbacks, i, r, info, newSize)
               == old(calls) + Calls(callbacks, 0, r, info, newSize)
      {
        if Wanted(callbacks[i], r) {
          calls := calls + [CbCall(i, info, newSize)];
        }
        i := i + 1;
      }
    }

    /** evbuffer_run_callbacks */
    method RunCallbacks(runningDeferred: bool, total: nat)
      requires Accounts(total)
      modifies this`nAdd, this`nDel, this`calls, this`lens, this`rounds
      ensures Accounts(total)
      ensures
        var r := if runningDeferred then Deferred else if deferredCbs then NodeferOnly else Immediate;
        var silent := callbacks == [] || (old(nAdd) == 0 && old(nDel) == 0);
        var info := CbInfo(old(ClearedLen()), old(nAdd), old(nDel));
        && calls == old(calls) + (if silent then [] else Calls(callbacks, 0, r, info, total))
        && (if callbacks == [] || (!silent && r != NodeferOnly) then
              nAdd == nDel == 0 && lens == old(lens) + [total] && rounds == old(rounds) + [info]
            else nAdd == old(nAdd) && nDel == old(nDel) && lens == old(lens) && rounds == old(rounds))
    {
      hide History, Same, Calls;
      var r := if runningDeferred then Deferred else if deferredCbs then NodeferOnly else Immediate;
      if callbacks == [] {
        Clear(total);
        return;
      }
      if nAdd == 0 && nDel == 0 {
        return;
      }
      var newSize := total;
      var info := CbInfo((newSize + nDel - nAdd) % WRAP, nAdd, nDel);
      OrigSize(total);
      if r != NodeferOnly {
        Clear(total);
      }
      CallWanted(r, info, newSize);
    }

    /** The calls of a round, when there is something to tell. */
    lemma RoundFacts(r: Round, total: nat)
      requires Accounts(total)
      ensures OneCallEach(Calls(callbacks, 0, r, CbInfo(ClearedLen(), nAdd, nDel), total),
                          WantedFrom(callbacks, 0, r), nAdd, nDel, total)
      ensures WantedFrom(callbacks, 0, Immediate) == AtOnce(callbacks, false)
      ensures WantedFrom(callbacks, 0, NodeferOnly) == AtOnce(callbacks, true)
      ensures WantedFrom(callbacks, 0, Deferred) == PutOff(callbacks)
    {
      CallsEach(callbacks, 0, r, CbInfo(ClearedLen(), nAdd, nDel), total);
      WantedIs(callbacks);
    }

    /** evbuffer_invoke_callbacks_ */
    method Invoke(total: nat)
      requires Accounts(total)
      modifies this`nAdd, this`nDel, this`calls, this`lens, this`rounds, this`scheduled
      ensures Accounts(total)
      ensures scheduled == (old(scheduled) || (callbacks != [] && deferredCbs))
      ensures old(lens) <= lens && old(rounds) <= rounds && old(calls) <= calls
      ensures !deferredCbs || callbacks == [] ==> nAdd == nDel == 0
      ensures deferredCbs && callbacks != [] ==> nAdd == old(nAdd) && nDel == old(nDel) && lens == old(lens)
      ensures
        var r := if deferredCbs then NodeferOnly else Immediate;
        var silent := callbacks == [] || (old(nAdd) == 0 && old(nDel) == 0);
        var info := CbInfo(old(ClearedLen()), old(nAdd), old(nDel));
        calls == old(calls) + if silent then [] else Calls(callbacks, 0, r, info, total)
      ensures Settled(callbacks, deferredCbs, old(nAdd), old(nDel), total,
                      Counts(calls[|old(calls)|..], nAdd, nDel, scheduled))
    {
      hide History, Same, Calls, OneCallEach;
      RoundFacts(if deferredCbs then NodeferOnly else Immediate, total);
      if callbacks == [] {
        RunCallbacks(false, total);
        return;
      }
      if deferredCbs {
        scheduled := true;
      }
      RunCallbacks(false, total);
    }

    /** n_add_for_cb += n, and evbuffer_invoke_callbacks_ */
    method ReportGrown(n: nat, total: nat, ghost was: nat)
      requires Accounts(was) && total == (was + n) % WRAP
      modifies this`nAdd, this`nDel, this`calls, this`lens, this`rounds, this`scheduled
      ensures Accounts(total) && Reported(n, 0, total)
    {
      hide History, Same, OneCallEach, Settled, ReportedOver;
      ghost var before := State();
      Grew(n, was);
      ghost var mid := State();
      Invoke(total);
      CountedAndTold(callbacks, deferredCbs, before, mid, State(), n, 0, total);
    }

    /** n_del_for_cb += n, and evbuffer_invoke_callbacks_ */
    method ReportShrunk(n: nat, total: nat, ghost was: nat)
      requires Accounts(was) && total + n == was
      modifies this`nAdd, this`nDel, this`calls, this`lens, this`rounds, this`scheduled
      ensures Accounts(total) && Reported(0, n, total)
    {
      hide History, Same, OneCallEach, Settled, ReportedOver;
      ghost var before := State();
      Shrank(n, was);
      ghost var mid := State();
      Invoke(total);
      CountedAndTold(callbacks, deferredCbs, before, mid, State(), 0, n, total);
    }

    /** evbuffer_deferred_callback: the event loop runs the round that was put off. */
    method RunDeferred(total: nat)
      requires Accounts(total) && scheduled
      modifies this`nAdd, this`nDel, this`calls, this`lens, this`rounds, this`scheduled
      ensures Accounts(total) && !scheduled
      ensures nAdd == nDel == 0 && Same(ClearedLen(), total)
      ensures
        var silent := callbacks == [] || (old(nAdd) == 0 && old(nDel) == 0);
        var info := CbInfo(old(ClearedLen()), old(nAdd), old(nDel));
        && calls == old(calls) + (if silent then [] else Calls(callbacks, 0, Deferred, info, total))
        && (!silent ==> rounds == old(rounds) + [info])
      ensures old(calls) <= calls
      ensures callbacks == [] || (old(nAdd) == 0 && old(nDel) == 0) ==> calls == old(calls)
      ensures callbacks != [] && (old(nAdd) != 0 || old(nDel) != 0) ==>
                OneCallEach(calls[|old(calls)|..], PutOff(callbacks), old(nAdd), old(nDel), total)
    {
      hide Calls, OneCallEach;
      RoundFacts(Deferred, total);
      scheduled := false;
      RunCallbacks(true, total);
    }
  }

  /** All the changes that callback `k` has been told of. */
  ghost function ToldTo(calls: seq<CbCall>, k: nat): int {
    if calls == [] then 0
    else ToldTo(calls[..|calls| - 1], k) + ToldBy(calls[|calls| - 1], k)
  }

  ghost function ToldBy(c: CbCall, k: nat): int {
    if c.entry == k then c.info.nAdded - c.info.nDeleted else 0
  }

  lemma {:induction false} ToldPlus(a: seq<CbCall>, b: seq<CbCall>, k: nat)
    ensures ToldTo(a + b, k) == ToldTo(a, k) + ToldTo(b, k)
    decreases |b|
  {
    if b == [] {
      assert a + b == a;
    } else {
      ToldPlus(a, b[..|b| - 1], k);
      assert (a + b)[..|a + b| - 1] == a + b[..|b| - 1];
    }
  }

  /** With one call each, a callback is told of the changes once, or not at all. */
  lemma {:induction false} ToldOnce(calls: seq<CbCall>, entries: set<nat>, added: nat, deleted: nat, size: nat, k: nat)
    requires OneCallEach(calls, entries, added, deleted, size)
    ensures ToldTo(calls, k) == if k in entries then added - deleted else 0
    decreases |calls|
  {
    hide Same;
    if calls != [] {
      var n, c := |calls| - 1, calls[|calls| - 1];
      OneLess(calls, entries, added, deleted, size);
      ToldOnce(calls[..n], entries - {c.entry}, added, deleted, size, k);
      assert Tells(c, added, deleted, size);
    }
  }

  lemma OneLess(calls: seq<CbCall>, entries: set<nat>, added: nat, deleted: nat, size: nat)
    requires OneCallEach(calls, entries, added, deleted, size) && calls != []
    ensures var n := |calls| - 1;
            && OneCallEach(calls[..n], entries - {calls[n].entry}, added, deleted, size) && calls[n].entry in entries
  {
    hide Tells;
    var n := |calls| - 1;
    forall k | k in entries - {calls[n].entry} ensures exists i :: 0 <= i < n && calls[..n][i].entry == k {
      var i :| 0 <= i < |calls| && calls[i].entry == k;
      assert calls[..n][i].entry == k;
    }
  }

  /** An enabled callback that nothing is put off for has been told of all changes. */
  lemma ToldAll(cbs: seq<CbFlags>, was: seq<CbCall>, calls: seq<CbCall>, a: nat, d: nat, size: nat, now: Counts, k: nat)
    requires was <= calls && now.calls == calls[|was|..] && k < |cbs| && cbs[k].enabled
    requires Settled(cbs, false, a, d, size, now)
    ensures ToldTo(calls, k) - ToldTo(was, k) == a - d
  {
    hide OneCallEach, ToldTo;
    assert calls == was + now.calls;
    ToldPlus(was, now.calls, k);
    if a == 0 && d == 0 {
      ToldNothing(k);
    } else {
      ToldOnce(now.calls, AtOnce(cbs, false), a, d, size, k);
    }
  }

  lemma ToldNothing(k: nat)
    ensures ToldTo([], k) == 0
  {
  }

  lemma SameCut(added: nat, deleted: nat, n: int)
    requires Same(added - deleted, n)
    ensures Same(added % WRAP - deleted % WRAP, n)
  {
    var i, j := added / WRAP, deleted / WRAP;
    assert added % WRAP - deleted % WRAP - n == (added - deleted - n) + (j - i) * WRAP;
  }

  lemma SameTrans(a: int, b: int, m: int, n: int)
    requires Same(a, m) && Same(b, n)
    ensures Same(a + b, m + n)
  {
    assert a + b - (m + n) == (a - m) + (b - n);
  }

  ghost function NetChange(rounds: seq<CbInfo>): int {
    if rounds == [] then 0
    else NetChange(rounds[..|rounds| - 1]) + rounds[|rounds| - 1].nAdded - rounds[|rounds| - 1].nDeleted
  }

  lemma SameSum(a: int, b: int, c: int, d: int)
    requires Same(a, b) && Same(b + c, d)
    ensures Same(a + c, d)
  {
    assert a + c - d == (a - b) + (b + c - d);
  }

  lemma {:induction false} NetChangeUpTo(cb: CbState, k: nat)
    requires History(cb.lens, cb.rounds) && k <= |cb.rounds|
    ensures Same(NetChange(cb.rounds[..k]), cb.lens[k])
  {
    if k > 0 {
      NetChangeUpTo(cb, k - 1);
      assert cb.rounds[..k][..k - 1] == cb.rounds[..k - 1];
      var i := cb.rounds[k - 1];
      assert Same(cb.lens[k - 1] + i.nAdded - i.nDeleted, cb.lens[k]);
      SameSum(NetChange(cb.rounds[..k - 1]), cb.lens[k - 1], i.nAdded - i.nDeleted, cb.lens[k]);
    }
  }

  /** All the changes reported so far, and those still counted, add up to the current length. */
  lemma ReportsAddUp(cb: CbState, total: nat)
    requires cb.Accounts(total)
    ensures Same(NetChange(cb.rounds) + cb.nAdd - cb.nDel, total)
  {
    NetChangeUpTo(cb, |cb.rounds|);
    assert cb.rounds[..|cb.rounds|] == cb.rounds;
    SameSum(NetChange(cb.rounds), cb.ClearedLen(), cb.nAdd - cb.nDel, total);
  }
}
