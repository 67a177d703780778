/** What the event loop does with an event base: waiting, timeouts, and running callbacks. */
module EventLoop {
  import opened Options
  import opened EventTime
  import opened EventState
  import opened EventBase

  /** The latest of two times, in microseconds. */
  function Max(a: int, b: int): int {
    if a < b then b else a
  }

  lemma HeapTimes(b: Shape, t: Table)
    requires Agree(b, t)
    ensures forall e | e in b.heap :: e in t && t[e].timeout && t[e].when.Plain() && !t[e].finalizing
  {
    forall e | e in b.heap ensures !t[e].finalizing {
      assert t[e].timeout;
    }
  }

  /** A heap that is not empty has an earliest event. */
  lemma {:induction false} Earliest(heap: set<Event>, t: Table) returns (e: Event)
    requires heap != {} && forall x | x in heap :: x in t && t[x].when.Plain()
    ensures e in heap && forall x | x in heap :: AtMost(t[e].when, t[x].when)
  {
    e :| e in heap;
    if heap != {e} {
      var f := Earliest(heap - {e}, t);
      e := if AtMost(t[e].when, t[f].when) then e else f;
    }
  }

  /** min_heap_top_ */
  method Top(base: EventBase) returns (top: Option<Event>)
    requires base.Core()
    ensures top.None? <==> base.heap == {}
    ensures top.Some? ==>
              && top.value in base.heap && top.value in base.states
              && forall e | e in base.heap ::
                 e in base.states && AtMost(base.states[top.value].when, base.states[e].when)
  {
    hide Agree, AtMost, Timeval.Plain;
    HeapTimes(base.Shape(), base.states);
    if base.heap == {} {
      return None;
    }
    ghost var first := Earliest(base.heap, base.states);
    forall e | e in base.heap ensures AtMost(first.when, e.when) {
      base.EvOf(first);
      base.EvOf(e);
    }
    var ev :| ev in base.heap && forall e | e in base.heap :: AtMost(ev.when, e.when);
    forall e | e in base.heap ensures AtMost(base.states[ev].when, base.states[e].when) {
      base.EvOf(ev);
      base.EvOf(e);
    }
    top := Some(ev);
  }

  /** An active callback is counted. */
  lemma ActiveCounted(b: Shape, t: Table, e: Event)
    requires Agree(b, t) && e in t && t[e].active
    ensures b.countActive > 0
  {
    QueueTotal(b.queues, e.pri);
    assert e in b.queues[e.pri];
  }

  lemma {:induction false} QueueTotal(queues: seq<seq<Event>>, p: nat)
    requires p < |queues|
    ensures Total(queues) >= |queues[p]|
  {
    if p > 0 {
      QueueTotal(queues[1..], p - 1);
    }
  }

  /**
   * While nothing is active, the first event in the heap is no later than any pending timeout, be it
   * in the heap or in a list.
   */
  lemma HeapIsFirst(b: Shape, t: Table, e: Event)
    requires Agree(b, t) && WakesBut(b.timers, b.lists, t, {}) && b.countActive == 0 && e in t && t[e].timeout
    ensures exists h :: h in b.heap && t[h].when.Us() <= t[e].when.Us()
  {
    hide Timeval.Us, Timeval.IsCommon, Timeval.Index, Timeval.Plain, FlagCount, Total;
    assert Placed(e, t[e], b.heap, b.lists);
    if t[e].when.Plain() {
      assert e in b.heap;
    } else {
      ListsOfTimeout(b.heap, b.lists, t, e);
      var i := t[e].when.Index();
      var l := b.lists[i];
      assert ListOk(l, i, |b.lists|, t);
      var k :| 0 <= k < |l| && l[k] == e;
      assert l[0] in l;
      var timer := b.timers[i];
      assert Wakes(timer, l, t) && IsTimer(timer, i, t);
      if t[timer].active {
        ActiveCounted(b, t, timer);
      }
      assert Placed(timer, t[timer], b.heap, b.lists);
      assert timer in b.heap;
    }
  }

  ghost predicate IsEarliest(h: Event, heap: set<Event>, t: Table) {
    h in heap && h in t && forall e | e in heap && e in t :: t[h].when.Us() <= t[e].when.Us()
  }

  /** A wait from `now` on, or for ever, does not miss any pending timeout. */
  ghost predicate InTime(tv: Option<Timeval>, now: Timeval, t: Table) {
    forall e | e in t && t[e].timeout :: tv.Some? && now.Us() + tv.value.Us() <= Max(now.Us(), t[e].when.Us())
  }

  lemma EarliestInTime(b: Shape, t: Table, now: Timeval, tv: Option<Timeval>, h: Event)
    requires Agree(b, t) && WakesBut(b.timers, b.lists, t, {}) && b.countActive == 0
    requires tv.None? ==> b.heap == {}
    requires tv.Some? ==> IsEarliest(h, b.heap, t) && now.Us() + tv.value.Us() == Max(now.Us(), t[h].when.Us())
    ensures InTime(tv, now, t)
  {
    hide Agree, WakesBut, Timeval.Us;
    HeapTimes(b, t);
    forall e | e in t && t[e].timeout
      ensures tv.Some? && now.Us() + tv.value.Us() <= Max(now.Us(), t[e].when.Us())
    {
      HeapIsFirst(b, t, e);
      var g :| g in b.heap && t[g].when.Us() <= t[e].when.Us();
    }
  }

  /**
   * timeout_next: how long the loop may wait; forever, if no timeout is pending in the heap. If no
   * callback is active, as is the case when the loop asks, no pending timeout is missed.
   */
  method TimeoutNext(base: EventBase, now: Timeval) returns (tv: Option<Timeval>)
    requires base.Valid() && now.Plain()
    ensures tv.None? <==> base.heap == {}
    ensures tv.Some? ==> tv.value.sec >= 0 && tv.value.Plain()
    ensures tv.Some? ==> exists h :: IsEarliest(h, base.heap, base.states)
                                     && now.Us() + tv.value.Us() == Max(now.Us(), base.states[h].when.Us())
    ensures base.eventCountActive == 0 ==> InTime(tv, now, base.states)
  {
    hide Agree, WakesBut, AtMost, Timeval.Plain, Timeval.Us, IsEarliest, InTime, TimerSub;
    HeapTimes(base.Shape(), base.states);
    var top := Top(base);
    if top.None? {
      if base.eventCountActive == 0 {
        NoneInTime(base.Shape(), base.states, now);
      }
      return None;
    }
    var ev := top.value;
    base.EvOf(ev);
    TopIsEarliest(ev, base.heap, base.states);
    PlainOrder(ev.when, now);
    SubUs(ev.when, now);
    ZeroTime();
    tv := Some(if AtMost(ev.when, now) then ZERO else TimerSub(ev.when, now));
    assert IsEarliest(ev, base.heap, base.states)
        && now.Us() + tv.value.Us() == Max(now.Us(), base.states[ev].when.Us());
    if base.eventCountActive == 0 {
      EarliestInTime(base.Shape(), base.states, now, tv, ev);
    }
  }

  lemma NoneInTime(b: Shape, t: Table, now: Timeval)
    requires Agree(b, t) && WakesBut(b.timers, b.lists, t, {}) && b.countActive == 0 && b.heap == {}
    ensures InTime(None, now, t)
  {
    hide Agree, WakesBut, Timeval.Us;
    forall e | e in t ensures !t[e].timeout {
      if t[e].timeout {
        HeapIsFirst(b, t, e);
      }
    }
  }

  lemma TopIsEarliest(h: Event, heap: set<Event>, t: Table)
    requires h in heap && h in t && forall e | e in heap :: e in t && t[e].when.Plain() && AtMost(t[h].when, t[e].when)
    ensures IsEarliest(h, heap, t)
  {
    hide Timeval.Us, AtMost, Timeval.Plain;
    forall e | e in heap ensures t[h].when.Us() <= t[e].when.Us() {
      PlainOrder(t[h].when, t[e].when);
    }
  }

  lemma PlainOrder(a: Timeval, b: Timeval)
    requires a.Plain() && b.Plain()
    ensures AtMost(a, b) <==> a.Us() <= b.Us()
  {
    PlainTime(a);
    PlainTime(b);
    Ordered(a, b);
  }

  lemma ZeroTime()
    ensures ZERO.Plain() && ZERO.Us() == 0
  {
  }

  /** An event whose time has come is deleted and becomes active. */
  method Fire(base: EventBase, ev: Event, ghost excused: set<Event>)
    requires base.Core() && base.Wakeful(excused) && ev in base.states && !base.states[ev].finalizing
    modifies base`heap, base`lists, base`queues, base`laterQueue, base`eventCount, base`eventCountActive,
             base`states, ev
    ensures base.Core() && base.Wakeful(excused)
    ensures base.states == old(base.states)[ev := Fired(old(base.states)[ev])] && ev.res == {TimedOut}
    ensures base.heap == old(base.heap) - {ev} && OnlyLoses(old(base.lists), base.lists, ev)
    ensures !old(base.states)[ev].timeout || old(base.states)[ev].when.Plain() ==> base.lists == old(base.lists)
  {
    hide Agree, EventBase.Tracked, WakesBut, OnlyLoses, Timeval.Plain;
    ghost var t := base.states;
    var r := base.Del(ev, false, 0, excused);
    ghost var excused' := if ev in base.commonTimers then excused + {ev} else excused;
    ghost var s1 := base.states[ev];
    base.Activate(ev, {TimedOut}, excused');
    MoreExcused(base.commonTimers, base.lists, base.states, excused' - {ev}, excused);
    Overwrite(t, ev, s1, base.states[ev]);
  }

  ghost function Fired(s: EvState): EvState {
    s.(inserted := false, timeout := false, active := true, later := false)
  }

  /** Every event in `heap` that is due has fired, and nothing else has changed. */
  ghost function AllFired(t: Table, heap: set<Event>, now: Timeval): (u: Table)
    ensures u.Keys == t.Keys
  {
    map e | e in t :: if e in heap && AtMost(t[e].when, now) then Fired(t[e]) else t[e]
  }

  /** What each event has been, or will be, active for. */
  ghost function Results(events: set<Event>): (m: map<Event, set<Result>>)
    reads events
    ensures m.Keys == events
  {
    map e | e in events :: e.res
  }

  ghost function AllTimedOut(m: map<Event, set<Result>>, t: Table, heap: set<Event>, now: Timeval):
    (m': map<Event, set<Result>>)
    ensures m'.Keys == m.Keys
  {
    map e | e in m :: if e in heap && e in t && AtMost(t[e].when, now) then {TimedOut} else m[e]
  }

  /** One round of the loop below: the first event in the heap fires, if it is due. */
  method FireTop(base: EventBase, now: Timeval) returns (fired: Option<Event>)
    requires base.Valid()
    modifies base`heap, base`lists, base`queues, base`laterQueue, base`eventCount, base`eventCountActive, base`states,
             base.states.Keys
    ensures base.Valid() && base.lists == old(base.lists) && base.states.Keys == old(base.states).Keys
    ensures fired.None? ==>
              && base.states == old(base.states) && base.heap == old(base.heap)
              && forall e | e in base.heap :: e in base.states && !AtMost(base.states[e].when, now)
    ensures fired.Some? ==>
              var e := fired.value;
              && e in old(base.heap) && e in old(base.states) && AtMost(old(base.states)[e].when, now)
              && base.heap == old(base.heap) - {e} && e.res == {TimedOut}
              && base.states == old(base.states)[e := Fired(old(base.states)[e])]
    ensures Results(base.states.Keys) == if fired.None? then old(Results(base.states.Keys))
                                         else old(Results(base.states.Keys))[fired.value := {TimedOut}]
  {
    hide Agree, EventBase.Tracked, WakesBut, AtMost, Timeval.Plain, Fired;
    HeapTimes(base.Shape(), base.states);
    var top := Top(base);
    if top.None? {
      return None;
    }
    var ev := top.value;
    base.EvOf(ev);
    if !AtMost(ev.when, now) {
      NoneDue(base.heap, base.states, ev, now);
      return None;
    }
    Fire(base, ev, {});
    fired := Some(ev);
  }

  /**
   * timeout_process: the events in the heap whose time has come become active, and no others. The loop
   * ends, because an event in the heap is not finalizing, so that event_del takes it out.
   */
  method TimeoutProcess(base: EventBase, now: Timeval)
    requires base.Valid()
    modifies base`heap, base`lists, base`queues, base`laterQueue, base`eventCount, base`eventCountActive, base`states,
             base.states.Keys
    ensures base.Valid() && base.lists == old(base.lists)
    ensures forall e | e in base.heap :: e in base.states && !AtMost(base.states[e].when, now)
    ensures base.states == AllFired(old(base.states), old(base.heap), now)
    ensures base.heap == set e | e in old(base.heap) && e in old(base.states) && !AtMost(old(base.states)[e].when, now)
    ensures forall e | e in base.states ::
              if e in old(base.heap) && AtMost(old(base.states)[e].when, now) then
                HasFired(old(base.states)[e], base.states[e]) && e.res == {TimedOut}
              else base.states[e] == old(base.states)[e] && e.res == old(e.res)
  {
    hide EventBase.Valid, EventBase.Shape, AtMost, AllFired, HasFired, Fired, Results, AllTimedOut;
    ghost var t, h, m := base.states, base.heap, Results(base.states.Keys);
    HeapKnown(base);
    AllHaveFired(t, m, h, now);
    ResultsAre(t.Keys);
    if base.heap == {} {
      NothingFired(t, now);
      return;
    }
    while true
      invariant base.Valid() && base.lists == old(base.lists) && base.states.Keys == t.Keys && base.heap <= h
      invariant AllFired(base.states, base.heap, now) == AllFired(t, h, now)
      invariant forall e | e in base.heap :: e in t && base.states[e] == t[e]
      invariant forall e | e in h && e !in base.heap :: e in t && AtMost(t[e].when, now)
      invariant AllTimedOut(Results(t.Keys), base.states, base.heap, now) == AllTimedOut(m, t, h, now)
      decreases |base.heap|
    {
      ghost var t1, m1, h1 := base.states, Results(t.Keys), base.heap;
      var fired := FireTop(base, now);
      if fired.None? {
        break;
      }
      FiredStep(t1, m1, h1, fired.value, now);
    }
    NothingDue(base.states, Results(t.Keys), base.heap, now);
    ResultsAre(t.Keys);
  }

  lemma HeapKnown(base: EventBase)
    requires base.Valid()
    ensures base.heap <= base.states.Keys
  {
    hide Agree, WakesBut, EventBase.Tracked;
    HeapTimes(base.Shape(), base.states);
  }

  /** The event is active, and not waiting any more. */
  ghost predicate HasFired(s: EvState, s': EvState) {
    && s'.active && !s'.later && !s'.inserted && !s'.timeout
    && s'.finalizing == s.finalizing && s'.closure == s.closure && s'.when == s.when && s'.interval == s.interval
  }

  lemma ResultsAre(events: set<Event>)
    ensures forall e | e in events :: Results(events)[e] == e.res
  {
  }

  lemma AllHaveFired(t: Table, m: map<Event, set<Result>>, heap: set<Event>, now: Timeval)
    requires m.Keys == t.Keys
    ensures forall e | e in t ::
              if e in heap && AtMost(t[e].when, now) then
                HasFired(t[e], AllFired(t, heap, now)[e]) && AllTimedOut(m, t, heap, now)[e] == {TimedOut}
              else AllFired(t, heap, now)[e] == t[e] && AllTimedOut(m, t, heap, now)[e] == m[e]
  {
    hide AtMost;
  }

  lemma NothingFired(t: Table, now: Timeval)
    ensures AllFired(t, {}, now) == t
  {
  }

  /** If the earliest event is not due, none is. */
  lemma NoneDue(heap: set<Event>, t: Table, h: Event, now: Timeval)
    requires h in heap && h in t && !AtMost(t[h].when, now)
    requires forall e | e in heap :: e in t && AtMost(t[h].when, t[e].when)
    ensures forall e | e in heap :: !AtMost(t[e].when, now)
  {
  }

  lemma NothingDue(t: Table, m: map<Event, set<Result>>, heap: set<Event>, now: Timeval)
    requires forall e | e in heap :: e in t && !AtMost(t[e].when, now)
    ensures AllFired(t, heap, now) == t && AllTimedOut(m, t, heap, now) == m
  {
  }

  lemma FiredStep(t: Table, m: map<Event, set<Result>>, heap: set<Event>, e: Event, now: Timeval)
    requires e in heap && e in t && AtMost(t[e].when, now) && m.Keys == t.Keys
    ensures AllFired(t[e := Fired(t[e])], heap - {e}, now) == AllFired(t, heap, now)
    ensures AllTimedOut(m[e := {TimedOut}], t[e := Fired(t[e])], heap - {e}, now) == AllTimedOut(m, t, heap, now)
  {
    hide AtMost;
    var u := t[e := Fired(t[e])];
    forall x | x in t ensures AllFired(u, heap - {e}, now)[x] == AllFired(t, heap, now)[x] {
    }
  }

  // ----- Common timeouts -----

  ghost function ListFired(t: Table, l: seq<Event>, now: Timeval): (u: Table)
    ensures u.Keys == t.Keys
  {
    map e | e in t :: if e in l && t[e].when.Us() <= now.Us() then Fired(t[e]) else t[e]
  }

  /** The first event of a list, and what it means that its time has come. */
  lemma HeadFacts(b: Shape, t: Table, i: nat, now: Timeval)
    requires Agree(b, t) && i < |b.lists| && b.lists[i] != [] && now.Plain()
    ensures
      var e := b.lists[i][0];
      && e in t && t[e].timeout && !t[e].finalizing
      && (AtMost(t[e].when.Masked(), now) <==> t[e].when.Us() <= now.Us())
    ensures forall e | e in b.lists[i] :: e in t && t[b.lists[i][0]].when.Us() <= t[e].when.Us()
  {
    hide Timeval.IsCommon, Timeval.Index, Timeval.Us, AtMost;
    var l := b.lists[i];
    assert ListOk(l, i, |b.lists|, t);
    assert l[0] in l;
    assert t[l[0]].when.WellFormed(|b.lists|);
    MaskedTime(t[l[0]].when);
    PlainOrder(t[l[0]].when.Masked(), now);
    forall e | e in l ensures e in t && t[l[0]].when.Us() <= t[e].when.Us() {
      var k :| 0 <= k < |l| && l[k] == e;
    }
  }

  /** An event that has lost its timeout is in no list any more. */
  lemma HeadGone(was: seq<seq<Event>>, b: Shape, t: Table, i: nat)
    requires Agree(b, t) && i < |was| && was[i] != [] && NoDup(was[i]) && OnlyLoses(was, b.lists, was[i][0])
    requires was[i][0] in t && !t[was[i][0]].timeout
    ensures |b.lists| == |was| && b.lists[i] == was[i][1..]
  {
    var e := was[i][0];
    assert ListOk(b.lists[i], i, |b.lists|, t);
    assert e in was[i];
    WithoutFacts(was[i], e);
  }

  lemma ListNoDup(b: Shape, t: Table, i: nat)
    requires Agree(b, t) && i < |b.lists|
    ensures NoDup(b.lists[i])
  {
    assert ListOk(b.lists[i], i, |b.lists|, t);
  }

  lemma ListStep(t: Table, l: seq<Event>, now: Timeval)
    requires l != [] && NoDup(l) && l[0] in t && t[l[0]].when.Us() <= now.Us()
    ensures ListFired(t[l[0] := Fired(t[l[0]])], l[1..], now) == ListFired(t, l, now)
  {
    hide Timeval.Us;
    assert l == [l[0]] + l[1..];
    assert l[0] !in l[1..];
  }

  lemma ListDone(t: Table, l: seq<Event>, now: Timeval)
    requires forall e | e in l :: e in t && now.Us() < t[e].when.Us()
    ensures ListFired(t, l, now) == t
  {
  }

  /**
   * common_timeout_callback: the events at the front of the list whose time has come become active; if
   * others are left, the timer is set for the first of them.
   */
  method CommonTimeoutCallback(base: EventBase, i: nat, now: Timeval)
    requires base.Core() && i < |base.lists| == |base.commonTimers| && now.Plain()
             && base.Wakeful({base.commonTimers[i]})
    modifies base`heap, base`lists, base`queues, base`laterQueue, base`eventCount, base`eventCountActive, base`states,
             base.states.Keys
    ensures base.Valid() && |base.lists| == |old(base.lists)| && base.states.Keys == old(base.states).Keys
    ensures forall e | e in base.lists[i] :: e in base.states && now.Us() < base.states[e].when.Us()
    ensures base.commonTimers[i] in base.states
    ensures var timer := base.commonTimers[i];
            base.states == ListFired(old(base.states), old(base.lists)[i], now)[timer := base.states[timer]]
    ensures forall e | e in base.states && e != base.commonTimers[i] ::
              if e in old(base.lists)[i] && old(base.states)[e].when.Us() <= now.Us() then
                HasFired(old(base.states)[e], base.states[e])
              else base.states[e] == old(base.states)[e]
  {
    hide Agree, EventBase.Tracked, WakesBut, AtMost, Timeval.Plain, Timeval.Us, ListFired, OnlyLoses, NoDup,
         HasFired;
    ghost var t, l, timer := base.states, base.lists[i], base.commonTimers[i];
    TimerKnown(base.Shape(), base.states, i);
    while base.lists[i] != []
      invariant base.Core() && |base.lists| == |old(base.lists)| && base.Wakeful({timer}) && base.states.Keys == t.Keys
      invariant ListFired(base.states, base.lists[i], now) == ListFired(t, l, now)
      decreases |base.lists[i]|
    {
      var ev := base.lists[i][0];
      HeadFacts(base.Shape(), base.states, i, now);
      base.EvOf(ev);
      if !AtMost(ev.when.Masked(), now) {
        break;
      }
      ListNoDup(base.Shape(), base.states, i);
      ListStep(base.states, base.lists[i], now);
      ghost var lists0 := base.lists;
      Fire(base, ev, {timer});
      HeadGone(lists0, base.Shape(), base.states, i);
    }
    RestLater(base.Shape(), base.states, i, now);
    ListDone(base.states, base.lists[i], now);
    if base.lists[i] != [] {
      Schedule(base, i, now);
    } else {
      NothingToWake(base.commonTimers, base.lists, base.states, i);
    }
    ListHasFired(t, l, now);
  }

  lemma ListHasFired(t: Table, l: seq<Event>, now: Timeval)
    ensures forall e | e in t ::
              if e in l && t[e].when.Us() <= now.Us() then HasFired(t[e], ListFired(t, l, now)[e])
              else ListFired(t, l, now)[e] == t[e]
  {
    hide Timeval.Us;
  }

  method Schedule(base: EventBase, i: nat, now: Timeval)
    requires base.Core() && i < |base.lists| == |base.commonTimers| && base.lists[i] != [] && now.Plain()
    requires base.Wakeful({base.commonTimers[i]})
    modifies base`heap, base`lists, base`queues, base`laterQueue, base`eventCount, base`eventCountActive, base`states,
             base.states.Keys
    ensures base.Valid() && base.lists == old(base.lists)
    ensures base.commonTimers[i] in old(base.states)
    ensures base.states == old(base.states)[base.commonTimers[i] := base.states[base.commonTimers[i]]]
    ensures forall e | e in base.lists[i] :: e in base.states && e in old(base.states)
                                             && base.states[e].when == old(base.states)[e].when
  {
    hide Agree, EventBase.Tracked, WakesBut, Timeval.Plain;
    ghost var timer := base.commonTimers[i];
    TimerNotListed(base.Shape(), base.states, i);
    base.Schedule(i, now, {timer});
    assert {timer} - {timer} == {};
  }

  lemma TimerKnown(b: Shape, t: Table, i: nat)
    requires Agree(b, t) && i < |b.timers|
    ensures b.timers[i] in t
  {
    assert IsTimer(b.timers[i], i, t);
  }

  lemma TimerNotListed(b: Shape, t: Table, i: nat)
    requires Agree(b, t) && i < |b.timers|
    ensures forall e | e in b.lists[i] :: e in t && e != b.timers[i]
  {
    assert IsTimer(b.timers[i], i, t);
    assert ListOk(b.lists[i], i, |b.lists|, t);
    NotCommon(t[b.timers[i]].when, |b.lists|);
  }

  lemma NothingToWake(timers: seq<Event>, lists: seq<seq<Event>>, t: Table, i: nat)
    requires |timers| == |lists| && i < |lists| && lists[i] == [] && WakesBut(timers, lists, t, {timers[i]})
    requires timers[i] in t && forall j | 0 <= j < |timers| && timers[j] == timers[i] :: j == i
    ensures WakesBut(timers, lists, t, {})
  {
  }

  /** If the first event in a list is not due, or there is none, none is. */
  lemma RestLater(b: Shape, t: Table, i: nat, now: Timeval)
    requires Agree(b, t) && i < |b.lists| && now.Plain()
    requires b.lists[i] != [] ==> b.lists[i][0] in t && !AtMost(t[b.lists[i][0]].when.Masked(), now)
    ensures forall e | e in b.lists[i] :: e in t && now.Us() < t[e].when.Us()
    ensures |b.timers| == |b.lists| && forall j | 0 <= j < |b.timers| && b.timers[j] == b.timers[i] :: j == i
  {
    hide AtMost, Timeval.Us;
    if b.lists[i] != [] {
      HeadFacts(b, t, i, now);
    }
  }

  // ----- Running callbacks -----

  /**
   * When a persistent event with an interval runs next: an interval after it was due if it ran because
   * of its timeout, or after now; and if that is in the past, an interval after now.
   */
  ghost function NextRun(s: EvState, timedOut: bool, now: Timeval): (next: int)
    ensures s.interval.Us() >= 0 ==> next >= now.Us()
    ensures timedOut && s.when.Us() <= now.Us() ==> next <= now.Us() + s.interval.Us()
    ensures next == now.Us() + s.interval.Us() || (timedOut && next == s.when.Us() + s.interval.Us())
    ensures timedOut && s.when.Us() + s.interval.Us() >= now.Us() ==> next == s.when.Us() + s.interval.Us()
  {
    var next := (if timedOut then s.when.Us() else now.Us()) + s.interval.Us();
    if next < now.Us() then now.Us() + s.interval.Us() else next
  }

  /** The time event_persist_closure computes. */
  method RunAt(ev: Event, now: Timeval, n: nat) returns (runAt: Timeval)
    requires now.Plain() && ev.when.WellFormed(n) && ev.interval.WellFormed(n) && ev.interval.Tag() == ev.when.Tag()
    ensures runAt.WellFormed(n) && runAt.Tag() == ev.interval.Tag()
    ensures runAt.Us() == NextRun(ev.State(), TimedOut in ev.res, now)
  {
    hide AtMost, TimerAdd, Tagged, Timeval.IsCommon, Timeval.Index, Timeval.Us, Timeval.Masked, Timeval.Micros,
         Timeval.Tag, Timeval.Plain;
    SameTag(ev.when, ev.interval, n);
    PlainOrCommon(ev.when, n);
    MaskedTime(ev.when);
    MaskedTime(ev.interval);
    PlainAsIs(ev.when);
    PlainAsIs(ev.interval);
    var delay, usecMask, relativeTo := ev.interval, 0, now;
    if ev.when.IsCommon(n) {
      usecMask := delay.Tag();
      delay := delay.Masked();
      if TimedOut in ev.res {
        relativeTo := ev.when.Masked();
      }
    } else if TimedOut in ev.res {
      relativeTo := ev.when;
    }
    runAt := TimerAdd(relativeTo, delay);
    AddUs(relativeTo, delay);
    PlainOrder(now, runAt);
    if !AtMost(now, runAt) {
      runAt := TimerAdd(now, delay);
      AddUs(now, delay);
    }
    TaggedWell(runAt, ev.interval, n);
    runAt := Tagged(runAt, usecMask);
  }

  lemma PlainAsIs(a: Timeval)
    ensures a.Plain() ==> a.Masked() == a && a.Tag() == 0
  {
  }

  lemma TaggedWell(a: Timeval, b: Timeval, n: nat)
    requires a.Plain() && b.WellFormed(n)
    ensures var c := Tagged(a, b.Tag()); c.WellFormed(n) && c.Tag() == b.Tag() && c.Us() == a.Us()
  {
    TaggedTime(a, b);
    PlainOrCommon(b, n);
    PlainAsIs(b);
    PlainTime(a);
  }

  /** A persistent event whose interval is not zero is pending again, unless adding it fails. */
  ghost predicate Persisted(s: EvState, s': EvState, hasSource: bool, timedOut: bool, now: Timeval, evmapResult: int)
    requires -1 <= evmapResult <= 1
  {
    if s.interval == ZERO || AddFails(s, hasSource, evmapResult) then s' == s
    else
      && s'.timeout && s'.when.Us() == NextRun(s, timedOut, now)
      && s'.when.Tag() == s.interval.Tag() && s'.interval == s.interval
      && s'.active == (s.active && !timedOut) && s'.inserted == (s.inserted || NeedsSource(s, hasSource))
      && s'.later == s.later && s'.finalizing == s.finalizing && s'.closure == s.closure
  }

  /** event_persist_closure, up to the call: an event with an interval is pending again. */
  method PersistClosure(base: EventBase, ev: Event, now: Timeval, evmapResult: int) returns (r: int)
    requires base.Valid() && ev in base.states && ev !in base.commonTimers && now.Plain() && -1 <= evmapResult <= 1
    modifies base`heap, base`lists, base`queues, base`laterQueue, base`eventCount, base`eventCountActive, base`states,
             base.states.Keys
    ensures base.Valid() && base.states.Keys == old(base.states).Keys && |base.lists| == |old(base.lists)|
    ensures Persisted(old(base.states)[ev], base.states[ev], ev.hasSource, TimedOut in old(ev.res), now, evmapResult)
    ensures OthersKept(old(base.states), base.states, ev, base.commonTimers)
    ensures old(base.states)[ev].interval.Plain() ==> base.states == old(base.states)[ev := base.states[ev]]
  {
    hide Agree, EventBase.Tracked, WakesBut, Timeval.Plain, Timeval.Us, Timeval.Tag, Timeval.WellFormed, NextRun,
         AddFails, Deadline;
    r := 0;
    base.EvOf(ev);
    SoundOf(base.Shape(), base.states, ev);
    TimesSound(base.Shape(), base.states, ev);
    if ev.interval.sec != 0 || ev.interval.usec != 0 {
      var runAt := RunAt(ev, now, |base.lists|);
      SameTag(runAt, ev.interval, |base.lists|);
      DeadlineFacts(runAt, true, now, |base.lists|);
      r := base.Add(ev, Some(runAt), true, now, evmapResult, {});
    }
  }

  lemma TimesSound(b: Shape, t: Table, e: Event)
    requires Agree(b, t) && e in t
    ensures t[e].when.WellFormed(|b.lists|) && (t[e].closure == Persistent ==> e.isEvent && e.persist)
    ensures t[e].interval != ZERO ==> t[e].interval.Tag() == t[e].when.Tag()
  {
  }

  /** A callback whose turn it is: only a persistent or finalizing one stays on other structures. */
  function Taken(s: EvState, ev: Event): EvState {
    if !ev.isEvent || ev.persist || s.finalizing then s.(active := false)
    else s.(inserted := false, timeout := false, active := false, later := false)
  }

  /** The first active callback of priority `p` leaves its queue, and everything else if it is not persistent. */
  method TakeFirst(base: EventBase, p: nat, evmapResult: int) returns (ev: Event)
    requires base.Valid() && p < |base.queues| && base.queues[p] != [] && -1 <= evmapResult <= 1
    modifies base`heap, base`lists, base`queues, base`laterQueue, base`eventCount, base`eventCountActive, base`states,
             base.queues[p][0]
    ensures base.Core() && ev == old(base.queues[p][0]) && ev in old(base.states) && ev.res == old(ev.res)
    ensures base.Wakeful(if ev in base.commonTimers then {ev} else {}) && |base.lists| == |old(base.lists)|
    ensures base.states == old(base.states)[ev := Taken(old(base.states)[ev], ev)]
  {
    hide Agree, EventBase.Tracked, WakesBut, OnlyLoses, Timeval.Plain, Without;
    ev := base.queues[p][0];
    FirstActive(base.Shape(), base.states, p);
    base.EvOf(ev);
    if !ev.isEvent || ev.persist || ev.finalizing {
      NotTimer(base.Shape(), base.states, ev);
      WakesChanged(base.Shape(), base.states, ev, base.states[ev].(active := false), {});
      base.RemoveActive(ev);
    } else {
      ghost var lists0 := base.lists;
      var r := base.Del(ev, false, evmapResult, {});
      SameLength(lists0, base.lists, ev);
      assert {} + {ev} == {ev};
    }
  }

  lemma FirstActive(b: Shape, t: Table, p: nat)
    requires Agree(b, t) && p < |b.queues| && b.queues[p] != []
    ensures var e := b.queues[p][0]; e in t && t[e].active && e.pri == p
  {
  }

  lemma NotTimer(b: Shape, t: Table, e: Event)
    requires Agree(b, t) && e in t
    ensures !e.isEvent || e.persist || t[e].finalizing ==> e !in b.timers
    ensures e.callback.CommonTimeout? <==> e in b.timers
    ensures e.callback.CommonTimeout? ==> e.callback.list < |b.timers| == |b.lists| && b.timers[e.callback.list] == e
    ensures t[e].closure == Persistent ==> e !in b.timers
  {
    forall i {:trigger b.timers[i]} | 0 <= i < |b.timers| ensures IsTimer(b.timers[i], i, t) {
    }
  }

  /**
   * What has become of an event or a deferred callback that has run. Only an event with EV_PERSIST
   * stays where it waits, and it is pending again if it remembers an interval.
   */
  ghost predicate HasRun(ev: Event, s: EvState, s': EvState, timedOut: bool, now: Timeval, evmapResult: int) {
    && !s'.active && !s'.later && s'.finalizing == s.finalizing && s'.closure == s.closure && s'.interval == s.interval
    && (!ev.isEvent || s.finalizing ==> s' == s.(active := false))
    && (ev.isEvent && !ev.persist && !s.finalizing ==> !s'.inserted && !s'.timeout)
    && (ev.isEvent && ev.persist && !s.finalizing ==>
          && (s.inserted ==> s'.inserted)
          && (s.closure != Persistent || s.interval == ZERO ==>
                s'.inserted == s.inserted && s'.timeout == s.timeout && s'.when == s.when)
          && (s.closure == Persistent && s.interval != ZERO && (s.inserted || !ev.hasSource || evmapResult != -1) ==>
                && s'.inserted == (s.inserted || ev.hasSource)
                && s'.timeout && s'.when.Us() == NextRun(s, timedOut, now) && s'.when.Tag() == s.interval.Tag())
          && (s.closure == Persistent && s.interval != ZERO && !(s.inserted || !ev.hasSource || evmapResult != -1) ==>
                s' == s.(active := false)))
  }

  /** The event is in the heap, in a list, or in a queue. */
  ghost predicate Somewhere(b: Shape, e: Event) {
    || e in b.heap || e in b.later || (exists i | 0 <= i < |b.lists| :: e in b.lists[i])
    || exists p | 0 <= p < |b.queues| :: e in b.queues[p]
  }

  lemma NowhereLeft(b: Shape, t: Table, e: Event)
    requires Agree(b, t) && e in t && !t[e].timeout && !t[e].active && !t[e].later
    ensures !Somewhere(b, e)
  {
    hide Timeval.IsCommon, Timeval.Index, FlagCount, Total, Sound;
    forall i | 0 <= i < |b.lists| ensures e !in b.lists[i] {
      assert ListOk(b.lists[i], i, |b.lists|, t);
    }
  }

  lemma RunFacts(b: Shape, t: Table, ev: Event, s': EvState, timedOut: bool, now: Timeval, evmapResult: int)
    requires Agree(b, t) && ev in t && t[ev].active && -1 <= evmapResult <= 1
    requires var s := Taken(t[ev], ev);
             if s.closure == Persistent then Persisted(s, s', ev.hasSource, timedOut, now, evmapResult) else s' == s
    ensures HasRun(ev, t[ev], s', timedOut, now, evmapResult)
  {
    hide Agree, NextRun, Timeval.Us, Timeval.Tag;
    SoundOf(b, t, ev);
    NotBoth(b, t, ev);
    NextRunOf(t[ev], Taken(t[ev], ev), timedOut, now);
  }

  lemma NextRunOf(s: EvState, s1: EvState, timedOut: bool, now: Timeval)
    requires s1.when == s.when && s1.interval == s.interval
    ensures NextRun(s1, timedOut, now) == NextRun(s, timedOut, now)
  {
  }

  /**
   * One round of event_process_active_single_queue, up to the call into the user's code: internal
   * callbacks are run, and a persistent event is scheduled again.
   */
  method ProcessFirst(base: EventBase, p: nat, now: Timeval, evmapResult: int) returns (ev: Event)
    requires base.Valid() && p < |base.queues| && base.queues[p] != [] && now.Plain() && -1 <= evmapResult <= 1
    modifies base`heap, base`lists, base`queues, base`laterQueue, base`eventCount, base`eventCountActive, base`states,
             base.states.Keys
    ensures base.Valid() && base.states.Keys == old(base.states).Keys && ev == old(base.queues[p][0])
    ensures ev in base.states && (ev !in base.commonTimers ==> !base.states[ev].active)
    ensures ev !in base.commonTimers ==> OthersKept(old(base.states), base.states, ev, base.commonTimers)
    ensures ev !in base.commonTimers ==>
              HasRun(ev, old(base.states)[ev], base.states[ev], TimedOut in old(ev.res), now, evmapResult)
    ensures ev !in base.commonTimers && ev.isEvent && !ev.persist && !old(base.states)[ev].finalizing ==>
              !Somewhere(base.Shape(), ev)
    ensures ev !in base.commonTimers
            && (old(base.states)[ev].closure != Persistent || old(base.states)[ev].interval.Plain()) ==>
              base.states == old(base.states)[ev := base.states[ev]]
    ensures forall i | 0 <= i < |base.commonTimers| && base.commonTimers[i] == ev ::
              i < |base.lists| && forall e | e in base.lists[i] ::
                e in base.states && now.Us() < base.states[e].when.Us()
  {
    hide Agree, EventBase.Tracked, WakesBut, Timeval.Plain, NextRun, AddFails, ListFired, Persisted, HasRun, Somewhere;
    FirstActive(base.Shape(), base.states, p);
    ghost var t, b := base.states, base.Shape();
    ev := TakeFirst(base, p, evmapResult);
    ghost var s1, timedOut := base.states[ev], TimedOut in ev.res;
    base.EvOf(ev);
    NotTimer(base.Shape(), base.states, ev);
    match ev.callback {
      case CommonTimeout(i) => CommonTimeoutCallback(base, i, now);
      case User =>
        if ev.closure == Persistent {
          var r := PersistClosure(base, ev, now, evmapResult);
          OthersTrans(t, s1, base.states, ev, base.commonTimers);
        }
        if ev !in base.commonTimers {
          RunFacts(b, t, ev, base.states[ev], timedOut, now, evmapResult);
          AfterRun(ev, t[ev], base.states[ev], timedOut, now, evmapResult);
          if ev.isEvent && !ev.persist && !t[ev].finalizing {
            NowhereLeft(base.Shape(), base.states, ev);
          }
        }
    }
    TimerIndex(base.Shape(), base.states, ev);
  }

  lemma AfterRun(ev: Event, s: EvState, s': EvState, timedOut: bool, now: Timeval, evmapResult: int)
    requires HasRun(ev, s, s', timedOut, now, evmapResult)
    ensures !s'.active && !s'.later
    ensures ev.isEvent && !ev.persist && !s.finalizing ==> !s'.timeout
  {
  }

  /** A timer knows the number of its list. */
  lemma TimerIndex(b: Shape, t: Table, e: Event)
    requires Agree(b, t)
    ensures |b.lists| == |b.timers|
    ensures forall i {:trigger b.timers[i]} | 0 <= i < |b.timers| && b.timers[i] == e :: e.callback == CommonTimeout(i)
  {
    forall i {:trigger b.timers[i]} | 0 <= i < |b.timers| ensures IsTimer(b.timers[i], i, t) {
    }
  }

  /** event_active_later_nolock_ */
  method ActiveLater(base: EventBase, ev: Event, res: set<Result>)
    requires base.Valid() && ev in base.states && ev !in base.commonTimers
    modifies base`laterQueue, base`eventCount, base`eventCountActive, base`states, ev
    ensures base.Valid()
    ensures
      var s := old(base.states)[ev];
      && base.states == old(base.states)[ev := if s.active then s else s.(later := true)]
      && ev.res == (if s.active || s.later then old(ev.res) + res else res)
      && base.laterQueue == if s.active || s.later then old(base.laterQueue) else old(base.laterQueue) + [ev]
  {
    hide Agree, EventBase.Tracked, WakesBut;
    base.EvOf(ev);
    if ev.active || ev.later {
      base.AddResult(ev, res);
      assert base.states == base.states[ev := base.states[ev]];
      return;
    }
    base.SetResult(ev, res);
    WakesChanged(base.Shape(), base.states, ev, base.states[ev].(later := true), {});
    base.InsertLater(ev);
  }

  /**
   * event_finalize_nolock_: the event leaves all structures and becomes active one last time. From then
   * on event_add, event_active and event_del leave it alone.
   */
  method Finalize(base: EventBase, ev: Event, free: bool, evmapResult: int)
    requires base.Valid() && ev in base.states && ev !in base.commonTimers && -1 <= evmapResult <= 1
    modifies base`heap, base`lists, base`queues, base`laterQueue, base`eventCount, base`eventCountActive,
             base`states, ev
    ensures base.Valid()
    ensures
      var s := old(base.states)[ev];
      var closure := if free then FinalizeFree else FinalizeEvent;
      base.states == old(base.states)[ev :=
        if s.finalizing then s.(closure := closure)
        else s.(inserted := false, timeout := false, active := true, later := false, finalizing := true,
          closure := closure)]
  {
    hide Agree, EventBase.Tracked, WakesBut, OnlyLoses, Timeval.WellFormed, Timeval.Tag, Timeval.Plain;
    ghost var t := base.states;
    NotBoth(base.Shape(), base.states, ev);
    if base.states[ev].finalizing {
      FinalHasNone(base.Shape(), base.states, ev);
    }
    var r := base.Del(ev, false, evmapResult, {});
    ghost var s1 := base.states[ev];
    base.Activate(ev, {Finalized}, {});
    assert {} - {ev} == {};
    ghost var s2 := base.states[ev];
    BecomeFinal(base, ev, if free then FinalizeFree else FinalizeEvent);
    Overwrite(t, ev, s1, s2);
    Overwrite(t, ev, s2, base.states[ev]);
    assert t[ev := t[ev]] == t;
  }

  /** The flag FINALIZING and the closure, for an event that is on no structure but the queues. */
  method BecomeFinal(base: EventBase, ev: Event, closure: Closure)
    requires base.Valid() && ev in base.states && ev !in base.commonTimers
    requires !base.states[ev].inserted && !base.states[ev].timeout && closure != Persistent
    modifies base`states, ev
    ensures base.Valid() && ev.res == old(ev.res)
    ensures base.states == old(base.states)[ev := old(base.states)[ev].(finalizing := true, closure := closure)]
  {
    hide Agree, EventBase.Tracked, WakesBut, Timeval.WellFormed, Timeval.Tag, Timeval.Plain;
    TimesSound(base.Shape(), base.states, ev);
    SoundOf(base.Shape(), base.states, ev);
    base.EvOf(ev);
    var s := ev.State().(finalizing := true, closure := closure);
    WakesChanged(base.Shape(), base.states, ev, s, {});
    base.SetDetails(ev, s);
  }

  lemma FinalHasNone(b: Shape, t: Table, e: Event)
    requires Agree(b, t) && e in t && t[e].finalizing
    ensures !t[e].inserted && !t[e].timeout
  {
  }

  // ----- Setting up -----

  /** event_assign and event_base_set: the base learns of an event. */
  method Assign(base: EventBase, ev: Event)
    requires base.Valid() && ev !in base.states && Unused(ev.State()) && ev.pri < |base.queues| && ev.callback.User?
    requires ev.closure == Persistent ==> ev.isEvent && ev.persist
    modifies base`states
    ensures base.Valid() && base.states == old(base.states)[ev := ev.State()]
  {
    hide Agree, WakesBut;
    TableGrows(base.Shape(), base.states, ev, ev.State());
    HeadsKnown(base.Shape(), base.states);
    WakesNew(base.commonTimers, base.lists, base.states, ev, ev.State());
    base.states := base.states[ev := ev.State()];
  }

  lemma WakesNew(timers: seq<Event>, lists: seq<seq<Event>>, t: Table, e: Event, s: EvState)
    requires WakesBut(timers, lists, t, {}) && e !in t && Unused(s)
    requires forall i {:trigger lists[i]} | 0 <= i < |lists| && lists[i] != [] :: lists[i][0] in t
    ensures WakesBut(timers, lists, t[e := s], {})
  {
    forall i {:trigger lists[i]} {:trigger timers[i]} | 0 <= i < |lists| ensures Wakes(timers[i], lists[i], t[e := s]) {
      assert Wakes(timers[i], lists[i], t);
    }
  }

  lemma HeadsKnown(b: Shape, t: Table)
    requires Agree(b, t)
    ensures forall i {:trigger b.lists[i]} | 0 <= i < |b.lists| && b.lists[i] != [] :: b.lists[i][0] in t
  {
    forall i {:trigger b.lists[i]} | 0 <= i < |b.lists| && b.lists[i] != [] ensures b.lists[i][0] in t {
      assert ListOk(b.lists[i], i, |b.lists|, t);
      assert b.lists[i][0] in b.lists[i];
    }
  }

  /** The durations of the common timeouts carry the indices of their lists. */
  ghost predicate DurationsOk(durations: seq<Timeval>, n: nat) {
    && |durations| == n
    && forall i | 0 <= i < n ::
         durations[i].Index() == i && durations[i].IsCommon(n) && durations[i].Micros() <= MILLION
         && (durations[i].Micros() < MILLION ==> durations[i].WellFormed(n))
  }

  /** A duration as event_base_init_common_timeout sees it. */
  function Normalized(d: Timeval, n: nat): Timeval {
    if d.usec > MILLION then
      var u := if d.IsCommon(n) then d.Micros() else d.usec;
      Timeval(d.sec + u / MILLION, u % MILLION)
    else d
  }

  /**
   * event_base_init_common_timeout: a time to be used in place of `duration`, and a list for it. It
   * fails if there are too many.
   */
  method InitCommonTimeout(base: EventBase, duration: Timeval) returns (result: Option<Timeval>)
    requires base.Valid() && DurationsOk(base.durations, |base.lists|)
    modifies base`lists, base`commonTimers, base`durations, base`states
    ensures base.Valid() && DurationsOk(base.durations, |base.lists|) && old(base.durations) <= base.durations
    ensures result.Some? ==>
              && result.value.IsCommon(|base.lists|) && result.value in base.durations
              && result.value.Masked() == Normalized(duration, |old(base.lists)|)
              && result.value.Us()
                 == duration.sec * MILLION
                    + (if duration.IsCommon(|old(base.lists)|) then duration.Micros() else duration.usec)
              && result.value.Micros() <= MILLION && (result.value.Micros() == MILLION ==> duration.usec == MILLION)
    ensures result.None? <==>
              |old(base.lists)| == MAX_COMMON_TIMEOUTS
              && forall d | d in old(base.durations) :: d.Masked() != Normalized(duration, |old(base.lists)|)
    ensures old(base.states).Keys <= base.states.Keys && forall e | e in old(base.states) ::
            base.states[e] == old(base.states)[e]
    ensures forall e | e in base.commonTimers :: e in old(base.commonTimers) || e !in old(base.states)
    ensures |old(base.lists)| <= |base.lists| && fresh(base.states.Keys - old(base.states).Keys)
  {
    hide Agree, WakesBut, DurationsOk, Timeval.IsCommon, Timeval.Index;
    var n := |base.lists|;
    var tv := Normalized(duration, n);
    NormalizedUs(duration, n);
    var i := 0;
    DurationsLength(base.durations, n);
    while i < n
      invariant i <= n && forall j | 0 <= j < i :: base.durations[j].Masked() != tv
    {
      var d := base.durations[i];
      if tv.sec == d.sec && tv.usec == d.Micros() {
        DurationAt(base.durations, n, i);
        return Some(d);
      }
      i := i + 1;
    }
    if n == MAX_COMMON_TIMEOUTS {
      return None;
    }
    ListCount(base.Shape(), base.states);
    var timer := new Event(true, true, false, false, 0, CommonTimeout(n), Once);
    ListsGrow(base.Shape(), base.states, timer, timer.State());
    base.lists, base.commonTimers := base.lists + [[]], base.commonTimers + [timer];
    base.states := base.states[timer := timer.State()];
    DurationsGrow(base.durations, n, tv);
    base.durations := base.durations + [CommonTime(tv, n)];
    result := Some(CommonTime(tv, n));
  }

  lemma NormalizedUs(d: Timeval, n: nat)
    ensures forall a: Timeval | a.Masked() == Normalized(d, n) ::
              && a.Us() == d.sec * MILLION + (if d.IsCommon(n) then d.Micros() else d.usec)
              && a.Micros() <= MILLION && (a.Micros() == MILLION ==> d.usec == MILLION)
  {
    hide Timeval.IsCommon, Timeval.Micros;
    MicrosOf(d);
    var u := if d.IsCommon(n) then d.Micros() else d.usec;
    assert u == u / MILLION * MILLION + u % MILLION;
  }

  lemma MicrosOf(d: Timeval)
    ensures d.usec <= MILLION ==> d.Micros() == d.usec && forall n :: !d.IsCommon(n)
  {
  }

  lemma DurationsLength(durations: seq<Timeval>, n: nat)
    requires DurationsOk(durations, n)
    ensures |durations| == n
  {
  }

  lemma DurationAt(durations: seq<Timeval>, n: nat, i: nat)
    requires DurationsOk(durations, n) && i < n
    ensures durations[i].IsCommon(n) && durations[i] in durations
  {
  }

  lemma ListCount(b: Shape, t: Table)
    requires Agree(b, t)
    ensures |b.lists| <= MAX_COMMON_TIMEOUTS && |b.timers| == |b.lists| && |b.queues| > 0
  {
  }

  lemma DurationsGrow(durations: seq<Timeval>, n: nat, tv: Timeval)
    requires DurationsOk(durations, n) && tv.usec <= MILLION && n < MAX_COMMON_TIMEOUTS
    ensures DurationsOk(durations + [CommonTime(tv, n)], n + 1)
    ensures CommonTime(tv, n).IsCommon(n + 1) && CommonTime(tv, n).Masked() == tv
  {
    hide Timeval.IsCommon, Timeval.Index, Timeval.WellFormed;
    CommonTimeOf(tv, n);
    CommonWell(CommonTime(tv, n), n + 1);
    forall i | 0 <= i < n
      ensures durations[i].IsCommon(n + 1) && (durations[i].Micros() < MILLION ==> durations[i].WellFormed(n + 1)) {
      MoreCommon(durations[i], n);
    }
  }

  lemma CommonWell(a: Timeval, n: nat)
    requires a.IsCommon(n)
    ensures a.Micros() < MILLION ==> a.WellFormed(n)
  {
  }

  /** event_remove_timer_nolock_ */
  method RemoveTimer(base: EventBase, ev: Event)
    requires base.Valid() && ev in base.states && ev !in base.commonTimers
    modifies base`heap, base`lists, base`eventCount, base`states, ev
    ensures base.Valid() && ev.res == old(ev.res)
    ensures
      var s := old(base.states)[ev];
      base.states == if s.timeout then old(base.states)[ev := s.(timeout := false, interval := ZERO)]
        else old(base.states)
  {
    hide Agree, EventBase.Tracked, WakesBut, OnlyLoses, Timeval.WellFormed, Timeval.Tag, Timeval.Plain;
    base.EvOf(ev);
    NotBoth(base.Shape(), base.states, ev);
    if ev.timeout {
      ghost var t, lists0 := base.states, base.lists;
      TimesSound(base.Shape(), base.states, ev);
      base.DelTimeout(ev, {});
      SameLength(lists0, base.lists, ev);
      ghost var s1 := base.states[ev];
      base.EvOf(ev);
      var s := ev.State().(interval := ZERO);
      WakesChanged(base.Shape(), base.states, ev, s, {});
      base.SetDetails(ev, s);
      Overwrite(t, ev, s1, s);
    }
  }

  /** event_callback_cancel_nolock_ */
  method Cancel(base: EventBase, ev: Event, evenIfFinalizing: bool, evmapResult: int)
    requires base.Valid() && ev in base.states && ev !in base.commonTimers && -1 <= evmapResult <= 1
    modifies base`heap, base`lists, base`queues, base`laterQueue, base`eventCount, base`eventCountActive,
             base`states, ev
    ensures base.Valid() && ev.res == old(ev.res)
    ensures
      var s := old(base.states)[ev];
      base.states ==
        if s.finalizing && !evenIfFinalizing then old(base.states)
        else if ev.isEvent
          then old(base.states)[ev := s.(inserted := false, timeout := false, active := false, later := false)]
        else old(base.states)[ev := s.(active := false, later := false)]
  {
    hide Agree, EventBase.Tracked, WakesBut, OnlyLoses, Timeval.Plain;
    base.EvOf(ev);
    if ev.finalizing && !evenIfFinalizing {
      return;
    }
    if ev.isEvent {
      var r := base.Del(ev, evenIfFinalizing, evmapResult, {});
    } else {
      base.DelActive(ev, {});
    }
  }

  /**
   * event_callback_finalize_nolock_, for an event or a deferred callback, which has no source and no
   * timeout: it leaves all structures and becomes active one last time. What it was active for stays noted.
   */
  method FinalizeCallback(base: EventBase, ev: Event, evmapResult: int)
    requires base.Valid() && ev in base.states && ev !in base.commonTimers && -1 <= evmapResult <= 1
    requires !ev.isEvent ==> !base.states[ev].timeout && !base.states[ev].inserted
    modifies base`heap, base`lists, base`queues, base`laterQueue, base`eventCount, base`eventCountActive,
             base`states, ev
    ensures base.Valid() && ev.res == old(ev.res)
    ensures
      var s := old(base.states)[ev];
      base.states == old(base.states)[ev :=
        if s.finalizing then s.(closure := CallbackFinalize)
        else s.(inserted := false, timeout := false, active := true, later := false, finalizing := true,
                closure := CallbackFinalize)]
  {
    hide Agree, EventBase.Tracked, WakesBut, OnlyLoses, Timeval.WellFormed, Timeval.Tag, Timeval.Plain;
    ghost var t := base.states;
    NotBoth(base.Shape(), base.states, ev);
    if base.states[ev].finalizing {
      FinalHasNone(base.Shape(), base.states, ev);
    }
    if ev.isEvent {
      var _ := base.Del(ev, false, evmapResult, {});
    } else {
      Cancel(base, ev, false, evmapResult);
    }
    ghost var s1 := base.states[ev];
    var r := base.CallbackActivate(ev, {});
    ghost var s2 := base.states[ev];
    BecomeFinal(base, ev, CallbackFinalize);
    Overwrite(t, ev, s1, s2);
    Overwrite(t, ev, s2, base.states[ev]);
    assert t[ev := t[ev]] == t;
  }
}
