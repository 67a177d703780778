/** Any sequence of calls keeps the integrity of an event base. */
module EventRuns {
  import opened Options
  import opened EventTime
  import opened EventState
  import opened EventBase
  import opened EventLoop

  /** The time given to event_add: none, a duration, or the one made for the common timeout `list`. */
  datatype Wait = Never | For(tv: Timeval) | InList(list: nat)

  /**
   * A call on a base, with the time at which it is made and what evmap would answer. Events are numbered
   * in the order in which they have been set up.
   */
  datatype Op =
    | NewEvent(isEvent: bool, hasSource: bool, persist: bool, pri: nat, closure: Closure)
    | AddEvent(ev: nat, wait: Wait, now: Timeval, evmapResult: int)
    | DelEvent(ev: nat, evmapResult: int)
    | RemoveTimerOf(ev: nat)
    | ActivateEvent(ev: nat, res: set<Result>)
    | ActivateLater(ev: nat, res: set<Result>)
    | ActivateCallback(ev: nat)
    | CancelCallback(ev: nat, evenIfFinalizing: bool, evmapResult: int)
    | FinalizeEventOf(ev: nat, free: bool, evmapResult: int)
    | FinalizeCallbackOf(ev: nat, evmapResult: int)
    | MakeLater
    | Timeouts(now: Timeval)
    | Process(priority: nat, now: Timeval, evmapResult: int)
    | NewCommonTimeout(duration: Timeval)

  /** Times are valid, and only persistent events have the closure of persistent events. */
  ghost predicate Allowed(op: Op) {
    match op
    case NewEvent(isEvent, _, persist, _, closure) => closure == Persistent ==> isEvent && persist
    case AddEvent(_, wait, now, m) => now.Plain() && (wait.For? ==> wait.tv.Plain()) && -1 <= m <= 1
    case DelEvent(_, m) => -1 <= m <= 1
    case CancelCallback(_, _, m) => -1 <= m <= 1
    case FinalizeEventOf(_, _, m) => -1 <= m <= 1
    case FinalizeCallbackOf(_, m) => -1 <= m <= 1
    case Timeouts(now) => now.Plain()
    case Process(_, now, m) => now.Plain() && -1 <= m <= 1
    case _ => true
  }

  /** Everything that is true between calls. */
  ghost predicate Running(base: EventBase, events: seq<Event>)
    reads base, base.states.Keys
  {
    && base.Valid() && DurationsOk(base.durations, |base.lists|)
    && forall e | e in events :: e in base.states && e !in base.commonTimers
  }

  /** A common timeout that can be used, or none. */
  method DurationOf(base: EventBase, i: nat) returns (tv: Option<Timeval>)
    requires DurationsOk(base.durations, |base.lists|)
    ensures tv.Some? ==> tv.value.WellFormed(|base.lists|)
    ensures tv.Some? <==> i < |base.durations| && base.durations[i].Micros() < MILLION
    ensures tv.Some? ==> tv.value == base.durations[i]
  {
    if i < |base.durations| && base.durations[i].Micros() < MILLION {
      tv := Some(base.durations[i]);
    } else {
      tv := None;
    }
  }

  lemma PlainIsWell(a: Timeval, n: nat)
    requires a.Plain()
    ensures a.WellFormed(n)
  {
    PlainWellFormed(a, n);
  }

  /** Setting up an event, and telling the base of it. */
  method SetUp(base: EventBase, events: seq<Event>, op: Op) returns (events': seq<Event>)
    requires Running(base, events) && Allowed(op) && op.NewEvent?
    modifies base`states
    ensures Running(base, events') && fresh(base.states.Keys - old(base.states.Keys))
    ensures if op.pri < |base.queues| then |events'| == |events| + 1 && events'[..|events|] == events
            else events' == events
  {
    hide Agree, WakesBut, Timeval.Plain, Timeval.WellFormed, DurationsOk;
    events' := events;
    if op.pri < |base.queues| {
      var ev := new Event(op.isEvent, false, op.hasSource, op.persist, op.pri, User, op.closure);
      Assign(base, ev);
      NotTimer(base.Shape(), base.states, ev);
      events' := events + [ev];
    }
  }

  /** Any call. Those on events that have not been set up do nothing. */
  method Do(base: EventBase, events: seq<Event>, op: Op) returns (events': seq<Event>)
    requires Running(base, events) && Allowed(op)
    modifies base, base.states.Keys
    ensures Running(base, events') && events <= events' && fresh(base.states.Keys - old(base.states.Keys))
  {
    hide Agree, EventBase.Tracked, WakesBut, Timeval.Plain, Timeval.WellFormed, DurationsOk, AddFails, Promoted,
         AllFired, OnlyLoses;
    ListCount(base.Shape(), base.states);
    events' := events;
    match op {
      case NewEvent(_, _, _, _, _) => events' := SetUp(base, events, op);
      case AddEvent(i, wait, now, m) =>
        if i < |events| {
          AddOne(base, events, i, wait, now, m);
        }
      case MakeLater => base.MakeLaterActive();
      case Timeouts(now) => TimeoutProcess(base, now);
      case Process(p, now, m) =>
        if p < |base.queues| && base.queues[p] != [] {
          var ev := ProcessFirst(base, p, now, m);
        }
      case NewCommonTimeout(d) => var r := InitCommonTimeout(base, d);
      case _ =>
        if op.ev < |events| {
          DoOne(base, events, op);
        }
    }
    ListCount(base.Shape(), base.states);
  }

  /** event_add */
  method AddOne(base: EventBase, events: seq<Event>, i: nat, wait: Wait, now: Timeval, m: int)
    requires Running(base, events) && i < |events| && now.Plain() && (wait.For? ==> wait.tv.Plain()) && -1 <= m <= 1
    modifies base, base.states.Keys
    ensures Running(base, events) && base.states.Keys == old(base.states.Keys)
  {
    hide Agree, EventBase.Tracked, WakesBut, Timeval.Plain, Timeval.WellFormed, DurationsOk, AddFails;
    var tv: Option<Timeval> := None;
    match wait {
      case Never =>
      case For(t) =>
        PlainIsWell(t, |base.lists|);
        tv := Some(t);
      case InList(k) =>
        tv := DurationOf(base, k);
        if tv.None? {
          return;
        }
    }
    var r := base.Add(events[i], tv, false, now, m, {});
  }

  /** The calls that need one event and nothing else. */
  method DoOne(base: EventBase, events: seq<Event>, op: Op)
    requires Running(base, events) && Allowed(op)
    requires op.DelEvent? || op.RemoveTimerOf? || op.ActivateEvent? || op.ActivateLater? || op.ActivateCallback?
             || op.CancelCallback? || op.FinalizeEventOf? || op.FinalizeCallbackOf?
    requires op.ev < |events|
    modifies base, base.states.Keys
    ensures Running(base, events) && base.states.Keys == old(base.states.Keys)
  {
    hide Agree, EventBase.Tracked, WakesBut, Timeval.Plain, Timeval.WellFormed, DurationsOk, OnlyLoses;
    ListCount(base.Shape(), base.states);
    var ev := events[op.ev];
    match op {
      case DelEvent(_, m) => var r := base.Del(ev, false, m, {});
      case RemoveTimerOf(_) => RemoveTimer(base, ev);
      case ActivateEvent(_, res) =>
        base.Activate(ev, res, {});
        assert {} - {ev} == {};
      case ActivateLater(_, res) => ActiveLater(base, ev, res);
      case ActivateCallback(_) => var r := base.CallbackActivate(ev, {});
      case CancelCallback(_, even, m) => Cancel(base, ev, even, m);
      case FinalizeEventOf(_, free, m) => Finalize(base, ev, free, m);
      case FinalizeCallbackOf(_, m) =>
        base.EvOf(ev);
        if ev.isEvent || !(ev.timeout || ev.inserted) {
          FinalizeCallback(base, ev, m);
        }
    }
    ListCount(base.Shape(), base.states);
  }

  /** Any run, from any state in which the base is in order; events and common timeouts are made on the way. */
  method DoAll(base: EventBase, events: seq<Event>, ops: seq<Op>) returns (events': seq<Event>)
    requires Running(base, events) && forall i | 0 <= i < |ops| :: Allowed(ops[i])
    modifies base, base.states.Keys
    ensures Running(base, events') && events <= events' && fresh(base.states.Keys - old(base.states.Keys))
    decreases |ops|
  {
    hide Running, Allowed;
    events' := events;
    if ops != [] {
      events' := DoAll(base, events, ops[..|ops| - 1]);
      events' := Do(base, events', ops[|ops| - 1]);
    }
  }

  /**
   * A new base and any run, after which the loop asks how long it may wait: if no callback is active,
   * it does not sleep past any pending timeout, in the heap or in a list.
   */
  method FromNothing(npriorities: nat, ops: seq<Op>, now: Timeval)
    returns (base: EventBase, events: seq<Event>, tv: Option<Timeval>)
    requires npriorities > 0 && now.Plain() && forall i | 0 <= i < |ops| :: Allowed(ops[i])
    ensures Running(base, events) && (tv.None? <==> base.heap == {})
    ensures base.eventCountActive == 0 ==> InTime(tv, now, base.states)
  {
    hide Agree, EventBase.Tracked, WakesBut, Timeval.Plain, Allowed;
    base := new EventBase(npriorities);
    events := DoAll(base, [], ops);
    tv := TimeoutNext(base, now);
  }

  /** A persistent event with an interval is pending, no other timeout is, and nothing is active. */
  ghost predicate Periodic(t: Table, ev: Event, d: Timeval) {
    && ev in t && t[ev].closure == Persistent && t[ev].timeout && t[ev].interval == d
    && forall e | e in t :: !t[e].active && !t[e].later && (t[e].timeout ==> e == ev)
  }

  /**
   * event_add with an interval makes an event periodic: its callback runs each time its timeout is
   * found to have run out.
   */
  method Start(base: EventBase, ev: Event, d: Timeval, now: Timeval, m: int) returns (r: int)
    requires base.Valid() && ev in base.states && ev !in base.commonTimers && base.states[ev].closure == Persistent
    requires forall e | e in base.states ::
               var s := base.states[e]; !s.active && !s.later && (s.timeout ==> e == ev)
    requires d.Plain() && now.Plain() && -1 <= m <= 1
    modifies base, base.states.Keys
    ensures base.Valid() && base.states.Keys == old(base.states.Keys) && base.commonTimers == old(base.commonTimers)
    ensures r == 0 ==> Periodic(base.states, ev, d) && base.states[ev].when.Us() == now.Us() + d.Us()
    ensures !old(base.states)[ev].finalizing && (!ev.hasSource || m != -1) ==> r == 0
  {
    hide Agree, EventBase.Tracked, WakesBut, Timeval.Plain, Timeval.Us, Timeval.Tag, Timeval.WellFormed, AddFails,
         TimeoutAdded;
    PlainIsWell(d, |base.lists|);
    r := base.Add(ev, Some(d), false, now, m, {});
  }

  /** When the timeout has run out, the callback runs and the event is pending for the next time. */
  method Tick(base: EventBase, ev: Event, d: Timeval, now: Timeval, m: int) returns (ran: Event)
    requires base.Valid() && Periodic(base.states, ev, d) && ev !in base.commonTimers
    requires d.Plain() && d != ZERO && now.Plain() && -1 <= m <= 1 && (!ev.hasSource || m != -1)
    requires base.states[ev].when.Us() <= now.Us()
    modifies base, base.states.Keys
    ensures base.Valid() && base.states.Keys == old(base.states.Keys) && base.commonTimers == old(base.commonTimers)
    ensures ran == ev && Periodic(base.states, ev, d)
    ensures var due := old(base.states)[ev].when.Us();
            base.states[ev].when.Us() == if due + d.Us() >= now.Us() then due + d.Us() else now.Us() + d.Us()
  {
    hide Agree, EventBase.Tracked, WakesBut, Timeval.Plain, Timeval.Us, Timeval.Tag, Timeval.WellFormed, AllFired,
         AtMost, HasRun, Somewhere;
    ghost var s := base.states[ev];
    DueInHeap(base.Shape(), base.states, ev, now);
    TimeoutProcess(base, now);
    ghost var t1 := base.states;
    OnlyActive(base.Shape(), t1, ev);
    ran := ProcessFirst(base, ev.pri, now, m);
    RunAgain(ev, t1[ev], base.states[ev], now, m);
    NextTime(s, t1[ev], now);
  }

  /**
   * Any number of times: a callback that is run no more than an interval late each time does not drift,
   * however late it is each time.
   */
  method Ticks(base: EventBase, ev: Event, d: Timeval, times: seq<Timeval>, m: int) returns (ran: seq<Event>)
    requires base.Valid() && Periodic(base.states, ev, d) && ev !in base.commonTimers
    requires d.Plain() && d != ZERO && -1 <= m <= 1 && (!ev.hasSource || m != -1)
    requires OnTime(times, base.states[ev].when.Us(), d.Us())
    modifies base, base.states.Keys
    ensures base.Valid() && base.states.Keys == old(base.states.Keys) && base.commonTimers == old(base.commonTimers)
    ensures Periodic(base.states, ev, d) && |ran| == |times| && forall i | 0 <= i < |ran| :: ran[i] == ev
    ensures base.states[ev].when.Us() == old(base.states)[ev].when.Us() + |times| * d.Us()
    decreases |times|
  {
    hide EventBase.Valid, Timeval.Plain, Timeval.Us, Periodic;
    PeriodicKnown(base.states, ev, d);
    ran := [];
    if times != [] {
      ran := Ticks(base, ev, d, times[..|times| - 1], m);
      PeriodicKnown(base.states, ev, d);
      var e := Tick(base, ev, d, times[|times| - 1], m);
      ran := ran + [e];
      OneMoreTick(|times|, d.Us());
    }
    PeriodicKnown(base.states, ev, d);
  }

  /** The times at which the loop finds that a timeout has run out, none of them by more than an interval. */
  ghost predicate OnTime(times: seq<Timeval>, due: int, interval: int) {
    forall i | 0 <= i < |times| ::
      times[i].Plain() && due + i * interval <= times[i].Us() <= due + (i + 1) * interval
  }

  lemma PeriodicKnown(t: Table, ev: Event, d: Timeval)
    requires Periodic(t, ev, d)
    ensures ev in t
  {
  }

  lemma OneMoreTick(n: nat, d: int)
    requires n > 0
    ensures (n - 1) * d + d == n * d
  {
  }

  /** The event is in the heap, and due. */
  lemma DueInHeap(b: Shape, t: Table, ev: Event, now: Timeval)
    requires Agree(b, t) && ev in t && t[ev].timeout && t[ev].interval.Plain() && t[ev].interval != ZERO && now.Plain()
    ensures ev in b.heap && t[ev].when.Plain() && (t[ev].when.Us() <= now.Us() ==> AtMost(t[ev].when, now))
    ensures forall e | e in b.heap :: e in t && t[e].timeout
    ensures !t[ev].finalizing && (t[ev].closure == Persistent ==> ev.isEvent && ev.persist)
  {
    hide Timeval.IsCommon, Timeval.Index, AtMost, Timeval.Us, ActiveOk;
    assert Placed(ev, t[ev], b.heap, b.lists);
    SameTag(t[ev].when, t[ev].interval, |b.lists|);
    PlainOrder(t[ev].when, now);
  }

  /** If no other callback is active, it is the first one in its queue. */
  lemma OnlyActive(b: Shape, t: Table, ev: Event)
    requires Agree(b, t) && ev in t && t[ev].active && forall e | e in t && e != ev :: !t[e].active
    ensures ev.pri < |b.queues| && b.queues[ev.pri] != [] && b.queues[ev.pri][0] == ev
  {
    hide TimersOk, FlagCount, Total, Sound;
    assert ev in b.queues[ev.pri];
  }

  lemma RunAgain(ev: Event, s: EvState, s': EvState, now: Timeval, m: int)
    requires HasRun(ev, s, s', true, now, m) && ev.isEvent && ev.persist && !s.finalizing
    requires s.closure == Persistent && s.interval != ZERO && (!ev.hasSource || m != -1)
    ensures !s'.active && !s'.later && s'.timeout && s'.closure == Persistent && s'.interval == s.interval
    ensures s'.when.Us() == NextRun(s, true, now)
  {
    hide NextRun, Timeval.Us;
  }

  lemma NextTime(s: EvState, s1: EvState, now: Timeval)
    requires s1.when == s.when && s1.interval == s.interval
    ensures NextRun(s1, true, now) == if s.when.Us() + s.interval.Us() >= now.Us() then s.when.Us() + s.interval.Us()
                                      else now.Us() + s.interval.Us()
  {
    hide Timeval.Us;
  }

  /**
   * What event_base_assert_ok_nolock_ checks: the lists are sorted by the comparison the code itself
   * uses, flags and indices are right, callbacks are in the queues of their priorities, and the number
   * of active callbacks is right.
   */
  lemma AssertOk(b: Shape, t: Table)
    requires Agree(b, t)
    ensures forall e | e in b.heap :: e in t && t[e].timeout
    ensures forall i, j, k | 0 <= i < |b.lists| && 0 <= j < k < |b.lists[i]| ::
              b.lists[i][j] in t && b.lists[i][k] in t && AtMost(t[b.lists[i][j]].when, t[b.lists[i][k]].when)
    ensures forall i, j | 0 <= i < |b.lists| && 0 <= j < |b.lists[i]| ::
              var s := t[b.lists[i][j]]; s.timeout && s.when.IsCommon(|b.lists|) && s.when.Index() == i
    ensures forall p, j | 0 <= p < |b.queues| && 0 <= j < |b.queues[p]| ::
              var e := b.queues[p][j]; e in t && t[e].active && !t[e].later && e.pri == p
    ensures forall j | 0 <= j < |b.later| :: b.later[j] in t && t[b.later[j]].later && !t[b.later[j]].active
    ensures Total(b.queues) + |b.later| == b.countActive
  {
    hide Timeval.IsCommon, Timeval.Index, Timeval.Us, AtMost, Total;
    forall i, j | 0 <= i < |b.lists| && 0 <= j < |b.lists[i]|
      ensures
        var e := b.lists[i][j];
        e in t && t[e].timeout && t[e].when.IsCommon(|b.lists|) && t[e].when.Index() == i
          && t[e].when.WellFormed(|b.lists|)
    {
      assert ListOk(b.lists[i], i, |b.lists|, t);
      assert b.lists[i][j] in b.lists[i];
      assert Placed(b.lists[i][j], t[b.lists[i][j]], b.heap, b.lists);
    }
    forall i, j, k | 0 <= i < |b.lists| && 0 <= j < k < |b.lists[i]|
      ensures AtMost(t[b.lists[i][j]].when, t[b.lists[i][k]].when)
    {
      assert ListOk(b.lists[i], i, |b.lists|, t);
      SameList(t[b.lists[i][j]].when, t[b.lists[i][k]].when, |b.lists|);
      Ordered(t[b.lists[i][j]].when, t[b.lists[i][k]].when);
    }
  }

  /** A finalizing event is on no timeout structure; once it has run, it is on no structure at all. */
  lemma FinalizingIsGone(b: Shape, t: Table, e: Event)
    requires Agree(b, t) && e in t && t[e].finalizing
    ensures e !in b.heap && forall i | 0 <= i < |b.lists| :: e !in b.lists[i]
    ensures !t[e].active && !t[e].later ==> e !in b.later && forall p | 0 <= p < |b.queues| :: e !in b.queues[p]
  {
    hide Timeval.IsCommon, Timeval.Index;
    forall i | 0 <= i < |b.lists| ensures e !in b.lists[i] {
      assert ListOk(b.lists[i], i, |b.lists|, t);
    }
  }
}
