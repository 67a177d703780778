/** The queues of an event base: pending timeouts, active callbacks, and their counters. */
module EventBase {
  import opened Options
  import opened EventTime
  import opened EventState

  class EventBase {
    /** The time heap, as a set from which the earliest event is taken. */
    var heap: set<Event>
    /** common_timeout_queues: the events, the internal event, and the duration of each list. */
    var lists: seq<seq<Event>>
    var commonTimers: seq<Event>
    var durations: seq<Timeval>
    /** activequeues, one for each priority, and active_later_queue. */
    const nactivequeues: nat
    var queues: seq<seq<Event>>
    var laterQueue: seq<Event>
    var eventCount: int
    var eventCountActive: int

    /** The events assigned to this base, and the state each is in. */
    ghost var states: Table

    constructor (npriorities: nat)
      requires npriorities > 0
      ensures Valid() && states == map[] && |queues| == npriorities
      ensures lists == [] && commonTimers == [] && durations == []
    {
      heap, lists, commonTimers, durations := {}, [], [], [];
      nactivequeues, queues, laterQueue := npriorities, seq(npriorities, _ => []), [];
      eventCount, eventCountActive, states := 0, 0, map[];
      new;
      NoneActive(queues);
    }

    ghost function Shape(): Shape
      reads this
    {
      EventState.Shape(heap, lists, commonTimers, queues, laterQueue, eventCount, eventCountActive, nactivequeues)
    }

    ghost predicate Tracked()
      reads this`states, states.Keys
    {
      forall e | e in states :: states[e] == e.State()
    }

    /** Flags, structures and counters agree. */
    ghost predicate Core()
      reads this, states.Keys
    {
      Agree(Shape(), states) && Tracked()
    }

    /** ... and the loop is woken in time. */
    ghost predicate Valid()
      reads this, states.Keys
    {
      Core() && WakesBut(commonTimers, lists, states, {})
    }

    /** Sets the fields of an event. */
    method Become(ev: Event, s: EvState)
      requires Tracked() && ev in states
      modifies this`states, ev
      ensures Tracked() && states == old(states)[ev := s] && ev.State() == s && ev.res == old(ev.res)
    {
      ev.Set(s);
      states := states[ev := s];
    }

    /** event_queue_remove_timeout */
    method RemoveTimeout(ev: Event)
      requires Core() && ev in states && states[ev].timeout
      modifies this`heap, this`lists, this`eventCount, this`states, ev
      ensures Core() && states == old(states)[ev := old(states)[ev].(timeout := false)] && ev.res == old(ev.res)
      ensures Shape() == TimeoutOut(old(Shape()), old(states), ev)
    {
      hide Agree, Tracked, Without, Timeval.IsCommon, Timeval.Index, Timeval.Plain;
      TimeoutGone(Shape(), states, ev);
      EvOf(ev);
      eventCount := eventCount - Counted(ev);
      Become(ev, ev.State().(timeout := false));
      if ev.when.IsCommon(|lists|) {
        var i := ev.when.Index();
        lists := lists[i := Without(lists[i], ev)];
      } else {
        heap := heap - {ev};
      }
    }

    lemma EvOf(ev: Event)
      requires Tracked() && ev in states
      ensures ev.State() == states[ev]
    {
    }

    /** The search of insert_common_timeout_inorder, from the end. */
    method PlaceFor(ev: Event, i: nat) returns (k: nat)
      requires Core() && ev in states && states[ev].when.WellFormed(|lists|) && !states[ev].when.Plain()
      requires i == states[ev].when.Index()
      ensures i < |lists| && k <= |lists[i]|
      ensures forall j | 0 <= j < k :: lists[i][j] in states && states[lists[i][j]].when.Us() <= states[ev].when.Us()
      ensures forall j | k <= j < |lists[i]| ::
              lists[i][j] in states && states[ev].when.Us() < states[lists[i][j]].when.Us()
    {
      hide Agree, Timeval.Index, Timeval.IsCommon, Timeval.Us, Timeval.Plain, AtMost, Timeval.WellFormed;
      ListDeadlines(Shape(), states, ev, i);
      k := |lists[i]|;
      while k > 0 && !AtMost(lists[i][k - 1].when, ev.when)
        invariant k <= |lists[i]|
        invariant forall j | k <= j < |lists[i]| :: states[ev].when.Us() < states[lists[i][j]].when.Us()
      {
        k := k - 1;
      }
    }

    /** event_queue_insert_timeout, with insert_common_timeout_inorder. */
    method InsertTimeout(ev: Event) returns (ghost k: nat)
      requires Core() && ev in states && !states[ev].timeout && !states[ev].finalizing
               && states[ev].when.WellFormed(|lists|)
      modifies this`heap, this`lists, this`eventCount, this`states, ev
      ensures Core() && states == old(states)[ev := old(states)[ev].(timeout := true)] && ev.res == old(ev.res)
      ensures
        var i := ev.when.Index();
        if ev.when.Plain()
          then Shape() == old(Shape()).(heap := old(heap) + {ev}, count := old(eventCount) + Counted(ev))
        else
          && i < |old(lists)| && k <= |old(lists)[i]|
          && Shape() == old(Shape()).(lists := old(lists)[i := old(lists)[i][..k] + [ev] + old(lists)[i][k..]],
                                      count := old(eventCount) + Counted(ev))
          && (forall j | 0 <= j < k :: NoLater(old(states), old(lists)[i][j], ev))
          && forall j | k <= j < |old(lists)[i]| :: Later(old(states), old(lists)[i][j], ev)
    {
      hide Agree, Tracked, Timeval.Index, Timeval.IsCommon, Timeval.Us, Timeval.Plain, AtMost;
      k := 0;
      EvOf(ev);
      ghost var b, t := Shape(), states;
      PlainOrCommon(ev.when, |lists|);
      if ev.when.IsCommon(|lists|) {
        var i := ev.when.Index();
        var n := PlaceFor(ev, i);
        k := n;
        TimeoutNewCommon(b, t, ev, i, k);
        eventCount := eventCount + Counted(ev);
        Become(ev, ev.State().(timeout := true));
        lists := lists[i := lists[i][..n] + [ev] + lists[i][n..]];
      } else {
        TimeoutNew(b, t, ev);
        eventCount := eventCount + Counted(ev);
        Become(ev, ev.State().(timeout := true));
        heap := heap + {ev};
      }
    }

    /** event_queue_insert_inserted and event_queue_remove_inserted */
    method SetInserted(ev: Event, on: bool)
      requires Core() && ev in states && states[ev].inserted != on
               && (on ==> !states[ev].finalizing && ev !in commonTimers)
      modifies this`eventCount, this`states, ev
      ensures Core() && states == old(states)[ev := old(states)[ev].(inserted := on)] && ev.res == old(ev.res)
      ensures eventCount == if on then old(eventCount) + Counted(ev) else old(eventCount) - Counted(ev)
    {
      hide Agree, Tracked;
      EvOf(ev);
      InsertedChanged(Shape(), states, ev, on);
      eventCount := if on then eventCount + Counted(ev) else eventCount - Counted(ev);
      Become(ev, ev.State().(inserted := on));
    }

    /** event_queue_remove_active */
    method RemoveActive(ev: Event)
      requires Core() && ev in states && states[ev].active
      modifies this`queues, this`eventCount, this`eventCountActive, this`states, ev
      ensures Core() && states == old(states)[ev := old(states)[ev].(active := false)] && ev.res == old(ev.res)
      ensures ev.pri < |old(queues)| && queues == old(queues)[ev.pri := Without(old(queues)[ev.pri], ev)]
    {
      hide Agree, Tracked, Without;
      EvOf(ev);
      ActiveGone(Shape(), states, ev);
      eventCount := eventCount - Counted(ev);
      Become(ev, ev.State().(active := false));
      eventCountActive := eventCountActive - 1;
      queues := queues[ev.pri := Without(queues[ev.pri], ev)];
    }

    /** event_queue_insert_active, for a callback that is not active yet. */
    method InsertActive(ev: Event)
      requires Core() && ev in states && !states[ev].active && !states[ev].later
      modifies this`queues, this`eventCount, this`eventCountActive, this`states, ev
      ensures Core() && states == old(states)[ev := old(states)[ev].(active := true)] && ev.res == old(ev.res)
      ensures ev.pri < |old(queues)| && queues == old(queues)[ev.pri := old(queues)[ev.pri] + [ev]]
    {
      hide Agree, Tracked;
      EvOf(ev);
      ActiveNew(Shape(), states, ev);
      eventCount := eventCount + Counted(ev);
      Become(ev, ev.State().(active := true));
      eventCountActive := eventCountActive + 1;
      queues := queues[ev.pri := queues[ev.pri] + [ev]];
    }

    /** event_queue_remove_active_later */
    method RemoveLater(ev: Event)
      requires Core() && ev in states && states[ev].later
      modifies this`laterQueue, this`eventCount, this`eventCountActive, this`states, ev
      ensures Core() && states == old(states)[ev := old(states)[ev].(later := false)] && ev.res == old(ev.res)
      ensures laterQueue == Without(old(laterQueue), ev)
    {
      hide Agree, Tracked, Without;
      EvOf(ev);
      LaterGone(Shape(), states, ev);
      eventCount := eventCount - Counted(ev);
      Become(ev, ev.State().(later := false));
      eventCountActive := eventCountActive - 1;
      laterQueue := Without(laterQueue, ev);
    }

    /** event_queue_insert_active_later, for a callback that is not active yet. */
    method InsertLater(ev: Event)
      requires Core() && ev in states && !states[ev].active && !states[ev].later && ev !in commonTimers
      modifies this`laterQueue, this`eventCount, this`eventCountActive, this`states, ev
      ensures Core() && states == old(states)[ev := old(states)[ev].(later := true)] && ev.res == old(ev.res)
      ensures laterQueue == old(laterQueue) + [ev]
    {
      hide Agree, Tracked;
      EvOf(ev);
      LaterNew(Shape(), states, ev);
      eventCount := eventCount + Counted(ev);
      Become(ev, ev.State().(later := true));
      eventCountActive := eventCountActive + 1;
      laterQueue := laterQueue + [ev];
    }

    /** Sets times, closure or the finalizing flag of an event without a pending timeout. */
    method SetDetails(ev: Event, s: EvState)
      requires Core() && ev in states && !states[ev].timeout
      requires s.inserted == states[ev].inserted && !s.timeout && s.active == states[ev].active
               && s.later == states[ev].later
      requires s.when.WellFormed(|lists|) && (s.finalizing ==> !s.inserted)
      requires s.interval != ZERO ==> s.interval.WellFormed(|lists|) && s.interval.Tag() == s.when.Tag()
      requires s.closure != Persistent && !s.finalizing ==> s.interval == ZERO
      requires s.closure == Persistent ==> ev.isEvent && ev.persist
      requires ev in commonTimers ==> !s.finalizing && s.when.Plain() && s.closure == Once
      modifies this`states, ev
      ensures Core() && states == old(states)[ev := s] && ev.res == old(ev.res)
    {
      hide Agree, Tracked, Timeval.WellFormed, Timeval.Tag, Timeval.Plain;
      DetailsChanged(Shape(), states, ev, s);
      Become(ev, s);
    }

    /** One round of the loop below: the first callback that was put off becomes active. */
    method PromoteFirst()
      requires Valid() && laterQueue != []
      modifies this`queues, this`laterQueue, this`states, states.Keys
      ensures Valid() && eventCountActive == old(eventCountActive)
      ensures
        var ev := old(laterQueue[0]);
        && laterQueue == old(laterQueue)[1..]
        && ev in old(states) && old(states)[ev].later && ev.pri < |old(queues)|
        && states == old(states)[ev := old(states)[ev].(later := false, active := true)]
        && queues == old(queues)[ev.pri := old(queues)[ev.pri] + [ev]]
      ensures forall e | e in states :: e.res == old(e.res)
    {
      hide Agree, Tracked, WakesBut;
      var ev := laterQueue[0];
      LaterFirst(Shape(), states);
      WakesChanged(Shape(), states, ev, states[ev].(later := false, active := true), {});
      EvOf(ev);
      laterQueue := laterQueue[1..];
      Become(ev, ev.State().(later := false, active := true));
      queues := queues[ev.pri := queues[ev.pri] + [ev]];
    }

    /**
     * event_queue_make_later_events_active: the callbacks that were put off go to the ends of the
     * queues of their priorities, in their order.
     */
    method MakeLaterActive()
      requires Valid()
      modifies this`queues, this`laterQueue, this`states, states.Keys
      ensures Valid() && laterQueue == [] && eventCountActive == old(eventCountActive)
      ensures states == Promoted(old(states)) && forall e | e in states :: e.res == old(e.res)
      ensures |queues| == |old(queues)|
      ensures forall p {:trigger queues[p]} | 0 <= p < |queues| ::
              queues[p] == old(queues)[p] + OfPriority(old(laterQueue), p)
    {
      hide Agree, Tracked, WakesBut, Promoted, OfPriority;
      ghost var was := states;
      while laterQueue != []
        invariant Valid() && states.Keys == was.Keys && eventCountActive == old(eventCountActive)
        invariant forall e | e in states :: e.res == old(e.res)
        invariant Promoted(states) == Promoted(was) && |queues| == |old(queues)|
        invariant forall p {:trigger queues[p]} | 0 <= p < |queues| ::
                    queues[p] + OfPriority(laterQueue, p) == old(queues)[p] + OfPriority(old(laterQueue), p)
        decreases |laterQueue|
      {
        PromotedStep(states, laterQueue[0]);
        OfPriorityStep(laterQueue, queues);
        PromoteFirst();
      }
      NoneLater(Shape(), states);
      NonePromoted(states);
      NonePriority(queues);
    }

    /** A timer may be late only if it is excused. */
    ghost predicate Wakeful(excused: set<Event>)
      reads this`commonTimers, this`lists, this`states
    {
      WakesBut(commonTimers, lists, states, excused)
    }

    /** event_del_nolock_; `evmapResult` is what evmap_io_del_ or evmap_signal_del_ returns. */
    method Del(ev: Event, evenIfFinalizing: bool, evmapResult: int, ghost excused: set<Event>) returns (r: int)
      requires Core() && Wakeful(excused) && ev in states && -1 <= evmapResult <= 1
      modifies this`heap, this`lists, this`queues, this`laterQueue, this`eventCount, this`eventCountActive,
               this`states, ev
      ensures Core() && ev.res == old(ev.res)
      ensures Wakeful(if ev in commonTimers then excused + {ev} else excused)
      ensures
        var s := old(states)[ev];
        if s.finalizing && !evenIfFinalizing then
          r == 0 && states == old(states) && Shape() == old(Shape())
        else
          && r == (if s.inserted && evmapResult == -1 then -1 else 0)
          && states == old(states)[ev := s.(inserted := false, timeout := false, active := false, later := false)]
          && heap == old(heap) - {ev}
          && (!s.timeout || s.when.Plain() ==> lists == old(lists))
      ensures OnlyLoses(old(lists), lists, ev)
    {
      hide Agree, Tracked, WakesBut, Without, OnlyLoses, Timeval.Plain, Timeval.Index, Timeval.IsCommon;
      r := 0;
      EvOf(ev);
      ghost var excused' := if ev in commonTimers then excused + {ev} else excused;
      MoreExcused(commonTimers, lists, states, excused, excused');
      if !evenIfFinalizing && ev.finalizing {
        LosesNothing(lists, ev);
        return 0;
      }
      ghost var t := states;
      DelTimeout(ev, excused');
      DelActive(ev, excused');
      r := DelInserted(ev, evmapResult, excused');
      OverwriteThrice(t, ev);
    }

    /** ... its source, */
    method DelInserted(ev: Event, evmapResult: int, ghost excused: set<Event>) returns (r: int)
      requires Core() && Wakeful(excused) && ev in states && -1 <= evmapResult <= 1
               && (ev in excused || ev !in commonTimers)
      modifies this`eventCount, this`states, ev
      ensures Core() && Wakeful(excused) && ev.res == old(ev.res)
      ensures states == old(states)[ev := old(states)[ev].(inserted := false)]
      ensures r == if old(states)[ev].inserted && evmapResult == -1 then -1 else 0
    {
      hide Agree, Tracked, WakesBut;
      r := 0;
      EvOf(ev);
      if ev.inserted {
        WakesChanged(Shape(), states, ev, states[ev].(inserted := false), excused);
        SetInserted(ev, false);
        r := if evmapResult == 1 then 0 else evmapResult;
      } else {
        assert states == states[ev := states[ev].(inserted := false)];
      }
    }

    /** ... its timeout, */
    method DelTimeout(ev: Event, ghost excused: set<Event>)
      requires Core() && Wakeful(excused) && ev in states && (ev in excused || ev !in commonTimers)
      modifies this`heap, this`lists, this`eventCount, this`states, ev
      ensures Core() && Wakeful(excused) && ev.res == old(ev.res)
      ensures states == old(states)[ev := old(states)[ev].(timeout := false)] && heap == old(heap) - {ev}
      ensures !old(states)[ev].timeout || old(states)[ev].when.Plain() ==> lists == old(lists)
      ensures OnlyLoses(old(lists), lists, ev)
    {
      hide Agree, Tracked, WakesBut, Without, Timeval.Plain, Timeval.Index, Timeval.IsCommon;
      EvOf(ev);
      WhereTimeout(Shape(), states, ev);
      if ev.timeout {
        WakesTimeoutOut(Shape(), states, ev, excused);
        RemoveTimeout(ev);
      } else {
        assert states == states[ev := states[ev].(timeout := false)];
      }
    }

    /** ... and its place among the active callbacks. */
    method DelActive(ev: Event, ghost excused: set<Event>)
      requires Core() && Wakeful(excused) && ev in states && (ev in excused || ev !in commonTimers)
      modifies this`queues, this`laterQueue, this`eventCount, this`eventCountActive, this`states, ev
      ensures Core() && Wakeful(excused) && ev.res == old(ev.res)
      ensures states == old(states)[ev := old(states)[ev].(active := false, later := false)]
    {
      hide Agree, Tracked, WakesBut;
      EvOf(ev);
      NotBoth(Shape(), states, ev);
      if ev.active {
        WakesChanged(Shape(), states, ev, states[ev].(active := false), excused);
        RemoveActive(ev);
      } else if ev.later {
        WakesChanged(Shape(), states, ev, states[ev].(later := false), excused);
        RemoveLater(ev);
      } else {
        assert states == states[ev := states[ev].(active := false, later := false)];
      }
    }

    /** event_active_nolock_ */
    method Activate(ev: Event, res: set<Result>, ghost excused: set<Event>)
      requires Core() && Wakeful(excused) && ev in states
      modifies this`queues, this`laterQueue, this`eventCount, this`eventCountActive, this`states, ev
      ensures Core() && Wakeful(if old(states)[ev].finalizing then excused else excused - {ev})
      ensures
        var s := old(states)[ev];
        if s.finalizing then states == old(states) && ev.res == old(ev.res)
        else
          && states == old(states)[ev := s.(active := true, later := false)]
          && ev.res == if s.active || s.later then old(ev.res) + res else res
      ensures
        var s := old(states)[ev];
        if s.finalizing || s.active then queues == old(queues) && laterQueue == old(laterQueue)
        else
          && ev.pri < |old(queues)| && queues == old(queues)[ev.pri := old(queues)[ev.pri] + [ev]]
          && laterQueue == if s.later then Without(old(laterQueue), ev) else old(laterQueue)
    {
      hide Agree, Tracked, WakesBut, Without;
      EvOf(ev);
      NotBoth(Shape(), states, ev);
      if ev.finalizing {
        return;
      }
      if ev.active {
        AddResult(ev, res);
        assert states == states[ev := states[ev].(active := true, later := false)];
      } else {
        SetResult(ev, if ev.later then ev.res + res else res);
        var r := CallbackActivate(ev, excused);
      }
      ActiveWakes(commonTimers, lists, states, excused, ev);
    }

    /** event_callback_activate_nolock_ */
    method CallbackActivate(ev: Event, ghost excused: set<Event>) returns (r: int)
      requires Core() && Wakeful(excused) && ev in states
      modifies this`queues, this`laterQueue, this`eventCount, this`eventCountActive, this`states, ev
      ensures Core() && Wakeful(excused) && ev.res == old(ev.res)
      ensures
        var s := old(states)[ev];
        && states == (if s.finalizing then old(states) else old(states)[ev := s.(active := true, later := false)])
        && r == if s.finalizing || s.active || s.later then 0 else 1
      ensures
        var s := old(states)[ev];
        if s.finalizing || s.active then queues == old(queues) && laterQueue == old(laterQueue)
        else
          && ev.pri < |old(queues)| && queues == old(queues)[ev.pri := old(queues)[ev.pri] + [ev]]
          && laterQueue == if s.later then Without(old(laterQueue), ev) else old(laterQueue)
    {
      hide Agree, Tracked, WakesBut, Without;
      EvOf(ev);
      NotBoth(Shape(), states, ev);
      r := 1;
      if ev.finalizing {
        return 0;
      }
      if ev.later {
        WakesChanged(Shape(), states, ev, states[ev].(later := false), excused);
        RemoveLater(ev);
        r := 0;
      } else if ev.active {
        assert states == states[ev := states[ev].(active := true, later := false)];
        return 0;
      }
      WakesChanged(Shape(), states, ev, states[ev].(active := true), excused);
      InsertActive(ev);
    }

    method SetResult(ev: Event, res: set<Result>)
      requires Tracked()
      modifies ev`res
      ensures ev.res == res && Tracked()
    {
      ev.res := res;
    }

    method AddResult(ev: Event, res: set<Result>)
      requires Tracked()
      modifies ev`res
      ensures ev.res == old(ev.res) + res && Tracked()
    {
      ev.res := ev.res + res;
    }

    /** The old timeout goes, with what it has caused. */
    method ClearTimeout(ev: Event, ghost excused: set<Event>)
      requires Core() && Wakeful(excused) && ev in states && (ev in excused || ev !in commonTimers)
      modifies this`heap, this`lists, this`queues, this`eventCount, this`eventCountActive, this`states, ev
      ensures Core() && Wakeful(excused) && |lists| == |old(lists)| && ev.res == old(ev.res)
      ensures states == old(states)[ev :=
              old(states)[ev].(timeout := false, active := old(states)[ev].active && TimedOut !in old(ev.res))]
      ensures !old(states)[ev].timeout || old(states)[ev].when.Plain() ==> lists == old(lists)
    {
      hide Agree, Tracked, WakesBut, Timeval.Plain, OnlyLoses;
      ghost var t, s := states, states[ev];
      DelTimeout(ev, excused);
      SameLength(old(lists), lists, ev);
      EvOf(ev);
      Overwrite(t, ev, s.(timeout := false), s.(timeout := false, active := false));
      if ev.active && TimedOut in ev.res {
        WakesChanged(Shape(), states, ev, states[ev].(active := false), excused);
        RemoveActive(ev);
      }
    }

    /** The new deadline and interval are set. */
    method SetTimes(ev: Event, tv: Timeval, absolute: bool, now: Timeval, ghost excused: set<Event>)
      requires Core() && Wakeful(excused) && ev in states && !states[ev].finalizing && !states[ev].timeout
      requires now.Plain() && tv.WellFormed(|lists|)
      requires absolute && states[ev].interval != ZERO ==> states[ev].interval.Tag() == tv.Tag()
      requires ev in commonTimers ==> tv.Plain() && absolute
      modifies this`states, ev
      ensures Core() && Wakeful(excused) && ev.res == old(ev.res)
      ensures states == old(states)[ev := TimesSet(old(states)[ev], tv, absolute, now, |lists|)]
    {
      hide Agree, Tracked, WakesBut, Timeval.WellFormed, Timeval.IsCommon, Timeval.Index, Timeval.Plain, Timeval.Us,
           Timeval.Tag, Deadline;
      EvOf(ev);
      DeadlineFacts(tv, absolute, now, |lists|);
      SoundOf(Shape(), states, ev);
      var d := Deadline(tv, absolute, now, |lists|);
      var s := ev.State().(when := d, interval := if ev.closure == Persistent && !absolute then tv else ev.interval);
      WakesChanged(Shape(), states, ev, s, excused);
      SetDetails(ev, s);
    }

    /**
     * event_add_nolock_, if it is given a time: a pending timeout is replaced, and if the event is
     * active because of its last timeout, it is not any more.
     */
    method AddTimeout(ev: Event, tv: Timeval, absolute: bool, now: Timeval, ghost excused: set<Event>)
      requires Core() && Wakeful(excused) && ev in states && !states[ev].finalizing
      requires now.Plain() && tv.WellFormed(|lists|)
      requires absolute && states[ev].interval != ZERO ==> states[ev].interval.Tag() == tv.Tag()
      requires ev in commonTimers ==> tv.Plain() && absolute && ev in excused
      modifies this`heap, this`lists, this`queues, this`laterQueue, this`eventCount, this`eventCountActive, this`states,
               states.Keys
      ensures Core() && Wakeful(excused) && |lists| == |old(lists)|
      ensures OthersKept(old(states), states, ev, commonTimers)
      ensures forall e | e in states :: e.res == old(e.res)
      ensures states[ev] == TimeoutAdded(old(states)[ev], old(ev.res), tv, absolute, now, |lists|)
      ensures ev in commonTimers ==> lists == old(lists)
      ensures tv.Plain() ==> states == old(states)[ev := states[ev]]
      decreases if tv.Plain() then 0 else 1, 2
    {
      hide Agree, Tracked, WakesBut, Timeval.WellFormed, Timeval.IsCommon, Timeval.Index, Timeval.Plain, Timeval.Us,
           Timeval.Tag, Without, Deadline, OthersKept;
      DeadlineFacts(tv, absolute, now, |lists|);
      ghost var t := states;
      Reset(ev, tv, absolute, now, excused);
      ghost var t1 := states;
      InsertAndSchedule(ev, now, excused);
      OthersTrans(t, t1[ev], states, ev, commonTimers);
    }

    method Reset(ev: Event, tv: Timeval, absolute: bool, now: Timeval, ghost excused: set<Event>)
      requires Core() && Wakeful(excused) && ev in states && !states[ev].finalizing
      requires now.Plain() && tv.WellFormed(|lists|)
      requires absolute && states[ev].interval != ZERO ==> states[ev].interval.Tag() == tv.Tag()
      requires ev in commonTimers ==> tv.Plain() && absolute && ev in excused
      modifies this`heap, this`lists, this`queues, this`eventCount, this`eventCountActive, this`states, ev
      ensures Core() && Wakeful(excused) && |lists| == |old(lists)| && ev.res == old(ev.res)
      ensures states == old(states)[ev :=
              TimeoutAdded(old(states)[ev], old(ev.res), tv, absolute, now, |lists|).(timeout := false)]
      ensures ev in commonTimers ==> lists == old(lists)
    {
      hide Agree, Tracked, WakesBut, Timeval.WellFormed, Timeval.IsCommon, Timeval.Index, Timeval.Plain, Timeval.Us,
           Timeval.Tag, Deadline;
      TimerPlain(Shape(), states, ev);
      ghost var t := states;
      ClearTimeout(ev, excused);
      ghost var s1 := states[ev];
      SetTimes(ev, tv, absolute, now, excused);
      Overwrite(t, ev, s1, states[ev]);
    }

    /** The end of event_add_nolock_: the first event of a common timeout sets the timer of its list. */
    method InsertAndSchedule(ev: Event, now: Timeval, ghost excused: set<Event>)
      requires Core() && Wakeful(excused) && ev in states && !states[ev].finalizing && !states[ev].timeout
      requires now.Plain() && states[ev].when.WellFormed(|lists|) && (ev in commonTimers ==> states[ev].when.Plain())
      modifies this`heap, this`lists, this`queues, this`laterQueue, this`eventCount, this`eventCountActive, this`states,
               states.Keys
      ensures Core() && Wakeful(excused) && |lists| == |old(lists)|
      ensures OthersKept(old(states), states, ev, commonTimers) && states[ev] == old(states)[ev].(timeout := true)
      ensures forall e | e in states :: e.res == old(e.res)
      ensures ev in commonTimers ==> lists == old(lists)
      ensures old(states)[ev].when.Plain() ==> states == old(states)[ev := states[ev]]
      decreases if states[ev].when.Plain() then 0 else 1, 1
    {
      hide Agree, Tracked, WakesBut, Timeval.WellFormed, Timeval.IsCommon, Timeval.Index, Timeval.Plain, Timeval.Us,
           Timeval.Tag, Without;
      EvOf(ev);
      PlainOrCommon(ev.when, |lists|);
      ghost var b, t := Shape(), states;
      var i := ev.when.Index();
      ghost var k := InsertTimeout(ev);
      EvOf(ev);
      if ev.when.Plain() {
        WakesTimeoutNew(b, t, ev, excused);
      } else {
        WakesListNew(b, t, ev, i, k, excused);
        ghost var timer := commonTimers[i];
        MoreExcused(commonTimers, lists, states, if k == 0 then excused + {timer} else excused, excused + {timer});
        if lists[i][0] == ev {
          Schedule(i, now, excused + {timer});
          MoreExcused(commonTimers, lists, states, excused + {timer} - {timer}, excused);
        }
      }
    }

    /** common_timeout_schedule: the timer of list `i` is set to the deadline of the first event there. */
    method Schedule(i: nat, now: Timeval, ghost excused: set<Event>)
      requires Core() && i < |lists| == |commonTimers| && lists[i] != [] && now.Plain()
      requires Wakeful(excused) && commonTimers[i] in excused
      modifies this`heap, this`lists, this`queues, this`laterQueue, this`eventCount, this`eventCountActive, this`states,
               states.Keys
      ensures Core() && Wakeful(excused - {commonTimers[i]}) && lists == old(lists)
      ensures commonTimers[i] in old(states) && states == old(states)[commonTimers[i] := states[commonTimers[i]]]
      ensures lists[i][0] in states && states[commonTimers[i]].timeout
              && states[commonTimers[i]].when == states[lists[i][0]].when.Masked()
      ensures forall e | e in states :: e.res == old(e.res)
      decreases 1, 0
    {
      hide Agree, Tracked, Timeval.WellFormed, Timeval.IsCommon, Timeval.Index, Timeval.Plain, Timeval.Us, Timeval.Tag,
           Without;
      var head, timer := lists[i][0], commonTimers[i];
      HeadOfList(Shape(), states, i);
      EvOf(head);
      MaskedTime(head.when);
      PlainWellFormed(head.when.Masked(), |lists|);
      var r := Add(timer, Some(head.when.Masked()), true, now, 0, excused);
      DistinctTimers(Shape(), states, i);
      Unexcuse(commonTimers, lists, states, excused, timer);
    }

    /** event_add_nolock_; `evmapResult` is what evmap_io_add_ or evmap_signal_add_ returns. */
    method Add(ev: Event, tv: Option<Timeval>, absolute: bool, now: Timeval, evmapResult: int,
               ghost excused: set<Event>)
      returns (r: int)
      requires Core() && Wakeful(excused) && ev in states && -1 <= evmapResult <= 1
      requires now.Plain() && (tv.Some? ==> tv.value.WellFormed(|lists|))
      requires tv.Some? && absolute && states[ev].interval != ZERO ==> states[ev].interval.Tag() == tv.value.Tag()
      requires ev in commonTimers ==> tv.Some? && tv.value.Plain() && absolute && ev in excused
      modifies this`heap, this`lists, this`queues, this`laterQueue, this`eventCount, this`eventCountActive, this`states,
               states.Keys
      ensures Core() && Wakeful(excused) && |lists| == |old(lists)|
      ensures r == if AddFails(old(states)[ev], ev.hasSource, evmapResult) then -1 else 0
      ensures
        var s := old(states)[ev];
        r == -1 <==> s.finalizing
                     || (ev.hasSource && !s.inserted && !s.active && !s.later && evmapResult == -1)
      ensures OthersKept(old(states), states, ev, commonTimers)
      ensures forall e | e in states :: e.res == old(e.res)
      ensures r == -1 ==> states == old(states) && Shape() == old(Shape())
      ensures r == 0 ==>
                var s := SourceAdded(old(states)[ev], ev.hasSource);
                states[ev] == if tv.None? then s else TimeoutAdded(s, old(ev.res), tv.value, absolute, now, |lists|)
      ensures r == 0 ==> Pending(old(states)[ev], states[ev], ev.hasSource, old(ev.res), tv, absolute, now)
      ensures tv.None? || tv.value.Plain() ==> states == old(states)[ev := states[ev]]
      ensures ev in commonTimers ==> lists == old(lists)
      decreases if tv.None? || tv.value.Plain() then 0 else 1, 3
    {
      hide Agree, Tracked, WakesBut, Timeval.WellFormed, Timeval.IsCommon, Timeval.Index, Timeval.Plain, Timeval.Us,
           Timeval.Tag, TimeoutAdded, Pending;
      r := 0;
      EvOf(ev);
      AddedIsPending(states[ev], ev.hasSource, ev.res, tv, absolute, now, |lists|);
      TimerPlain(Shape(), states, ev);
      TimerSource(Shape(), states, ev);
      if ev.finalizing {
        return -1;
      }
      if ev.hasSource && !ev.inserted && !ev.active && !ev.later {
        if evmapResult == -1 {
          return -1;
        }
        WakesChanged(Shape(), states, ev, states[ev].(inserted := true), excused);
        SetInserted(ev, true);
      }
      if tv.Some? {
        AddTimeout(ev, tv.value, absolute, now, excused);
      }
    }
  }

  /** What making the callbacks active that were put off does to the flags. */
  ghost function Promoted(t: Table): (u: Table)
    ensures u.Keys == t.Keys
  {
    map e | e in t :: if t[e].later then t[e].(later := false, active := true) else t[e]
  }

  function OfPriority(l: seq<Event>, p: nat): seq<Event> {
    if l == [] then [] else (if l[0].pri == p then [l[0]] else []) + OfPriority(l[1..], p)
  }

  lemma PromotedStep(t: Table, e: Event)
    ensures e in t && t[e].later ==> Promoted(t[e := t[e].(later := false, active := true)]) == Promoted(t)
  {
  }

  lemma NonePromoted(t: Table)
    requires forall e | e in t :: !t[e].later
    ensures Promoted(t) == t
  {
  }

  lemma OfPriorityStep(l: seq<Event>, queues: seq<seq<Event>>)
    requires l != []
    ensures forall p {:trigger OfPriority(l, p)} | 0 <= p < |queues| ::
              (if l[0].pri == p then queues[p] + [l[0]] else queues[p]) + OfPriority(l[1..], p)
                == queues[p] + OfPriority(l, p)
  {
  }

  lemma NonePriority(queues: seq<seq<Event>>)
    ensures forall p {:trigger queues[p]} | 0 <= p < |queues| :: queues[p] + OfPriority([], p) == queues[p]
  {
  }

  /** Lists may lose the event, and nothing else. */
  ghost predicate OnlyLoses(was: seq<seq<Event>>, now: seq<seq<Event>>, ev: Event) {
    && |now| == |was|
    && forall i {:trigger now[i]} {:trigger was[i]} | 0 <= i < |now| ::
         now[i] == was[i] || (ev in was[i] && now[i] == Without(was[i], ev))
  }

  lemma SameLength(was: seq<seq<Event>>, now: seq<seq<Event>>, ev: Event)
    requires OnlyLoses(was, now, ev)
    ensures |now| == |was|
  {
  }

  lemma LosesNothing(lists: seq<seq<Event>>, ev: Event)
    ensures OnlyLoses(lists, lists, ev)
  {
  }

  /** A pending timeout is either in the heap or in its list. */
  lemma WhereTimeout(b: Shape, t: Table, e: Event)
    requires Agree(b, t) && e in t
    ensures !t[e].timeout || !t[e].when.Plain() ==> b.heap - {e} == b.heap
    ensures t[e].timeout && !t[e].when.Plain() ==>
              var i := t[e].when.Index(); i < |b.lists| && e in b.lists[i]
  {
    assert Placed(e, t[e], b.heap, b.lists);
  }

  /** All events but `ev` and the timers are as they were. */
  ghost predicate OthersKept(was: Table, now: Table, ev: Event, timers: seq<Event>) {
    now.Keys == was.Keys && forall e | e in now && e != ev && e !in timers :: now[e] == was[e]
  }

  /** An event that waits for a source is handed to evmap unless it is there, or active. */
  ghost predicate NeedsSource(s: EvState, hasSource: bool) {
    hasSource && !s.inserted && !s.active && !s.later
  }

  /** event_add fails for finalizing events, and if evmap fails. */
  ghost predicate AddFails(s: EvState, hasSource: bool, evmapResult: int) {
    s.finalizing || (NeedsSource(s, hasSource) && evmapResult == -1)
  }

  ghost function SourceAdded(s: EvState, hasSource: bool): EvState {
    s.(inserted := s.inserted || NeedsSource(s, hasSource))
  }

  ghost function TimesSet(s: EvState, tv: Timeval, absolute: bool, now: Timeval, n: nat): EvState {
    s.(when := Deadline(tv, absolute, now, n),
       interval := if s.closure == Persistent && !absolute then tv else s.interval)
  }

  ghost function TimeoutAdded(s: EvState, res: set<Result>, tv: Timeval, absolute: bool, now: Timeval,
                              n: nat): EvState {
    TimesSet(s, tv, absolute, now, n).(timeout := true, active := s.active && TimedOut !in res)
  }

  ghost predicate NoLater(t: Table, e: Event, ev: Event) {
    e in t && ev in t && t[e].when.Us() <= t[ev].when.Us()
  }

  ghost predicate Later(t: Table, e: Event, ev: Event) {
    e in t && ev in t && t[e].when.Us() > t[ev].when.Us()
  }

  /** What event_add has made of an event: it waits for its source, and for the time given, if one is given. */
  ghost predicate Pending(s: EvState, s': EvState, hasSource: bool, res: set<Result>, tv: Option<Timeval>,
                          absolute: bool, now: Timeval) {
    && s'.inserted == (s.inserted || (hasSource && !s.active && !s.later))
    && s'.later == s.later && s'.finalizing == s.finalizing && s'.closure == s.closure
    && match tv
       case None => s'.timeout == s.timeout && s'.when == s.when && s'.interval == s.interval && s'.active == s.active
       case Some(d) =>
         && s'.timeout && s'.when.Us() == (if absolute then d.Us() else now.Us() + d.Us()) && s'.when.Tag() == d.Tag()
         && s'.interval == (if s.closure == Persistent && !absolute then d else s.interval)
         && s'.active == (s.active && TimedOut !in res)
  }

  lemma AddedIsPending(s: EvState, hasSource: bool, res: set<Result>, tv: Option<Timeval>, absolute: bool,
                       now: Timeval, n: nat)
    requires now.Plain() && (tv.Some? ==> tv.value.WellFormed(n))
    ensures
      var s1 := SourceAdded(s, hasSource);
      var s2 := if tv.None? then s1 else TimeoutAdded(s1, res, tv.value, absolute, now, n);
      Pending(s, s2, hasSource, res, tv, absolute, now)
  {
    hide Deadline, Timeval.Us, Timeval.Tag, Timeval.Plain, Timeval.WellFormed;
    if tv.Some? {
      DeadlineFacts(tv.value, absolute, now, n);
    }
  }

  lemma OverwriteThrice(t: Table, e: Event)
    requires e in t
    ensures
      var s1 := t[e].(timeout := false);
      var s2 := s1.(active := false, later := false);
      t[e := s1][e := s2][e := s2.(inserted := false)]
      == t[e := t[e].(inserted := false, timeout := false, active := false, later := false)]
  {
  }

  lemma OthersTrans(t: Table, s: EvState, now: Table, ev: Event, timers: seq<Event>)
    requires ev in t && OthersKept(t[ev := s], now, ev, timers)
    ensures OthersKept(t, now, ev, timers)
    ensures now == t[ev := s][ev := now[ev]] ==> now == t[ev := now[ev]]
  {
    Overwrite(t, ev, s, now[ev]);
  }

  lemma Overwrite(t: Table, e: Event, s: EvState, s': EvState)
    ensures t[e := s][e := s'] == t[e := s']
  {
  }

  lemma SoundOf(b: Shape, t: Table, e: Event)
    requires Agree(b, t) && e in t
    ensures t[e].interval != ZERO ==> t[e].interval.WellFormed(|b.lists|)
    ensures t[e].closure != Persistent && !t[e].finalizing ==> t[e].interval == ZERO
    ensures t[e].closure == Persistent ==> e.isEvent && e.persist
    ensures e in b.timers ==> t[e].closure == Once
  {
  }

  lemma HeadOfList(b: Shape, t: Table, i: nat)
    requires Agree(b, t) && i < |b.lists| && b.lists[i] != []
    ensures |b.timers| == |b.lists| && b.timers[i] in t && b.timers[i].isEvent && t[b.timers[i]].interval == ZERO
    ensures !b.timers[i].hasSource && !t[b.timers[i]].finalizing
    ensures b.lists[i][0] in t && t[b.lists[i][0]].when.Micros() < MILLION && b.lists[i][0] != b.timers[i]
  {
    assert IsTimer(b.timers[i], i, t);
    assert ListOk(b.lists[i], i, |b.lists|, t);
    assert b.lists[i][0] in b.lists[i];
    NotCommon(t[b.timers[i]].when, |b.lists|);
    assert t[b.lists[i][0]].when.WellFormed(|b.lists|);
  }

  lemma TimerPlain(b: Shape, t: Table, e: Event)
    requires Agree(b, t) && e in t
    ensures e in b.timers ==> t[e].when.Plain()
  {
  }

  lemma DistinctTimers(b: Shape, t: Table, i: nat)
    requires Agree(b, t) && i < |b.timers|
    ensures forall j | 0 <= j < |b.timers| && b.timers[j] == b.timers[i] :: j == i
  {
  }

  lemma TimerSource(b: Shape, t: Table, e: Event)
    requires Agree(b, t) && e in t
    ensures e in b.timers ==> !e.hasSource
  {
  }

  lemma NotBoth(b: Shape, t: Table, e: Event)
    requires Agree(b, t) && e in t
    ensures !(t[e].active && t[e].later) && (t[e].finalizing ==> !t[e].timeout && !t[e].inserted)
  {
  }

  lemma MoreExcused(timers: seq<Event>, lists: seq<seq<Event>>, t: Table, excused: set<Event>, more: set<Event>)
    requires WakesBut(timers, lists, t, excused) && excused <= more
    ensures WakesBut(timers, lists, t, more)
  {
  }

  /** An active timer wakes the loop. */
  lemma ActiveWakes(timers: seq<Event>, lists: seq<seq<Event>>, t: Table, excused: set<Event>, e: Event)
    requires WakesBut(timers, lists, t, excused) && e in t && t[e].active
    ensures WakesBut(timers, lists, t, excused - {e})
  {
  }

  lemma NoneLater(b: Shape, t: Table)
    requires Agree(b, t) && b.later == []
    ensures forall e | e in t :: !t[e].later
  {
  }

  lemma NoneActive(queues: seq<seq<Event>>)
    requires forall p | 0 <= p < |queues| :: queues[p] == []
    ensures Total(queues) == 0
  {
  }
}
