/**
 * Events, and the agreement between their flags and the structures of an event base, as a statement
 * about values: a table of event states, a set for the heap, and sequences for the queues.
 */
module EventState {
  import opened Options
  import opened EventTime

  /** EV_CLOSURE_* of an event or a deferred callback. */
  datatype Closure = Once | Signaled | Persistent | CallbackSelf | FinalizeEvent | FinalizeFree | CallbackFinalize

  /** What is called: code of the user, or common_timeout_callback for a list. */
  datatype Callback = User | CommonTimeout(list: nat)

  /** EV_TIMEOUT, EV_READ, ... */
  datatype Result = TimedOut | Readable | Writable | Closed | SignalCaught | Finalized

  /** The parts of an event that the structures of a base must agree with. */
  datatype EvState = EvState(inserted: bool, timeout: bool, active: bool, later: bool, finalizing: bool,
                             when: Timeval, interval: Timeval, closure: Closure)

  /** struct event, or a struct event_callback if it is not EVLIST_INIT. */
  class Event {
    const isEvent: bool
    const internal: bool
    /** EV_READ, EV_WRITE, EV_CLOSED or EV_SIGNAL is in ev_events. */
    const hasSource: bool
    const persist: bool
    const pri: nat
    const callback: Callback
    var inserted: bool
    var timeout: bool
    var active: bool
    var later: bool
    var finalizing: bool
    /** ev_timeout and ev_io_timeout */
    var when: Timeval
    var interval: Timeval
    var closure: Closure
    var res: set<Result>

    constructor (isEvent: bool, internal: bool, hasSource: bool, persist: bool, pri: nat, callback: Callback,
                 closure: Closure)
      ensures this.isEvent == isEvent && this.internal == internal && this.hasSource == hasSource
      ensures this.persist == persist && this.pri == pri && this.callback == callback
      ensures State() == EvState(false, false, false, false, false, ZERO, ZERO, closure)
    {
      this.isEvent, this.internal, this.hasSource := isEvent, internal, hasSource;
      this.persist, this.pri, this.callback, this.closure := persist, pri, callback, closure;
      inserted, timeout, active, later, finalizing := false, false, false, false, false;
      when, interval, res := ZERO, ZERO, {};
    }

    method Set(s: EvState)
      modifies this
      ensures State() == s && res == old(res)
    {
      inserted, timeout, active, later, finalizing := s.inserted, s.timeout, s.active, s.later, s.finalizing;
      when, interval, closure := s.when, s.interval, s.closure;
    }

    function State(): EvState
      reads this
    {
      EvState(inserted, timeout, active, later, finalizing, when, interval, closure)
    }
  }

  type Table = map<Event, EvState>

  ghost predicate NoDup<T>(s: seq<T>) {
    forall i, j | 0 <= i < j < |s| :: s[i] != s[j]
  }

  ghost predicate Sorted(l: seq<Event>, t: Table) {
    forall i, j | 0 <= i < j < |l| && l[i] in t && l[j] in t :: t[l[i]].when.Us() <= t[l[j]].when.Us()
  }

  /** A common-timeout list: pending events of its own, in the order of their deadlines. */
  ghost predicate ListOk(l: seq<Event>, i: nat, n: nat, t: Table) {
    && NoDup(l) && Sorted(l, t)
    && forall e | e in l :: e in t && t[e].timeout && t[e].when.IsCommon(n) && t[e].when.Index() == i
  }

  /** Where an event with a pending timeout is. */
  ghost predicate Placed(e: Event, s: EvState, heap: set<Event>, lists: seq<seq<Event>>) {
    s.timeout ==>
      && s.when.WellFormed(|lists|)
      && if s.when.Plain() then e in heap else e in lists[s.when.Index()]
  }

  /** The heap and the common-timeout lists hold exactly the events with a pending timeout. */
  ghost predicate TimersOk(heap: set<Event>, lists: seq<seq<Event>>, t: Table) {
    && (forall e | e in heap :: e in t && t[e].timeout && t[e].when.Plain())
    && (forall i {:trigger lists[i]} | 0 <= i < |lists| :: ListOk(lists[i], i, |lists|, t))
    && forall e | e in t :: Placed(e, t[e], heap, lists)
  }

  /** The active queues and the later queue hold exactly the active callbacks, each in its place. */
  ghost predicate ActiveOk(queues: seq<seq<Event>>, later: seq<Event>, t: Table) {
    && (forall p, j {:trigger queues[p][j]} | 0 <= p < |queues| && 0 <= j < |queues[p]| ::
          var e := queues[p][j]; e in t && t[e].active && e.pri == p)
    && (forall j {:trigger later[j]} | 0 <= j < |later| :: later[j] in t && t[later[j]].later)
    && (forall e | e in t ::
          && e.pri < |queues| && !(t[e].active && t[e].later)
          && (t[e].active ==> e in queues[e.pri]) && (t[e].later ==> e in later))
    && (forall p {:trigger queues[p]} | 0 <= p < |queues| :: NoDup(queues[p]))
    && NoDup(later)
  }

  ghost function Total(queues: seq<seq<Event>>): nat {
    if queues == [] then 0 else |queues[0]| + Total(queues[1..])
  }

  /** The events that count, and that have one of the four flags. */
  ghost function WithInserted(t: Table): set<Event> {
    set e | e in t && !e.internal && t[e].inserted
  }

  ghost function WithTimeout(t: Table): set<Event> {
    set e | e in t && !e.internal && t[e].timeout
  }

  ghost function WithActive(t: Table): set<Event> {
    set e | e in t && !e.internal && t[e].active
  }

  ghost function WithLater(t: Table): set<Event> {
    set e | e in t && !e.internal && t[e].later
  }

  /** The number of flags on events that are not internal. */
  ghost function FlagCount(t: Table): nat {
    |WithInserted(t)| + |WithTimeout(t)| + |WithActive(t)| + |WithLater(t)|
  }

  function Flags(s: EvState): nat {
    One(s.inserted) + One(s.timeout) + One(s.active) + One(s.later)
  }

  ghost predicate FinalOk(t: Table) {
    forall e | e in t && t[e].finalizing :: !t[e].timeout && !t[e].inserted
  }

  /**
   * An interval that is remembered belongs to the same common timeout as the deadline, and only events
   * with EV_PERSIST have the closure of persistent events.
   */
  ghost predicate IntervalsOk(t: Table, n: nat) {
    forall e | e in t ::
      && (t[e].interval != ZERO ==> t[e].interval.WellFormed(n) && t[e].interval.Tag() == t[e].when.Tag())
      && (t[e].closure != Persistent && !t[e].finalizing ==> t[e].interval == ZERO)
      && (t[e].closure == Persistent ==> e.isEvent && e.persist)
      && (t[e].when.WellFormed(n))
  }

  /** The event that wakes the loop for list `i` does so in time. */
  ghost predicate Wakes(timer: Event, list: seq<Event>, t: Table) {
    && timer in t
    && (list != [] && list[0] in t ==>
          t[timer].active || (t[timer].timeout && t[timer].when.Us() <= t[list[0]].when.Us()))
  }

  /** The internal event of list `i`. */
  ghost predicate IsTimer(e: Event, i: nat, t: Table) {
    && e in t && e.isEvent && e.internal && !e.hasSource && !e.persist && e.callback == CommonTimeout(i)
    && !t[e].inserted && !t[e].later && !t[e].finalizing && t[e].when.Plain() && t[e].closure == Once
  }

  ghost predicate TimersKnown(timers: seq<Event>, n: nat, t: Table) {
    && |timers| == n <= MAX_COMMON_TIMEOUTS && NoDup(timers)
    && (forall i {:trigger timers[i]} | 0 <= i < |timers| :: IsTimer(timers[i], i, t))
    && forall e | e in t && e.callback.CommonTimeout? :: e.callback.list < n && timers[e.callback.list] == e
  }

  /** All lists whose timer is not excused wake the loop in time. */
  ghost predicate WakesBut(timers: seq<Event>, lists: seq<seq<Event>>, t: Table, excused: set<Event>) {
    && |timers| == |lists|
    && forall i {:trigger lists[i]} {:trigger timers[i]} | 0 <= i < |lists| && timers[i] !in excused ::
       Wakes(timers[i], lists[i], t)
  }

  // ----- One event changes -----

  /** A set of which one member may change. */
  lemma SetChange(s: set<Event>, s': set<Event>, e: Event)
    requires s - {e} == s' - {e}
    ensures |s'| + One(e in s) == |s| + One(e in s')
  {
    assert e in s ==> s == (s - {e}) + {e};
    assert e in s' ==> s' == (s' - {e}) + {e};
    assert e !in s ==> s == s - {e};
    assert e !in s' ==> s' == s' - {e};
  }

  /** The number of flags changes by the flags of the event that changes. */
  lemma FlagCountChange(t: Table, e: Event, s: EvState)
    requires e in t
    ensures e.internal ==> FlagCount(t[e := s]) == FlagCount(t)
    ensures !e.internal ==> FlagCount(t[e := s]) + Flags(t[e]) == FlagCount(t) + Flags(s)
  {
    var u := t[e := s];
    SetChange(WithInserted(t), WithInserted(u), e);
    SetChange(WithTimeout(t), WithTimeout(u), e);
    SetChange(WithActive(t), WithActive(u), e);
    SetChange(WithLater(t), WithLater(u), e);
  }

  lemma {:induction false} TotalChange(queues: seq<seq<Event>>, p: nat, q: seq<Event>)
    requires p < |queues|
    ensures Total(queues[p := q]) + |queues[p]| == Total(queues) + |q|
  {
    if p == 0 {
      assert queues[0 := q][1..] == queues[1..];
    } else {
      assert queues[p := q][1..] == queues[1..][p - 1 := q];
      TotalChange(queues[1..], p - 1, q);
    }
  }

  lemma WithoutFacts(l: seq<Event>, e: Event)
    requires NoDup(l) && e in l
    ensures NoDup(Without(l, e)) && |Without(l, e)| == |l| - 1
    ensures forall x :: x in Without(l, e) <==> x in l && x != e
    ensures forall j | 0 <= j < |Without(l, e)| :: Without(l, e)[j] in l && Without(l, e)[j] != e
    ensures l[0] != e ==> Without(l, e) != [] && Without(l, e)[0] == l[0]
    ensures l[0] == e ==> Without(l, e) == l[1..]
  {
    var k := WithoutAt(l, e);
    var w := Without(l, e);
    forall x | x in l && x != e ensures x in w {
      var j :| 0 <= j < |l| && l[j] == x;
      assert x == w[if j < k then j else j - 1];
    }
  }

  lemma WithoutSorted(l: seq<Event>, e: Event, t: Table)
    requires NoDup(l) && e in l && Sorted(l, t)
    ensures Sorted(Without(l, e), t)
  {
    var k := WithoutAt(l, e);
  }

  // ----- Timeouts -----

  lemma TimersSame(heap: set<Event>, lists: seq<seq<Event>>, t: Table, e: Event, s: EvState)
    requires TimersOk(heap, lists, t) && e in t && s.timeout == t[e].timeout && (s.timeout ==> s.when == t[e].when)
    ensures TimersOk(heap, lists, t[e := s])
  {
  }

  lemma HeapOut(heap: set<Event>, lists: seq<seq<Event>>, t: Table, e: Event)
    requires TimersOk(heap, lists, t) && e in t && t[e].timeout && t[e].when.Plain()
    ensures TimersOk(heap - {e}, lists, t[e := t[e].(timeout := false)]) && e in heap
  {
    PlainTime(t[e].when);
  }

  lemma HeapIn(heap: set<Event>, lists: seq<seq<Event>>, t: Table, e: Event, s: EvState)
    requires TimersOk(heap, lists, t) && e in t && !t[e].timeout && s.timeout && s.when.Plain()
    ensures TimersOk(heap + {e}, lists, t[e := s]) && e !in heap
  {
    PlainTime(s.when);
    assert s.when.WellFormed(|lists|);
  }

  /** A list does not notice a change of an event that is not in it, or of a flag it does not need. */
  lemma ListSame(l: seq<Event>, i: nat, n: nat, t: Table, e: Event, s: EvState)
    requires ListOk(l, i, n, t) && e in t && (e in l ==> s.timeout && s.when == t[e].when)
    ensures ListOk(l, i, n, t[e := s])
  {
    hide Timeval.IsCommon, Timeval.Index;
  }

  lemma ListLess(l: seq<Event>, i: nat, n: nat, t: Table, e: Event)
    requires ListOk(l, i, n, t) && e in l
    ensures ListOk(Without(l, e), i, n, t[e := t[e].(timeout := false)])
  {
    hide Timeval.IsCommon, Timeval.Index, Without;
    WithoutFacts(l, e);
    WithoutSorted(l, e, t);
  }

  lemma ListMore(l: seq<Event>, i: nat, n: nat, t: Table, e: Event, s: EvState, k: nat)
    requires ListOk(l, i, n, t) && e in t && !t[e].timeout && s.timeout && s.when.IsCommon(n) && s.when.Index() == i
    requires k <= |l|
    requires forall j | 0 <= j < k :: t[l[j]].when.Us() <= s.when.Us()
    requires forall j | k <= j < |l| :: s.when.Us() <= t[l[j]].when.Us()
    ensures ListOk(l[..k] + [e] + l[k..], i, n, t[e := s])
    ensures forall x :: x in l[..k] + [e] + l[k..] <==> x in l || x == e
  {
    hide Timeval.IsCommon, Timeval.Index, Timeval.Us;
    assert e !in l;
    InsertIn(l, k, e);
  }

  /** A sequence with one more element at position `k`. */
  lemma InsertIn(l: seq<Event>, k: nat, e: Event)
    requires k <= |l|
    ensures var w := l[..k] + [e] + l[k..];
      && |w| == |l| + 1 && w[k] == e && (forall j | 0 <= j < k :: w[j] == l[j])
      && (forall j | k < j <= |l| :: w[j] == l[j - 1])
      && (forall x :: x in w <==> x in l || x == e)
  {
    var w := l[..k] + [e] + l[k..];
    forall x ensures x in w <==> x in l || x == e {
      if x in l {
        var j :| 0 <= j < |l| && l[j] == x;
        assert w[if j < k then j else j + 1] == x;
      }
      assert w[k] == e;
    }
  }

  lemma ListOut(heap: set<Event>, lists: seq<seq<Event>>, t: Table, e: Event, i: nat)
    requires TimersOk(heap, lists, t) && e in t && t[e].timeout && !t[e].when.Plain() && i == t[e].when.Index()
    ensures i < |lists| && e in lists[i]
    ensures TimersOk(heap, lists[i := Without(lists[i], e)], t[e := t[e].(timeout := false)])
  {
    hide ListOk, Without;
    assert Placed(e, t[e], heap, lists);
    var lists', s := lists[i := Without(lists[i], e)], t[e].(timeout := false);
    ListLess(lists[i], i, |lists|, t, e);
    WithoutIn(lists, t, i, e);
    forall m | 0 <= m < |lists| && m != i ensures ListOk(lists'[m], m, |lists|, t[e := s]) {
      ElsewhereIn(lists, t, m, e);
      ListSame(lists[m], m, |lists|, t, e, s);
    }
    forall x | x in t ensures Placed(x, t[e := s][x], heap, lists') {
      assert Placed(x, t[x], heap, lists);
    }
  }

  lemma WithoutIn(lists: seq<seq<Event>>, t: Table, i: nat, e: Event)
    requires i < |lists| && ListOk(lists[i], i, |lists|, t) && e in lists[i]
    ensures forall x :: x in Without(lists[i], e) <==> x in lists[i] && x != e
  {
    WithoutFacts(lists[i], e);
  }

  lemma ElsewhereIn(lists: seq<seq<Event>>, t: Table, i: nat, e: Event)
    requires i < |lists| && ListOk(lists[i], i, |lists|, t) && e in t
    ensures e in lists[i] ==> t[e].timeout && !t[e].when.Plain() && t[e].when.Index() == i
  {
    NotCommon(t[e].when, |lists|);
  }

  lemma ListIn(heap: set<Event>, lists: seq<seq<Event>>, t: Table, e: Event, s: EvState, i: nat, k: nat)
    requires TimersOk(heap, lists, t) && e in t && !t[e].timeout && s.timeout && s.when.WellFormed(|lists|)
             && !s.when.Plain()
    requires i == s.when.Index() < |lists| && k <= |lists[i]|
    requires forall j | 0 <= j < k :: lists[i][j] in t && t[lists[i][j]].when.Us() <= s.when.Us()
    requires forall j | k <= j < |lists[i]| :: lists[i][j] in t && s.when.Us() <= t[lists[i][j]].when.Us()
    ensures TimersOk(heap, lists[i := lists[i][..k] + [e] + lists[i][k..]], t[e := s])
  {
    hide ListOk, Timeval.Us;
    var w := lists[i][..k] + [e] + lists[i][k..];
    var lists' := lists[i := w];
    ListMore(lists[i], i, |lists|, t, e, s, k);
    forall m | 0 <= m < |lists| && m != i ensures ListOk(lists'[m], m, |lists|, t[e := s]) {
      ElsewhereIn(lists, t, m, e);
      ListSame(lists[m], m, |lists|, t, e, s);
    }
    forall x | x in t ensures Placed(x, t[e := s][x], heap, lists') {
      assert Placed(x, t[x], heap, lists);
    }
  }

  // ----- Active callbacks -----

  lemma ActiveSame(queues: seq<seq<Event>>, later: seq<Event>, t: Table, e: Event, s: EvState)
    requires ActiveOk(queues, later, t) && e in t && s.active == t[e].active && s.later == t[e].later
    ensures ActiveOk(queues, later, t[e := s])
  {
  }

  lemma ActiveOut(queues: seq<seq<Event>>, later: seq<Event>, t: Table, e: Event)
    requires ActiveOk(queues, later, t) && e in t && t[e].active
    ensures e.pri < |queues| && e in queues[e.pri]
    ensures ActiveOk(queues[e.pri := Without(queues[e.pri], e)], later, t[e := t[e].(active := false)])
    ensures Total(queues[e.pri := Without(queues[e.pri], e)]) == Total(queues) - 1
  {
    hide Without;
    var q := queues[e.pri];
    var w := Without(q, e);
    WithoutFacts(q, e);
    TotalChange(queues, e.pri, w);
    var s := t[e].(active := false);
    forall j | 0 <= j < |w| ensures w[j] in t && t[e := s][w[j]].active && w[j].pri == e.pri {
      var k :| 0 <= k < |q| && q[k] == w[j];
      assert queues[e.pri][k] == w[j];
    }
  }

  lemma ActiveIn(queues: seq<seq<Event>>, later: seq<Event>, t: Table, e: Event)
    requires ActiveOk(queues, later, t) && e in t && !t[e].active && !t[e].later
    ensures e.pri < |queues|
    ensures ActiveOk(queues[e.pri := queues[e.pri] + [e]], later, t[e := t[e].(active := true)])
    ensures Total(queues[e.pri := queues[e.pri] + [e]]) == Total(queues) + 1
  {
    TotalChange(queues, e.pri, queues[e.pri] + [e]);
    assert forall j | 0 <= j < |queues[e.pri]| :: queues[e.pri][j] != e;
    assert (queues[e.pri] + [e])[|queues[e.pri]|] == e;
  }

  lemma LaterOut(queues: seq<seq<Event>>, later: seq<Event>, t: Table, e: Event)
    requires ActiveOk(queues, later, t) && e in t && t[e].later
    ensures e in later && |Without(later, e)| == |later| - 1
    ensures ActiveOk(queues, Without(later, e), t[e := t[e].(later := false)])
  {
    hide Without;
    var w := Without(later, e);
    WithoutFacts(later, e);
    forall j | 0 <= j < |w| ensures w[j] in t && w[j] != e && t[w[j]].later {
      var k :| 0 <= k < |later| && later[k] == w[j];
    }
  }

  lemma LaterIn(queues: seq<seq<Event>>, later: seq<Event>, t: Table, e: Event)
    requires ActiveOk(queues, later, t) && e in t && !t[e].active && !t[e].later
    ensures ActiveOk(queues, later + [e], t[e := t[e].(later := true)])
  {
    assert forall j | 0 <= j < |later| :: later[j] != e;
    assert (later + [e])[|later|] == e;
  }

  /** The first callback of the later queue becomes active. */
  lemma LaterToActive(queues: seq<seq<Event>>, later: seq<Event>, t: Table)
    requires ActiveOk(queues, later, t) && later != []
    ensures
      var e := later[0];
      && e in t && t[e].later && !t[e].active && e.pri < |queues|
      && ActiveOk(queues[e.pri := queues[e.pri] + [e]], later[1..], t[e := t[e].(later := false, active := true)])
      && Total(queues[e.pri := queues[e.pri] + [e]]) == Total(queues) + 1
  {
    hide Total;
    var e := later[0];
    LaterOut(queues, later, t, e);
    WithoutFacts(later, e);
    var t1 := t[e := t[e].(later := false)];
    ActiveIn(queues, later[1..], t1, e);
    assert t1[e := t1[e].(active := true)] == t[e := t[e].(later := false, active := true)];
  }

  // ----- Waking up -----

  /** Nothing that matters for waking up has become worse. */
  lemma WakesKept(timers: seq<Event>, lists: seq<seq<Event>>, t: Table, lists': seq<seq<Event>>, t': Table,
                  excused: set<Event>)
    requires WakesBut(timers, lists, t, excused) && |lists'| == |lists|
    requires forall i {:trigger timers[i]} | 0 <= i < |timers| && timers[i] !in excused ::
               && timers[i] in t && timers[i] in t'
               && (t[timers[i]].active ==> t'[timers[i]].active)
               && (t[timers[i]].timeout ==> t'[timers[i]].timeout && t'[timers[i]].when == t[timers[i]].when)
    requires forall i {:trigger lists'[i]} | 0 <= i < |lists'| && timers[i] !in excused && lists'[i] != []
             && lists'[i][0] in t' ::
               lists[i] != [] && lists[i][0] in t && t[lists[i][0]].when.Us() <= t'[lists'[i][0]].when.Us()
    ensures WakesBut(timers, lists', t', excused)
  {
    forall i {:trigger lists'[i]} | 0 <= i < |lists'| && timers[i] !in excused ensures Wakes(timers[i], lists'[i], t') {
      assert Wakes(timers[i], lists[i], t);
    }
  }

  /** What an event must respect besides the structures, in a base with `n` common timeouts. */
  ghost predicate Sound(timers: seq<Event>, n: nat, t: Table) {
    FinalOk(t) && IntervalsOk(t, n) && TimersKnown(timers, n, t)
  }

  /** Flags may change, but finalizing events get no timeout, and timers are not inserted. */
  lemma SoundFlags(timers: seq<Event>, n: nat, t: Table, e: Event, s: EvState)
    requires Sound(timers, n, t) && e in t
    requires s.when == t[e].when && s.interval == t[e].interval && s.closure == t[e].closure
             && s.finalizing == t[e].finalizing
    requires s.finalizing ==> (s.timeout ==> t[e].timeout) && (s.inserted ==> t[e].inserted)
    requires e in timers ==> (s.inserted ==> t[e].inserted) && (s.later ==> t[e].later)
    ensures Sound(timers, n, t[e := s])
  {
    hide Timeval.WellFormed, Timeval.Tag, Timeval.Plain;
    assert forall i | 0 <= i < |timers| && timers[i] == e :: e in timers;
  }

  /** The structures of a base, and their counters. */
  datatype Shape = Shape(heap: set<Event>, lists: seq<seq<Event>>, timers: seq<Event>, queues: seq<seq<Event>>,
                         later: seq<Event>, count: int, countActive: int, nactivequeues: nat)

  /** Flags, structures and counters agree. */
  ghost predicate Agree(b: Shape, t: Table) {
    && TimersOk(b.heap, b.lists, t)
    && ActiveOk(b.queues, b.later, t) && |b.queues| == b.nactivequeues > 0
    && b.count == FlagCount(t)
    && b.countActive == Total(b.queues) + |b.later|
    && Sound(b.timers, |b.lists|, t)
  }

  /** The amount DECR_EVENT_COUNT and INCR_EVENT_COUNT use. */
  function Counted(ev: Event): nat {
    One(!ev.internal)
  }

  /** A pending timeout is common if and only if it is not plain. */
  lemma ListsOfTimeout(heap: set<Event>, lists: seq<seq<Event>>, t: Table, e: Event)
    requires TimersOk(heap, lists, t) && e in t && t[e].timeout
    ensures t[e].when.IsCommon(|lists|) <==> !t[e].when.Plain()
    ensures t[e].when.IsCommon(|lists|) ==> t[e].when.Index() < |lists|
  {
    assert Placed(e, t[e], heap, lists);
    NotCommon(t[e].when, |lists|);
  }

  /** The structures without the pending timeout of `e`. */
  ghost function TimeoutOut(b: Shape, t: Table, e: Event): Shape
    requires e in t
  {
    var i := t[e].when.Index();
    if t[e].when.Plain() || i >= |b.lists| then b.(heap := b.heap - {e}, count := b.count - Counted(e))
    else b.(lists := b.lists[i := Without(b.lists[i], e)], count := b.count - Counted(e))
  }

  lemma TimeoutGone(b: Shape, t: Table, e: Event)
    requires Agree(b, t) && e in t && t[e].timeout
    ensures Agree(TimeoutOut(b, t, e), t[e := t[e].(timeout := false)])
    ensures t[e].when.IsCommon(|b.lists|) <==> !t[e].when.Plain()
    ensures t[e].when.IsCommon(|b.lists|) ==> t[e].when.Index() < |b.lists|
  {
    hide TimersOk, ActiveOk, Sound, FlagCount, Without, Timeval.IsCommon, Timeval.Index, Timeval.Plain, Total;
    var s := t[e].(timeout := false);
    FlagCountChange(t, e, s);
    ActiveSame(b.queues, b.later, t, e, s);
    SoundFlags(b.timers, |b.lists|, t, e, s);
    ListsOfTimeout(b.heap, b.lists, t, e);
    if t[e].when.Plain() {
      HeapOut(b.heap, b.lists, t, e);
    } else {
      ListOut(b.heap, b.lists, t, e, t[e].when.Index());
    }
  }

  lemma TimeoutNew(b: Shape, t: Table, e: Event)
    requires Agree(b, t) && e in t && !t[e].timeout && !t[e].finalizing && t[e].when.Plain()
    ensures Agree(b.(heap := b.heap + {e}, count := b.count + Counted(e)), t[e := t[e].(timeout := true)])
  {
    hide TimersOk, ActiveOk, Sound, FlagCount, Timeval.IsCommon, Timeval.Index, Timeval.Plain, Total;
    var s := t[e].(timeout := true);
    FlagCountChange(t, e, s);
    ActiveSame(b.queues, b.later, t, e, s);
    SoundFlags(b.timers, |b.lists|, t, e, s);
    HeapIn(b.heap, b.lists, t, e, s);
  }

  lemma TimeoutNewCommon(b: Shape, t: Table, e: Event, i: nat, k: nat)
    requires Agree(b, t) && e in t && !t[e].timeout && !t[e].finalizing && !t[e].when.Plain()
    requires i == t[e].when.Index() < |b.lists| && k <= |b.lists[i]|
    requires forall j | 0 <= j < k :: b.lists[i][j] in t && t[b.lists[i][j]].when.Us() <= t[e].when.Us()
    requires forall j | k <= j < |b.lists[i]| :: b.lists[i][j] in t && t[e].when.Us() <= t[b.lists[i][j]].when.Us()
    ensures Agree(b.(lists := b.lists[i := b.lists[i][..k] + [e] + b.lists[i][k..]], count := b.count + Counted(e)),
                  t[e := t[e].(timeout := true)])
  {
    hide TimersOk, ActiveOk, FlagCount, Timeval.IsCommon, Timeval.Index, Timeval.Plain, Total, Timeval.Us, TimersKnown;
    var s := t[e].(timeout := true);
    assert t[e].when.WellFormed(|b.lists|);
    FlagCountChange(t, e, s);
    ActiveSame(b.queues, b.later, t, e, s);
    SoundFlags(b.timers, |b.lists|, t, e, s);
    ListIn(b.heap, b.lists, t, e, s, i, k);
  }

  lemma ActiveGone(b: Shape, t: Table, e: Event)
    requires Agree(b, t) && e in t && t[e].active
    ensures e.pri < |b.queues|
    ensures Agree(b.(queues := b.queues[e.pri := Without(b.queues[e.pri], e)], count := b.count - Counted(e),
                     countActive := b.countActive - 1), t[e := t[e].(active := false)])
  {
    hide TimersOk, ActiveOk, Sound, FlagCount, Without, Total;
    var s := t[e].(active := false);
    FlagCountChange(t, e, s);
    TimersSame(b.heap, b.lists, t, e, s);
    SoundFlags(b.timers, |b.lists|, t, e, s);
    ActiveOut(b.queues, b.later, t, e);
  }

  lemma ActiveNew(b: Shape, t: Table, e: Event)
    requires Agree(b, t) && e in t && !t[e].active && !t[e].later
    ensures e.pri < |b.queues|
    ensures Agree(b.(queues := b.queues[e.pri := b.queues[e.pri] + [e]], count := b.count + Counted(e),
                     countActive := b.countActive + 1), t[e := t[e].(active := true)])
  {
    hide TimersOk, ActiveOk, Sound, FlagCount, Total;
    var s := t[e].(active := true);
    FlagCountChange(t, e, s);
    TimersSame(b.heap, b.lists, t, e, s);
    SoundFlags(b.timers, |b.lists|, t, e, s);
    ActiveIn(b.queues, b.later, t, e);
  }

  lemma LaterGone(b: Shape, t: Table, e: Event)
    requires Agree(b, t) && e in t && t[e].later
    ensures Agree(b.(later := Without(b.later, e), count := b.count - Counted(e), countActive := b.countActive - 1),
                  t[e := t[e].(later := false)])
  {
    hide TimersOk, ActiveOk, Sound, FlagCount, Total, Without;
    var s := t[e].(later := false);
    FlagCountChange(t, e, s);
    TimersSame(b.heap, b.lists, t, e, s);
    SoundFlags(b.timers, |b.lists|, t, e, s);
    LaterOut(b.queues, b.later, t, e);
  }

  lemma LaterNew(b: Shape, t: Table, e: Event)
    requires Agree(b, t) && e in t && !t[e].active && !t[e].later && e !in b.timers
    ensures Agree(b.(later := b.later + [e], count := b.count + Counted(e), countActive := b.countActive + 1),
                  t[e := t[e].(later := true)])
  {
    hide TimersOk, ActiveOk, Sound, FlagCount, Total;
    var s := t[e].(later := true);
    FlagCountChange(t, e, s);
    TimersSame(b.heap, b.lists, t, e, s);
    SoundFlags(b.timers, |b.lists|, t, e, s);
    LaterIn(b.queues, b.later, t, e);
  }

  /** The first callback put off becomes active; neither counter changes. */
  lemma LaterFirst(b: Shape, t: Table)
    requires Agree(b, t) && b.later != []
    ensures
      var e := b.later[0];
      && e in t && e.pri < |b.queues| && t[e].later && !t[e].active
      && Agree(b.(later := b.later[1..], queues := b.queues[e.pri := b.queues[e.pri] + [e]]),
               t[e := t[e].(later := false, active := true)])
  {
    hide TimersOk, ActiveOk, Sound, FlagCount, Total;
    var e := b.later[0];
    LaterToActive(b.queues, b.later, t);
    var s := t[e].(later := false, active := true);
    FlagCountChange(t, e, s);
    TimersSame(b.heap, b.lists, t, e, s);
    SoundFlags(b.timers, |b.lists|, t, e, s);
  }

  lemma InsertedChanged(b: Shape, t: Table, e: Event, on: bool)
    requires Agree(b, t) && e in t && t[e].inserted != on && (on ==> !t[e].finalizing && e !in b.timers)
    ensures Agree(b.(count := if on then b.count + Counted(e) else b.count - Counted(e)), t[e := t[e].(inserted := on)])
  {
    hide TimersOk, ActiveOk, Sound, FlagCount, Total;
    var s := t[e].(inserted := on);
    FlagCountChange(t, e, s);
    TimersSame(b.heap, b.lists, t, e, s);
    ActiveSame(b.queues, b.later, t, e, s);
    SoundFlags(b.timers, |b.lists|, t, e, s);
  }

  /** The times, the closure and the finalizing flag of an event without a timeout may change. */
  lemma DetailsChanged(b: Shape, t: Table, e: Event, s: EvState)
    requires Agree(b, t) && e in t && !t[e].timeout
    requires s.inserted == t[e].inserted && s.timeout == t[e].timeout && s.active == t[e].active
             && s.later == t[e].later
    requires s.when.WellFormed(|b.lists|) && (s.finalizing ==> !s.inserted)
    requires s.interval != ZERO ==> s.interval.WellFormed(|b.lists|) && s.interval.Tag() == s.when.Tag()
    requires s.closure != Persistent && !s.finalizing ==> s.interval == ZERO
    requires s.closure == Persistent ==> e.isEvent && e.persist
    requires e in b.timers ==> !s.finalizing && s.when.Plain() && s.closure == Once
    ensures Agree(b, t[e := s])
  {
    hide TimersOk, ActiveOk, FlagCount, Total, Timeval.WellFormed, Timeval.Tag, Timeval.Plain;
    FlagCountChange(t, e, s);
    TimersSame(b.heap, b.lists, t, e, s);
    ActiveSame(b.queues, b.later, t, e, s);
    assert forall i | 0 <= i < |b.timers| && b.timers[i] == e :: e in b.timers;
  }

  // ----- Waking up, operation by operation -----

  /** A change of `e` that does not move its deadline; if it is a timer, it may be excused. */
  lemma WakesChanged(b: Shape, t: Table, e: Event, s: EvState, excused: set<Event>)
    requires Agree(b, t) && e in t && WakesBut(b.timers, b.lists, t, excused)
    requires t[e].timeout ==> s.when == t[e].when
    requires e in excused || e !in b.timers || ((t[e].active ==> s.active) && (t[e].timeout ==> s.timeout))
    ensures WakesBut(b.timers, b.lists, t[e := s], excused)
  {
    hide Timeval.Us, ActiveOk, FlagCount, Total, FinalOk, IntervalsOk;
    var t' := t[e := s];
    forall i {:trigger b.timers[i]} | 0 <= i < |b.timers| && b.timers[i] !in excused
      ensures b.timers[i] in t && (t[b.timers[i]].active ==> t'[b.timers[i]].active)
      ensures t[b.timers[i]].timeout ==> t'[b.timers[i]].timeout && t'[b.timers[i]].when == t[b.timers[i]].when
    {
      assert b.timers[i] in b.timers;
    }
    forall i {:trigger b.lists[i]} | 0 <= i < |b.lists| && b.timers[i] !in excused && b.lists[i] != []
      ensures b.lists[i][0] in t && t'[b.lists[i][0]].when == t[b.lists[i][0]].when
    {
      assert ListOk(b.lists[i], i, |b.lists|, t);
      assert b.lists[i][0] in b.lists[i];
    }
    WakesKept(b.timers, b.lists, t, b.lists, t', excused);
  }

  /** A pending timeout that is removed makes no deadline earlier. */
  lemma WakesTimeoutOut(b: Shape, t: Table, e: Event, excused: set<Event>)
    requires Agree(b, t) && e in t && t[e].timeout && WakesBut(b.timers, b.lists, t, excused)
             && (e in excused || e !in b.timers)
    ensures WakesBut(b.timers, TimeoutOut(b, t, e).lists, t[e := t[e].(timeout := false)], excused)
  {
    hide Timeval.Us, Timeval.Plain, Timeval.Index, ActiveOk, FlagCount, Total, FinalOk, IntervalsOk, Without;
    var s := t[e].(timeout := false);
    WakesChanged(b, t, e, s, excused);
    ListsOfTimeout(b.heap, b.lists, t, e);
    var i := t[e].when.Index();
    if !t[e].when.Plain() {
      HeadWithout(b, t, e, i);
      var lists' := b.lists[i := Without(b.lists[i], e)];
      var t' := t[e := s];
      forall k {:trigger lists'[k]} | 0 <= k < |lists'| && b.timers[k] !in excused && lists'[k] != []
        && lists'[k][0] in t'
        ensures b.lists[k] != [] && b.lists[k][0] in t' && t'[b.lists[k][0]].when.Us() <= t'[lists'[k][0]].when.Us()
      {
        if k != i {
          assert ListOk(b.lists[k], k, |b.lists|, t);
          assert b.lists[k][0] in b.lists[k];
        }
      }
      assert forall k {:trigger b.timers[k]} | 0 <= k < |b.timers| && b.timers[k] !in excused :: b.timers[k] in t';
      WakesKept(b.timers, b.lists, t', lists', t', excused);
    }
  }

  lemma HeadWithout(b: Shape, t: Table, e: Event, i: nat)
    requires Agree(b, t) && i < |b.lists| && e in b.lists[i]
    ensures
      var l := b.lists[i];
      var w := Without(l, e);
      w != [] ==> l != [] && l[0] in t && w[0] in t && t[l[0]].when.Us() <= t[w[0]].when.Us()
  {
    hide Timeval.Us, Timeval.IsCommon, Timeval.Index;
    var l := b.lists[i];
    assert ListOk(l, i, |b.lists|, t);
    WithoutFacts(l, e);
    assert l[0] in l;
    if l[0] == e && |l| > 1 {
      assert l[1] in l;
    }
  }

  /** A new pending timeout in the heap. */
  lemma WakesTimeoutNew(b: Shape, t: Table, e: Event, excused: set<Event>)
    requires Agree(b, t) && e in t && !t[e].timeout && WakesBut(b.timers, b.lists, t, excused)
    ensures WakesBut(b.timers, b.lists, t[e := t[e].(timeout := true)], excused)
  {
    WakesChanged(b, t, e, t[e].(timeout := true), excused);
  }

  /** A new pending timeout in a list: if it is the first one there, the timer may be too late. */
  lemma WakesListNew(b: Shape, t: Table, e: Event, i: nat, k: nat, excused: set<Event>)
    requires Agree(b, t) && e in t && !t[e].timeout && WakesBut(b.timers, b.lists, t, excused)
    requires i < |b.lists| && k <= |b.lists[i]|
    ensures |b.timers| == |b.lists|
    ensures WakesBut(b.timers, b.lists[i := b.lists[i][..k] + [e] + b.lists[i][k..]], t[e := t[e].(timeout := true)],
                     if k == 0 then excused + {b.timers[i]} else excused)
  {
    hide Timeval.Us, Timeval.Plain, Timeval.Index, Timeval.IsCommon, ActiveOk, FlagCount, Total, FinalOk, IntervalsOk,
         TimersKnown;
    var s := t[e].(timeout := true);
    WakesChanged(b, t, e, s, excused);
    var t', l := t[e := s], b.lists[i];
    var lists' := b.lists[i := l[..k] + [e] + l[k..]];
    var excused' := if k == 0 then excused + {b.timers[i]} else excused;
    forall j {:trigger lists'[j]} | 0 <= j < |lists'| && b.timers[j] !in excused' && lists'[j] != []
      ensures b.lists[j] != [] && b.lists[j][0] in t' && lists'[j][0] == b.lists[j][0]
    {
      assert ListOk(b.lists[j], j, |b.lists|, t);
      if b.lists[j] != [] {
        assert b.lists[j][0] in b.lists[j];
      }
    }
    assert WakesBut(b.timers, b.lists, t', excused');
    assert forall j {:trigger b.timers[j]} | 0 <= j < |b.timers| && b.timers[j] !in excused' :: b.timers[j] in t' by {
      assert forall j {:trigger b.timers[j]} | 0 <= j < |b.timers| && b.timers[j] !in excused' ::
          Wakes(b.timers[j], b.lists[j], t');
    }
    WakesKept(b.timers, b.lists, t', lists', t', excused');
  }

  /** Before and behind its place, the deadlines in a list compare as they should. */
  lemma ListDeadlines(b: Shape, t: Table, e: Event, i: nat)
    requires Agree(b, t) && e in t && t[e].when.WellFormed(|b.lists|) && !t[e].when.Plain() && i == t[e].when.Index()
    ensures i < |b.lists|
    ensures forall j | 0 <= j < |b.lists[i]| ::
              && b.lists[i][j] in t
              && (AtMost(t[b.lists[i][j]].when, t[e].when) <==> t[b.lists[i][j]].when.Us() <= t[e].when.Us())
    ensures forall j, k | 0 <= j < k < |b.lists[i]| :: t[b.lists[i][j]].when.Us() <= t[b.lists[i][k]].when.Us()
  {
    hide Timeval.Us, ActiveOk, FlagCount, Total, FinalOk, TimersKnown, AtMost;
    var l := b.lists[i];
    assert ListOk(l, i, |b.lists|, t);
    forall j | 0 <= j < |l|
      ensures l[j] in t && (AtMost(t[l[j]].when, t[e].when) <==> t[l[j]].when.Us() <= t[e].when.Us())
    {
      assert l[j] in l;
      SameList(t[l[j]].when, t[e].when, |b.lists|);
      Ordered(t[l[j]].when, t[e].when);
    }
  }

  lemma Unexcuse(timers: seq<Event>, lists: seq<seq<Event>>, t: Table, excused: set<Event>, e: Event)
    requires WakesBut(timers, lists, t, excused)
    requires forall i {:trigger timers[i]} | 0 <= i < |timers| && timers[i] == e :: Wakes(e, lists[i], t)
    ensures WakesBut(timers, lists, t, excused - {e})
  {
  }

  // ----- New events and new common timeouts -----

  /** An event that has just been assigned. */
  ghost predicate Unused(s: EvState) {
    !s.inserted && !s.timeout && !s.active && !s.later && !s.finalizing && s.when == ZERO && s.interval == ZERO
  }

  lemma TableGrows(b: Shape, t: Table, e: Event, s: EvState)
    requires Agree(b, t) && e !in t && Unused(s) && e.pri < |b.queues| && e.callback.User?
    requires s.closure == Persistent ==> e.isEvent && e.persist
    ensures Agree(b, t[e := s])
  {
    hide Timeval.IsCommon, Timeval.Index, Timeval.Us, Timeval.Tag, Total;
    var u := t[e := s];
    assert WithInserted(u) == WithInserted(t) && WithTimeout(u) == WithTimeout(t);
    assert WithActive(u) == WithActive(t) && WithLater(u) == WithLater(t);
    PlainWellFormed(ZERO, |b.lists|);
    forall i {:trigger b.lists[i]} | 0 <= i < |b.lists| ensures ListOk(b.lists[i], i, |b.lists|, u) {
      assert ListOk(b.lists[i], i, |b.lists|, t);
    }
    forall i {:trigger b.timers[i]} | 0 <= i < |b.timers| ensures IsTimer(b.timers[i], i, u) {
      assert IsTimer(b.timers[i], i, t);
    }
  }

  lemma MoreCommon(a: Timeval, n: nat)
    ensures a.IsCommon(n) ==> a.IsCommon(n + 1)
    ensures a.WellFormed(n) ==> a.WellFormed(n + 1)
  {
  }

  /** One more list, which is empty. */
  lemma TimersGrow(heap: set<Event>, lists: seq<seq<Event>>, t: Table, timer: Event, s: EvState)
    requires TimersOk(heap, lists, t) && timer !in t && Unused(s)
    ensures TimersOk(heap, lists + [[]], t[timer := s])
  {
    hide Timeval.IsCommon, Timeval.Index, Timeval.Us, Timeval.Tag, Timeval.WellFormed, Timeval.Plain;
    var u, n, lists' := t[timer := s], |lists|, lists + [[]];
    ZeroPlain(n + 1);
    forall i {:trigger lists'[i]} | 0 <= i < |lists'| ensures ListOk(lists'[i], i, n + 1, u) {
      if i < n {
        assert ListOk(lists[i], i, n, t);
        forall e | e in lists[i] ensures u[e].when.IsCommon(n + 1) {
          MoreCommon(t[e].when, n);
        }
      }
    }
    forall e | e in u ensures Placed(e, u[e], heap, lists') {
      if e in t {
        assert Placed(e, t[e], heap, lists);
        PlacedMore(e, t[e], heap, lists);
      }
    }
  }

  /** A timer is told apart from all others by its list. */
  lemma SoundGrows(timers: seq<Event>, n: nat, t: Table, timer: Event, s: EvState)
    requires Sound(timers, n, t) && timer !in t && Unused(s) && s.closure == Once && n < MAX_COMMON_TIMEOUTS
             && |timers| == n
    requires timer.isEvent && timer.internal && !timer.hasSource && !timer.persist && timer.callback == CommonTimeout(n)
    ensures Sound(timers + [timer], n + 1, t[timer := s])
  {
    hide Timeval.IsCommon, Timeval.Index, Timeval.Us, Timeval.Tag, Timeval.WellFormed, Timeval.Plain;
    var u, timers' := t[timer := s], timers + [timer];
    ZeroPlain(n + 1);
    forall e | e in t ensures t[e].when.WellFormed(n + 1) {
      MoreCommon(t[e].when, n);
    }
    forall e | e in t && t[e].interval != ZERO ensures t[e].interval.WellFormed(n + 1) {
      MoreCommon(t[e].interval, n);
    }
    forall i {:trigger timers'[i]} | 0 <= i < |timers'| ensures IsTimer(timers'[i], i, u) {
      if i < n {
        assert IsTimer(timers[i], i, t);
      }
    }
  }

  lemma WakesGrow(timers: seq<Event>, lists: seq<seq<Event>>, t: Table, timer: Event, s: EvState)
    requires WakesBut(timers, lists, t, {}) && timer !in t && |timers| == |lists|
    requires forall i | 0 <= i < |timers| :: timers[i] in t
    requires forall i, e | 0 <= i < |lists| && e in lists[i] :: e in t
    ensures WakesBut(timers + [timer], lists + [[]], t[timer := s], {})
  {
    hide Timeval.IsCommon, Timeval.Index, Timeval.Us, Timeval.Tag, Timeval.WellFormed, Timeval.Plain;
    var u, lists', timers' := t[timer := s], lists + [[]], timers + [timer];
    forall i {:trigger lists'[i]} {:trigger timers'[i]} | 0 <= i < |lists'| ensures Wakes(timers'[i], lists'[i], u) {
      if i < |lists| {
        assert Wakes(timers[i], lists[i], t);
      }
    }
  }

  /** One more list, with its timer. */
  lemma ListsGrow(b: Shape, t: Table, timer: Event, s: EvState)
    requires Agree(b, t) && timer !in t && Unused(s) && s.closure == Once && timer.pri < |b.queues|
             && |b.lists| < MAX_COMMON_TIMEOUTS
    requires timer.isEvent && timer.internal && !timer.hasSource && !timer.persist
             && timer.callback == CommonTimeout(|b.lists|)
    ensures Agree(b.(lists := b.lists + [[]], timers := b.timers + [timer]), t[timer := s])
    ensures WakesBut(b.timers, b.lists, t, {}) ==> WakesBut(b.timers + [timer], b.lists + [[]], t[timer := s], {})
  {
    hide WakesBut, Timeval.IsCommon, Timeval.Index, Timeval.Us, Timeval.Tag, Total, Timeval.WellFormed, Timeval.Plain;
    var u, n := t[timer := s], |b.lists|;
    assert WithInserted(u) == WithInserted(t) && WithTimeout(u) == WithTimeout(t);
    assert WithActive(u) == WithActive(t) && WithLater(u) == WithLater(t);
    TimersGrow(b.heap, b.lists, t, timer, s);
    SoundGrows(b.timers, n, t, timer, s);
    forall i | 0 <= i < |b.timers| ensures b.timers[i] in t {
      assert IsTimer(b.timers[i], i, t);
    }
    forall i, e | 0 <= i < |b.lists| && e in b.lists[i] ensures e in t {
      assert ListOk(b.lists[i], i, n, t);
    }
    if WakesBut(b.timers, b.lists, t, {}) {
      WakesGrow(b.timers, b.lists, t, timer, s);
    }
  }

  lemma PlacedMore(e: Event, s: EvState, heap: set<Event>, lists: seq<seq<Event>>)
    requires Placed(e, s, heap, lists)
    ensures Placed(e, s, heap, lists + [[]])
  {
    MoreCommon(s.when, |lists|);
  }

  lemma ZeroPlain(n: nat)
    ensures ZERO.Plain() && ZERO.WellFormed(n)
  {
  }
}
