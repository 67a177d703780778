/** Gathering changes and making them at once come to the same. */
module EvmapRuns {
  import opened Options
  import opened EpollTable
  import opened Evmap

  datatype Act = AddEvent(ev: Ev) | DelEvent(ev: Ev) | Dispatching | Closing(fd: int)

  ghost function On(t: map<int, seq<Ev>>, fd: int): seq<Ev> {
    if fd in t then t[fd] else []
  }

  /** Events are added once, and only events that have been added are deleted. */
  ghost predicate Allowed(a: Act, t: map<int, seq<Ev>>, edge: int -> bool) {
    match a
    case AddEvent(ev) => ev.edge == edge(ev.fd) && ev.fd <= INT_MAX && ev !in On(t, ev.fd)
    case DelEvent(ev) => ev.fd >= 0 ==> ev in On(t, ev.fd)
    case Dispatching => true
    case Closing(_) => true
  }

  /** What the act does to the events on each descriptor. */
  ghost function After(a: Act, t: map<int, seq<Ev>>): map<int, seq<Ev>> {
    match a
    case AddEvent(ev) =>
      if ev.fd < 0 || Refuses(ev, On(t, ev.fd)) then t else t[ev.fd := [ev] + On(t, ev.fd)]
    case DelEvent(ev) =>
      if ev.fd < 0 then t else t[ev.fd := Without(On(t, ev.fd), ev)]
    case Dispatching => t
    case Closing(_) => t
  }

  /** The descriptors that are closed during a run. */
  ghost function Closed(acts: seq<Act>): set<int>
    decreases |acts|
  {
    if acts == [] then {} else
      Closed(acts[..|acts| - 1]) + (if acts[|acts| - 1].Closing? then {acts[|acts| - 1].fd} else {})
  }

  /** Nothing but additions and deletions. */
  ghost predicate EventsOnly(acts: seq<Act>) {
    forall i | 0 <= i < |acts| :: acts[i].AddEvent? || acts[i].DelEvent?
  }

  ghost function AfterAll(acts: seq<Act>, t: map<int, seq<Ev>>): map<int, seq<Ev>>
    decreases |acts|
  {
    if acts == [] then t else After(acts[|acts| - 1], AfterAll(acts[..|acts| - 1], t))
  }

  ghost predicate AllAllowed(acts: seq<Act>, t: map<int, seq<Ev>>, edge: int -> bool)
    decreases |acts|
  {
    acts != [] ==>
      && AllAllowed(acts[..|acts| - 1], t, edge)
      && Allowed(acts[|acts| - 1], AfterAll(acts[..|acts| - 1], t), edge)
  }

  /** The events in the base are those in the table. */
  ghost predicate Holds(base: IoBase, t: map<int, seq<Ev>>)
    reads base
  {
    (forall fd {:trigger base.Events(fd)} :: base.Events(fd) == On(t, fd)) && forall fd | fd in t :: fd >= 0
  }

  method Perform(base: IoBase, a: Act, ghost t: map<int, seq<Ev>>)
    requires base.InStep() && Holds(base, t) && Allowed(a, t, base.edge)
    modifies base`entries, base`changes, base`changesSize, base`committed, base`forgotten, base.kernel
    ensures base.InStep() && Holds(base, After(a, t))
    ensures base.forgotten <= old(base.forgotten) + if a.Closing? then {a.fd} else {}
    ensures base.batched && (a.AddEvent? || a.DelEvent?) ==>
              base.kernel.interests == old(base.kernel.interests) && base.forgotten == old(base.forgotten)
  {
    hide Consistent, Without, Refuses, IoBase.KernelAgrees;
    match a {
      case AddEvent(ev) =>
        assert base.Events(ev.fd) == On(t, ev.fd);
        var r := base.IoAdd(ev);
        assert r == -1 <==> Refuses(ev, On(t, ev.fd));
        NegativeAccepted(ev, On(t, ev.fd));
        forall fd {:trigger base.Events(fd)} ensures base.Events(fd) == On(After(a, t), fd) {
          assert old(base.Events(fd)) == On(t, fd);
        }
      case DelEvent(ev) =>
        assert base.Events(ev.fd) == On(t, ev.fd);
        NoneWithout(ev);
        var r := base.IoDel(ev);
        forall fd {:trigger base.Events(fd)} ensures base.Events(fd) == On(After(a, t), fd) {
          assert old(base.Events(fd)) == On(t, fd);
        }
      case Dispatching =>
        var r := base.Dispatch();
        forall fd {:trigger base.Events(fd)} ensures base.Events(fd) == On(t, fd) {
          assert old(base.Events(fd)) == On(t, fd);
        }
      case Closing(fd) =>
        base.CloseFd(fd);
        forall fd {:trigger base.Events(fd)} ensures base.Events(fd) == On(t, fd) {
          assert old(base.Events(fd)) == On(t, fd);
        }
    }
  }

  lemma NegativeAccepted(ev: Ev, es: seq<Ev>)
    ensures ev.fd < 0 ==> !Refuses(ev, es)
  {
  }

  lemma NoneWithout(ev: Ev)
    ensures Without([], ev) == []
  {
  }

  /** Any run: only descriptors that have been closed are forgotten by the kernel. */
  method PerformAll(base: IoBase, acts: seq<Act>, ghost t: map<int, seq<Ev>>)
    requires base.InStep() && Holds(base, t) && AllAllowed(acts, t, base.edge)
    modifies base`entries, base`changes, base`changesSize, base`committed, base`forgotten, base.kernel
    ensures base.InStep() && Holds(base, AfterAll(acts, t)) && base.forgotten <= old(base.forgotten) + Closed(acts)
    ensures base.batched && EventsOnly(acts) ==>
              base.kernel.interests == old(base.kernel.interests) && base.forgotten == old(base.forgotten)
    decreases |acts|
  {
    hide Consistent, Without, Refuses, IoBase.KernelAgrees, Holds, After, Allowed;
    if acts != [] {
      assert EventsOnly(acts) ==> EventsOnly(acts[..|acts| - 1]);
      PerformAll(base, acts[..|acts| - 1], t);
      Perform(base, acts[|acts| - 1], AfterAll(acts[..|acts| - 1], t));
    }
  }

  /** Without a list of changes, the kernel is always up to date. */
  lemma UpToDate(base: IoBase)
    requires base.InStep() && !base.batched
    ensures forall fd {:trigger base.WantedOf(fd)} ::
              if fd in base.forgotten then fd !in base.kernel.interests
              else Agrees(base.kernel.interests, fd, base.WantedOf(fd), base.edge(fd))
  {
    forall fd {:trigger base.WantedOf(fd)}
      ensures if fd in base.forgotten then fd !in base.kernel.interests
              else Agrees(base.kernel.interests, fd, base.WantedOf(fd), base.edge(fd))
    {
      var io := IoAt(base.entries, fd);
      assert Fine(io, fd, base.changes, Was(base.committed, fd), base.edge(fd));
      KindsAreUnion(io);
      assert Was(base.committed, fd) == base.WantedOf(fd);
    }
  }

  /** The kernel watches what the events wait for, except on descriptors it has forgotten. */
  ghost predicate Watches(m: map<int, Interest>, lost: set<int>, t: map<int, seq<Ev>>, edge: int -> bool) {
    forall fd {:trigger On(t, fd)} | fd !in lost :: Agrees(m, fd, Union(On(t, fd)), edge(fd))
  }

  lemma WatchesTable(base: IoBase, t: map<int, seq<Ev>>)
    requires Holds(base, t)
    requires forall fd {:trigger base.WantedOf(fd)} | fd !in base.forgotten ::
               Agrees(base.kernel.interests, fd, base.WantedOf(fd), base.edge(fd))
    ensures Watches(base.kernel.interests, base.forgotten, t, base.edge)
  {
    hide Union, Agrees;
    forall fd {:trigger On(t, fd)} | fd !in base.forgotten
      ensures Agrees(base.kernel.interests, fd, Union(On(t, fd)), base.edge(fd))
    {
      assert base.Events(fd) == On(t, fd);
      assert base.WantedOf(fd) == Union(On(t, fd));
    }
  }

  /** What both kernels watch as they should, both watch the same. */
  lemma SameInterests(m: map<int, Interest>, lostM: set<int>, n: map<int, Interest>, lostN: set<int>,
                      t: map<int, seq<Ev>>, edge: int -> bool)
    requires Watches(m, lostM, t, edge) && Watches(n, lostN, t, edge)
    ensures m - (lostM + lostN) == n - (lostM + lostN)
    ensures lostM == {} && lostN == {} ==> m == n
  {
    hide Union, On;
    var lost := lostM + lostN;
    forall fd | fd !in lost ensures fd in m <==> fd in n {
      assert Agrees(m, fd, Union(On(t, fd)), edge(fd)) && Agrees(n, fd, Union(On(t, fd)), edge(fd));
    }
    forall fd | fd in m && fd !in lost ensures m[fd] == n[fd] {
      assert Agrees(m, fd, Union(On(t, fd)), edge(fd)) && Agrees(n, fd, Union(On(t, fd)), edge(fd));
    }
    if lostM == {} && lostN == {} {
      assert lost == {};
    }
  }

  /**
   * The same run on two bases, one that gathers its changes and one that makes each at once: after the
   * former has dispatched once more, both kernels watch the same, which is what the events wait for,
   * except for descriptors that have been closed and not been heard of since.
   */
  method BatchEquivalence(listed: IoBase, direct: IoBase, acts: seq<Act>, ghost t: map<int, seq<Ev>>)
    requires listed.batched && !direct.batched && listed.kernel != direct.kernel && listed.edge == direct.edge
    requires listed.InStep() && direct.InStep() && listed.forgotten == {} && direct.forgotten == {}
    requires Holds(listed, t) && Holds(direct, t) && AllAllowed(acts, t, listed.edge)
    modifies listed, direct, listed.kernel, direct.kernel
    ensures listed.InStep() && direct.InStep() && Holds(listed, AfterAll(acts, t)) && Holds(direct, AfterAll(acts, t))
    ensures listed.forgotten <= Closed(acts) && direct.forgotten <= Closed(acts)
    ensures Watches(listed.kernel.interests, listed.forgotten, AfterAll(acts, t), listed.edge)
    ensures var lost := listed.forgotten + direct.forgotten;
            listed.kernel.interests - lost == direct.kernel.interests - lost
    ensures Closed(acts) == {} ==> listed.kernel.interests == direct.kernel.interests
  {
    hide Consistent, AfterAll, AllAllowed, Union, IoBase.KernelAgrees, Doubled, Closed, Agrees, Watches;
    PerformAll(listed, acts, t);
    PerformAll(direct, acts, t);
    ghost var after := AfterAll(acts, t);
    assert forall fd {:trigger listed.Events(fd)} :: listed.Events(fd) == On(after, fd);
    var r := listed.Dispatch();
    assert Holds(listed, after);
    WatchesTable(listed, after);
    UpToDate(direct);
    WatchesTable(direct, after);
    SameInterests(listed.kernel.interests, listed.forgotten, direct.kernel.interests, direct.forgotten, after,
      listed.edge);
  }
}
