/**
 * Which events wait for which descriptors, the list of changes not yet told to epoll, and what epoll
 * is told in the end.
 */
module Evmap {
  import opened Options
  import opened EpollTable

  const POINTER_SIZE: nat := 8
  const MAX_COUNT: nat := 0xffff

  /** An event that waits for input or output on a descriptor. */
  datatype Ev = Ev(id: nat, fd: int, kinds: set<Kind>, edge: bool)

  /** struct evmap_io, with the list position behind it (idxplus1). */
  datatype EvmapIo = EvmapIo(nread: nat, nwrite: nat, nclose: nat, events: seq<Ev>, idxplus1: nat) {
    function Count(k: Kind): nat {
      match k case Reading => nread case Writing => nwrite case Closing => nclose
    }

    /** The kinds with a count that is not zero. */
    function Kinds(): set<Kind> {
      set k: Kind | Count(k) > 0
    }
  }

  const EMPTY_IO := EvmapIo(0, 0, 0, [], 0)

  ghost function CountOf(es: seq<Ev>, k: Kind): nat {
    if es == [] then 0 else One(k in es[0].kinds) + CountOf(es[1..], k)
  }

  ghost predicate Counted(io: EvmapIo) {
    && (forall k: Kind :: io.Count(k) == CountOf(io.events, k) <= MAX_COUNT)
    && forall i, j | 0 <= i < j < |io.events| :: io.events[i] != io.events[j]
  }

  ghost predicate Awaited(es: seq<Ev>, k: Kind) {
    exists i :: 0 <= i < |es| && k in es[i].kinds
  }

  /** What the events on a descriptor wait for. */
  ghost function Union(es: seq<Ev>): set<Kind> {
    set k: Kind | Awaited(es, k)
  }

  lemma {:induction false} CountPositive(es: seq<Ev>, k: Kind)
    ensures CountOf(es, k) > 0 <==> k in Union(es)
  {
    if es != [] {
      CountPositive(es[1..], k);
      if Awaited(es, k) {
        var i :| 0 <= i < |es| && k in es[i].kinds;
        assert i > 0 ==> es[1..][i - 1] == es[i];
      }
      if Awaited(es[1..], k) {
        var i :| 0 <= i < |es[1..]| && k in es[1..][i].kinds;
        assert es[i + 1] == es[1..][i];
      }
    }
  }

  /** The kinds that are counted are the kinds some event waits for. */
  lemma KindsAreUnion(io: EvmapIo)
    requires Counted(io)
    ensures io.Kinds() == Union(io.events)
  {
    forall k: Kind ensures k in io.Kinds() <==> k in Union(io.events) {
      CountPositive(io.events, k);
    }
  }

  lemma {:induction false} CountWithout(es: seq<Ev>, i: nat, k: Kind)
    requires i < |es|
    ensures CountOf(es[..i] + es[i + 1..], k) + One(k in es[i].kinds) == CountOf(es, k)
  {
    if i == 0 {
      assert es[..0] + es[1..] == es[1..];
    } else {
      CountWithout(es[1..], i - 1, k);
      assert (es[..i] + es[i + 1..])[1..] == es[1..][..i - 1] + es[1..][i..];
    }
  }

  /** The slot of a descriptor; one that does not exist is as good as an empty one. */
  function IoAt(entries: seq<Option<EvmapIo>>, fd: int): EvmapIo {
    if 0 <= fd < |entries| && entries[fd].Some? then entries[fd].value else EMPTY_IO
  }

  ghost function Was(committed: map<int, set<Kind>>, fd: int): set<Kind> {
    if fd in committed then committed[fd] else {}
  }

  /** Changes carry the edge-trigger flag of their descriptor. */
  ghost predicate EdgeOk(c: Change, edge: bool) {
    forall k: Kind {:trigger c.Of(k)} :: c.Of(k).et == (edge && (c.Of(k).add || c.Of(k).del))
  }

  /** The change that is to be made leads from what epoll was last told to what is wanted now. */
  ghost predicate Synced(io: EvmapIo, fd: int, changes: seq<Change>, was: set<Kind>, edge: bool) {
    if io.idxplus1 == 0 then io.Kinds() == was
    else
      && io.idxplus1 <= |changes|
      && var c := changes[io.idxplus1 - 1];
         c.fd == fd && c.oldEvents == was && c.Proper() && c.Meant() == io.Kinds() && EdgeOk(c, edge)
  }

  ghost predicate Fine(io: EvmapIo, fd: int, changes: seq<Change>, was: set<Kind>, edge: bool) {
    && Counted(io) && Synced(io, fd, changes, was, edge)
    && forall i | 0 <= i < |io.events| :: io.events[i].fd == fd && io.events[i].edge == edge
  }

  ghost predicate Consistent(entries: seq<Option<EvmapIo>>, changes: seq<Change>, committed: map<int, set<Kind>>,
                             edge: int -> bool) {
    && (forall fd {:trigger IoAt(entries, fd)} :: Fine(IoAt(entries, fd), fd, changes, Was(committed, fd), edge(fd)))
    && (forall i {:trigger changes[i]} | 0 <= i < |changes| :: IoAt(entries, changes[i].fd).idxplus1 == i + 1)
  }

  /** The kernel watches `kinds`, or has no entry if there are none. */
  ghost predicate Agrees(m: map<int, Interest>, fd: int, kinds: set<Kind>, edge: bool) {
    if kinds == {} then fd !in m else fd in m && m[fd] == Interest(kinds, edge)
  }

  /** The kernel watches what epoll was last told, except for descriptors it has forgotten. */
  ghost predicate AllAgree(m: map<int, Interest>, committed: map<int, set<Kind>>, forgotten: set<int>,
                           edge: int -> bool) {
    forall fd {:trigger fd in m} {:trigger Was(committed, fd)} ::
      if fd in forgotten then fd !in m else Agrees(m, fd, Was(committed, fd), edge(fd))
  }

  /** A change is made at once. */
  lemma WatchedNow(m: map<int, Interest>, committed: map<int, set<Kind>>, forgotten: set<int>, edge: int -> bool,
                   fd: int, kinds: set<Kind>)
    requires AllAgree(m, committed, forgotten, edge)
    ensures AllAgree(Watching(m, fd, kinds, edge(fd)), committed[fd := kinds], forgotten - {fd}, edge)
  {
    var m', committed' := Watching(m, fd, kinds, edge(fd)), committed[fd := kinds];
    forall x ensures if x in forgotten - {fd} then x !in m' else Agrees(m', x, Was(committed', x), edge(x)) {
      if x != fd {
        assert Was(committed', x) == Was(committed, x);
      }
    }
  }

  /** What the change of one descriptor means for the invariant. */
  lemma Updated(entries: seq<Option<EvmapIo>>, entries': seq<Option<EvmapIo>>, changes: seq<Change>,
                changes': seq<Change>, committed: map<int, set<Kind>>, edge: int -> bool, fd: int)
    requires Consistent(entries, changes, committed, edge)
    requires forall x {:trigger IoAt(entries', x)} | x != fd :: IoAt(entries', x) == IoAt(entries, x)
    requires Fine(IoAt(entries', fd), fd, changes', Was(committed, fd), edge(fd))
    requires |changes| <= |changes'|
    requires forall i {:trigger changes'[i]} | 0 <= i < |changes| ::
               if changes[i].fd == fd then changes'[i].fd == fd else changes'[i] == changes[i]
    requires forall i {:trigger changes'[i]} | 0 <= i < |changes'| ::
               if changes'[i].fd == fd then IoAt(entries', fd).idxplus1 == i + 1 else i < |changes|
    ensures Consistent(entries', changes', committed, edge)
  {
    forall x ensures Fine(IoAt(entries', x), x, changes', Was(committed, x), edge(x)) {
      if x != fd {
        assert Fine(IoAt(entries, x), x, changes, Was(committed, x), edge(x));
        var i := IoAt(entries, x).idxplus1;
        if i > 0 {
          assert changes[i - 1].fd == x;
          assert changes'[i - 1] == changes[i - 1];
        }
      }
    }
  }

  function NewChange(fd: int, was: set<Kind>): Change {
    Change(fd, was, NO_CHANGE, NO_CHANGE, NO_CHANGE)
  }

  /** An addition replaces whatever was noted for these kinds. */
  function WithAdd(c: Change, events: set<Kind>, et: bool): Change {
    var m := Mark(true, false, et);
    c.(readChange := if Reading in events then m else c.readChange,
       writeChange := if Writing in events then m else c.writeChange,
       closeChange := if Closing in events then m else c.closeChange)
  }

  /** A deletion replaces whatever was noted, but of what epoll does not know it is no change. */
  function WithDel(c: Change, events: set<Kind>, et: bool): Change {
    var m := Mark(false, true, et);
    c.(readChange := if Reading !in events then c.readChange else if Reading !in c.oldEvents then NO_CHANGE else m,
       writeChange := if Writing !in events then c.writeChange else if Writing !in c.oldEvents then NO_CHANGE else m,
       closeChange := if Closing !in events then c.closeChange else if Closing !in c.oldEvents then NO_CHANGE else m)
  }

  lemma NewMeant(fd: int, was: set<Kind>, edge: bool)
    ensures var c := NewChange(fd, was); c.Proper() && c.Meant() == was && EdgeOk(c, edge)
  {
    var c := NewChange(fd, was);
    assert forall k: Kind :: c.Of(k) == NO_CHANGE;
  }

  lemma AddMeant(c: Change, events: set<Kind>, edge: bool)
    requires c.Proper() && EdgeOk(c, edge)
    ensures
      var d := WithAdd(c, events, edge);
      d.Proper() && d.Meant() == c.Meant() + events && d.oldEvents == c.oldEvents && d.fd == c.fd && EdgeOk(d, edge)
  {
    var d := WithAdd(c, events, edge);
    assert forall k: Kind :: d.Of(k) == if k in events then Mark(true, false, edge) else c.Of(k);
    assert d.Adds() == c.Adds() + events && d.Dels() == c.Dels() - events;
  }

  lemma DelMeant(c: Change, events: set<Kind>, edge: bool)
    requires c.Proper() && EdgeOk(c, edge)
    ensures
      var d := WithDel(c, events, edge);
      d.Proper() && d.Meant() == c.Meant() - events && d.oldEvents == c.oldEvents && d.fd == c.fd && EdgeOk(d, edge)
  {
    var d := WithDel(c, events, edge);
    assert forall k: Kind :: d.Of(k) == (if k !in events then c.Of(k)
                                         else if k !in c.oldEvents then NO_CHANGE else Mark(false, true, edge));
    assert d.Adds() == c.Adds() - events && d.Dels() == (c.Dels() - events) + (events * c.oldEvents);
  }

  /** A size the table of slots can have: 32, doubled any number of times. */
  ghost predicate Doubled(n: nat) {
    n == 32 || (n > 32 && n % 2 == 0 && Doubled(n / 2))
  }

  lemma {:induction false} DoubledGap(n: nat, m: nat)
    requires Doubled(n) && Doubled(m) && n < 2 * m
    ensures n <= m
  {
    if n > 32 && m > 32 {
      DoubledGap(n / 2, m / 2);
    }
  }

  /** Descriptors from here on are refused. */
  const MAX_SLOTS: nat := 0x800_0000

  /** The change noted for a descriptor, and the list it is in. */
  ghost function Noted(io: EvmapIo, fd: int, was: set<Kind>, changes: seq<Change>): (r: (seq<Change>, nat))
    requires io.idxplus1 <= |changes|
    ensures r.1 < |r.0|
  {
    if io.idxplus1 == 0 then (changes + [NewChange(fd, was)], |changes|) else (changes, io.idxplus1 - 1)
  }

  /** A change `c` in place of what is noted so far, and the slot it belongs to. */
  lemma NotedConsistent(entries: seq<Option<EvmapIo>>, changes: seq<Change>, committed: map<int, set<Kind>>,
                        edge: int -> bool, fd: int, c: Change, next: EvmapIo)
    requires Consistent(entries, changes, committed, edge) && 0 <= fd < |entries|
    requires var io := IoAt(entries, fd);
             && io.idxplus1 <= |changes| && c.fd == fd && c.oldEvents == Was(committed, fd)
             && c.Proper() && EdgeOk(c, edge(fd)) && c.Meant() == next.Kinds() && Counted(next)
    requires forall i | 0 <= i < |next.events| :: next.events[i].fd == fd && next.events[i].edge == edge(fd)
    ensures
      var (list, idx) := Noted(IoAt(entries, fd), fd, Was(committed, fd), changes);
      Consistent(entries[fd := Some(next.(idxplus1 := idx + 1))], list[idx := c], committed, edge)
  {
    hide Counted, EvmapIo.Kinds, Change.Adds, Change.Dels, Change.Meant, Change.Proper, EdgeOk, Fine;
    var (list, idx) := Noted(IoAt(entries, fd), fd, Was(committed, fd), changes);
    var io := next.(idxplus1 := idx + 1);
    NotedFine(next, fd, c, list, idx, Was(committed, fd), edge(fd));
    NotedFor(entries, changes, committed, edge, fd);
    forall i {:trigger changes[i]} | 0 <= i < |changes| && changes[i].fd == fd ensures i == idx {
      assert IoAt(entries, changes[i].fd).idxplus1 == i + 1;
    }
    Updated(entries, entries[fd := Some(io)], changes, list[idx := c], committed, edge, fd);
  }

  /** The change a slot points to is one for its descriptor. */
  lemma NotedFor(entries: seq<Option<EvmapIo>>, changes: seq<Change>, committed: map<int, set<Kind>>, edge: int -> bool,
                 fd: int)
    requires Consistent(entries, changes, committed, edge)
    ensures var i := IoAt(entries, fd).idxplus1; i <= |changes| && (i > 0 ==> changes[i - 1].fd == fd)
  {
    assert Fine(IoAt(entries, fd), fd, changes, Was(committed, fd), edge(fd));
  }

  lemma NotedFine(next: EvmapIo, fd: int, c: Change, list: seq<Change>, idx: nat, was: set<Kind>, edge: bool)
    requires idx < |list| && c.fd == fd && c.oldEvents == was && c.Proper() && EdgeOk(c, edge)
             && c.Meant() == next.Kinds()
    requires Counted(next) && forall i | 0 <= i < |next.events| ::
             next.events[i].fd == fd && next.events[i].edge == edge
    ensures Fine(next.(idxplus1 := idx + 1), fd, list[idx := c], was, edge)
  {
    hide Counted, EvmapIo.Kinds, Change.Adds, Change.Dels, Change.Meant, Change.Proper, EdgeOk;
    SameKinds(next, idx + 1);
  }

  /** A slot that changes without changing what is wanted. */
  lemma KeptConsistent(entries: seq<Option<EvmapIo>>, changes: seq<Change>, committed: map<int, set<Kind>>,
                       edge: int -> bool, fd: int, next: EvmapIo)
    requires Consistent(entries, changes, committed, edge) && 0 <= fd < |entries|
    requires var io := IoAt(entries, fd); next.idxplus1 == io.idxplus1 && next.Kinds() == io.Kinds() && Counted(next)
    requires forall i | 0 <= i < |next.events| :: next.events[i].fd == fd && next.events[i].edge == edge(fd)
    ensures Consistent(entries[fd := Some(next)], changes, committed, edge)
  {
    assert Fine(IoAt(entries, fd), fd, changes, Was(committed, fd), edge(fd));
    forall i {:trigger changes[i]} | 0 <= i < |changes| && changes[i].fd == fd ensures next.idxplus1 == i + 1 {
      assert IoAt(entries, changes[i].fd).idxplus1 == i + 1;
    }
    Updated(entries, entries[fd := Some(next)], changes, changes, committed, edge, fd);
  }

  /** Without a list of changes, epoll has been told at once. */
  lemma ToldConsistent(entries: seq<Option<EvmapIo>>, committed: map<int, set<Kind>>, edge: int -> bool, fd: int,
                       next: EvmapIo)
    requires Consistent(entries, [], committed, edge) && 0 <= fd < |entries| && Counted(next) && next.idxplus1 == 0
    requires forall i | 0 <= i < |next.events| :: next.events[i].fd == fd && next.events[i].edge == edge(fd)
    ensures Consistent(entries[fd := Some(next)], [], committed[fd := next.Kinds()], edge)
  {
    var entries', committed' := entries[fd := Some(next)], committed[fd := next.Kinds()];
    forall x ensures Fine(IoAt(entries', x), x, [], Was(committed', x), edge(x)) {
      assert Fine(IoAt(entries, x), x, [], Was(committed, x), edge(x));
    }
  }

  lemma InsertCounted(io: EvmapIo, ev: Ev, next: EvmapIo, res: set<Kind>)
    requires Counted(io) && ev !in io.events && next.events == [ev] + io.events
    requires forall k: Kind :: next.Count(k) == io.Count(k) + One(k in ev.kinds) <= MAX_COUNT
    requires forall k: Kind :: k in res <==> k in ev.kinds && io.Count(k) == 0
    ensures Counted(next) && next.Kinds() == io.Kinds() + res
  {
    assert next.events[1..] == io.events;
  }

  lemma RemoveCounted(io: EvmapIo, i: nat, next: EvmapIo, res: set<Kind>)
    requires Counted(io) && i < |io.events| && next.events == io.events[..i] + io.events[i + 1..]
    requires forall k: Kind :: next.Count(k) + One(k in io.events[i].kinds) == io.Count(k)
    requires forall k: Kind :: k in res <==> k in io.events[i].kinds && next.Count(k) == 0
    ensures Counted(next) && next.Kinds() == io.Kinds() - res && res <= io.Kinds()
  {
    forall k: Kind ensures next.Count(k) == CountOf(next.events, k) <= MAX_COUNT {
      CountWithout(io.events, i, k);
    }
  }

  /** An event in the list is counted. */
  lemma {:induction false} ListedCounted(es: seq<Ev>, i: nat, k: Kind)
    requires i < |es| && k in es[i].kinds
    ensures CountOf(es, k) > 0
  {
    CountWithout(es, i, k);
  }

  lemma DoubledThrice(n: nat)
    requires Doubled(n)
    ensures Doubled(8 * n)
  {
    hide Doubled;
    DoubledOnce(n);
    DoubledOnce(2 * n);
    DoubledOnce(4 * n);
  }

  lemma DoubledOnce(n: nat)
    requires Doubled(n)
    ensures Doubled(2 * n)
  {
  }

  lemma MaxDoubled()
    ensures Doubled(MAX_SLOTS)
  {
    DoubledThrice(0x20);
    DoubledThrice(0x100);
    DoubledThrice(0x800);
    DoubledThrice(0x4000);
    DoubledThrice(0x2_0000);
    DoubledThrice(0x10_0000);
    DoubledThrice(0x80_0000);
  }

  /** The first size from `n` on that has a slot with this number. */
  method SlotsFor(n: nat, slot: nat) returns (m: nat)
    requires Doubled(n) && n <= MAX_SLOTS && slot <= INT_MAX / 2
    ensures Doubled(m) && slot < m && n <= m <= INT_MAX + 1
    ensures slot < MAX_SLOTS <==> m <= MAX_SLOTS
    ensures m > MAX_SLOTS ==> m >= 2 * MAX_SLOTS
  {
    MaxDoubled();
    m := n;
    while m <= slot
      invariant Doubled(m) && n <= m && (m <= MAX_SLOTS || m <= 2 * slot)
      invariant m > MAX_SLOTS ==> slot >= MAX_SLOTS && m >= 2 * MAX_SLOTS
      decreases slot - m
    {
      if m < MAX_SLOTS {
        DoubledGap(2 * m, MAX_SLOTS);
      }
      m := m * 2;
    }
  }

  /** The parts of an event_base that have to do with descriptors, on top of epoll. */
  class IoBase {
    /** Whether changes are gathered in a list (epollops_changelist) or made at once (epollops). */
    const batched: bool
    const kernel: Kernel
    ghost const edge: int -> bool
    var entries: seq<Option<EvmapIo>>
    var changes: seq<Change>
    var changesSize: nat

    /** What epoll was last told, and which descriptors it has lost since. */
    ghost var committed: map<int, set<Kind>>
    ghost var forgotten: set<int>

    constructor (batched: bool, ghost edge: int -> bool)
      ensures InStep() && fresh(kernel) && kernel.interests == map[] && forgotten == {}
      ensures this.batched == batched && this.edge == edge && forall fd :: Events(fd) == []
    {
      this.batched, this.edge := batched, edge;
      entries, changes, changesSize, committed, forgotten := [], [], 0, map[], {};
      kernel := new Kernel();
    }

    /** The events on a descriptor, newest first. */
    ghost function Events(fd: int): seq<Ev>
      reads this
    {
      IoAt(entries, fd).events
    }

    ghost predicate KernelAgrees()
      reads this`committed, this`forgotten, kernel
    {
      AllAgree(kernel.interests, committed, forgotten, edge)
    }

    ghost predicate InStep()
      reads this, kernel
    {
      && Consistent(entries, changes, committed, edge) && |changes| <= changesSize
      && (|entries| > 0 ==> Doubled(|entries|)) && |entries| <= MAX_SLOTS
      && (!batched ==> changes == [])
      && KernelAgrees()
    }

    /** evmap_make_space */
    method MakeSpace(slot: nat) returns (r: int)
      requires slot <= INT_MAX && (|entries| > 0 ==> Doubled(|entries|)) && |entries| <= MAX_SLOTS
      modifies this`entries
      ensures r == if slot < MAX_SLOTS then 0 else -1
      ensures r == 0 ==> slot < |entries|
      ensures (|entries| > 0 ==> Doubled(|entries|)) && |entries| <= MAX_SLOTS
      ensures forall fd {:trigger IoAt(entries, fd)} :: IoAt(entries, fd) == IoAt(old(entries), fd)
    {
      r := 0;
      if |entries| <= slot {
        var n := if |entries| > 0 then |entries| else 32;
        if slot > INT_MAX / 2 {
          return -1;
        }
        n := SlotsFor(n, slot);
        if n > INT_MAX / POINTER_SIZE {
          return -1;
        }
        entries := entries + seq(n - |entries|, _ => None);
      }
    }

    /** event_changelist_get_or_construct */
    method GetOrConstruct(fd: int, oldEvents: set<Kind>) returns (idx: nat)
      requires 0 <= fd < |entries| && entries[fd].Some?
      requires entries[fd].value.idxplus1 <= |changes| <= changesSize
      modifies this`entries, this`changes, this`changesSize
      ensures (changes, idx) == Noted(old(entries[fd].value), fd, oldEvents, old(changes)) && |changes| <= changesSize
      ensures entries == old(entries)[fd := Some(old(entries[fd].value).(idxplus1 := idx + 1))]
    {
      var io := entries[fd].value;
      if io.idxplus1 == 0 {
        if |changes| == changesSize {
          changesSize := if changesSize < 64 then 64 else changesSize * 2;
        }
        idx := |changes|;
        changes := changes + [NewChange(fd, oldEvents)];
        entries := entries[fd := Some(io.(idxplus1 := idx + 1))];
      } else {
        idx := io.idxplus1 - 1;
        assert entries == entries[fd := Some(io.(idxplus1 := idx + 1))];
      }
    }

    /** event_changelist_add_ */
    method ChangelistAdd(fd: int, was: set<Kind>, events: set<Kind>, et: bool)
      requires 0 <= fd < |entries| && entries[fd].Some?
      requires entries[fd].value.idxplus1 <= |changes| <= changesSize
      modifies this`entries, this`changes, this`changesSize
      ensures |changes| <= changesSize
      ensures
        var (list, idx) := Noted(old(entries[fd].value), fd, was, old(changes));
        && changes == list[idx := WithAdd(list[idx], events, et)]
        && entries == old(entries)[fd := Some(old(entries[fd].value).(idxplus1 := idx + 1))]
    {
      var idx := GetOrConstruct(fd, was);
      changes := changes[idx := WithAdd(changes[idx], events, et)];
    }

    /** event_changelist_del_ */
    method ChangelistDel(fd: int, was: set<Kind>, events: set<Kind>, et: bool)
      requires 0 <= fd < |entries| && entries[fd].Some?
      requires entries[fd].value.idxplus1 <= |changes| <= changesSize
      modifies this`entries, this`changes, this`changesSize
      ensures |changes| <= changesSize
      ensures
        var (list, idx) := Noted(old(entries[fd].value), fd, was, old(changes));
        && changes == list[idx := WithDel(list[idx], events, et)]
        && entries == old(entries)[fd := Some(old(entries[fd].value).(idxplus1 := idx + 1))]
    {
      var idx := GetOrConstruct(fd, was);
      changes := changes[idx := WithDel(changes[idx], events, et)];
    }

    /** epoll_nochangelist_add and epoll_nochangelist_del: the change is made at once. */
    method TellNow(fd: int, was: set<Kind>, events: set<Kind>, adding: bool, et: bool) returns (r: int)
      requires events != {} && (adding || events <= was)
      modifies kernel
      ensures r == 0
      ensures kernel.interests == Watching(old(kernel.interests), fd, if adding then was + events else was - events, et)
    {
      var m := Mark(adding, !adding, et);
      var ch := Change(fd, was, if Reading in events then m else NO_CHANGE,
                       if Writing in events then m else NO_CHANGE, if Closing in events then m else NO_CHANGE);
      assert forall k: Kind :: ch.Of(k) == if k in events then m else NO_CHANGE;
      assert ch.Adds() == (if adding then events else {}) && ch.Dels() == (if adding then {} else events);
      assert ch.Meant() == if adding then was + events else was - events;
      assert ch.EdgeTriggered() == et by {
        var k :| k in events;
        assert ch.Of(k).et == et;
      }
      r := ApplyOneChange(kernel, ch);
    }

    /**
     * evsel->add or evsel->del: the kinds `events` are wanted now, or no longer. `next` is what will
     * be put into the slot by the caller.
     */
    method Tell(fd: int, was: set<Kind>, events: set<Kind>, adding: bool, et: bool, ghost next: EvmapIo)
      returns (r: int)
      requires InStep() && 0 <= fd < |entries| && entries[fd].Some? && et == edge(fd)
      requires was == entries[fd].value.Kinds() && events != {} && (adding || events <= was)
      requires Counted(next) && next.Kinds() == if adding then was + events else was - events
      requires forall i | 0 <= i < |next.events| :: next.events[i].fd == fd && next.events[i].edge == edge(fd)
      modifies this`entries, this`changes, this`changesSize, this`committed, this`forgotten, kernel
      ensures r == 0 && |entries| == |old(entries)| && entries[fd].Some?
      ensures var io := old(entries[fd].value);
              entries == old(entries)[fd := Some(io.(idxplus1 := entries[fd].value.idxplus1))]
      ensures Consistent(entries[fd := Some(next.(idxplus1 := entries[fd].value.idxplus1))], changes, committed, edge)
      ensures |changes| <= changesSize && (!batched ==> changes == []) && KernelAgrees()
      ensures batched ==>
                kernel.interests == old(kernel.interests) && committed == old(committed)
                && forgotten == old(forgotten)
      ensures !batched ==> forgotten == old(forgotten) - {fd}
    {
      hide Consistent, Counted, EvmapIo.Kinds;
      ghost var io := entries[fd].value;
      NotedChange(entries, changes, committed, edge, fd);
      if batched {
        NoteChange(fd, was, events, adding, et, next);
        r := 0;
      } else {
        r := MakeChange(fd, was, events, adding, et, next);
        assert entries == entries[fd := Some(io.(idxplus1 := entries[fd].value.idxplus1))];
      }
    }

    /** The change is made at once. */
    method MakeChange(fd: int, was: set<Kind>, events: set<Kind>, adding: bool, et: bool, ghost next: EvmapIo)
      returns (r: int)
      requires Consistent(entries, [], committed, edge) && KernelAgrees()
      requires 0 <= fd < |entries| && et == edge(fd) && events != {} && (adding || events <= was)
      requires Counted(next) && next.Kinds() == if adding then was + events else was - events
      requires forall i | 0 <= i < |next.events| :: next.events[i].fd == fd && next.events[i].edge == edge(fd)
      modifies this`committed, this`forgotten, kernel
      ensures r == 0 && KernelAgrees() && forgotten == old(forgotten) - {fd}
      ensures Consistent(entries[fd := Some(next.(idxplus1 := 0))], [], committed, edge)
    {
      hide Consistent, Counted, EvmapIo.Kinds, AllAgree, Watching;
      WatchedNow(kernel.interests, committed, forgotten, edge, fd, next.Kinds());
      r := TellNow(fd, was, events, adding, et);
      SameKinds(next, 0);
      ToldConsistent(entries, committed, edge, fd, next.(idxplus1 := 0));
      committed := committed[fd := next.Kinds()];
      forgotten := forgotten - {fd};
    }

    /** The change is put into the list. */
    method NoteChange(fd: int, was: set<Kind>, events: set<Kind>, adding: bool, et: bool, ghost next: EvmapIo)
      requires Consistent(entries, changes, committed, edge) && |changes| <= changesSize
      requires 0 <= fd < |entries| && entries[fd].Some? && et == edge(fd) && was == entries[fd].value.Kinds()
      requires Counted(next) && next.Kinds() == if adding then was + events else was - events
      requires forall i | 0 <= i < |next.events| :: next.events[i].fd == fd && next.events[i].edge == edge(fd)
      modifies this`entries, this`changes, this`changesSize
      ensures |entries| == |old(entries)| && entries[fd].Some? && |changes| <= changesSize
      ensures var io := old(entries[fd].value);
              entries == old(entries)[fd := Some(io.(idxplus1 := entries[fd].value.idxplus1))]
      ensures Consistent(entries[fd := Some(next.(idxplus1 := entries[fd].value.idxplus1))], changes, committed, edge)
    {
      hide Consistent, WithAdd, WithDel, Counted, Change.Meant, EdgeOk, Change.Proper;
      ghost var io, entries0, changes0 := entries[fd].value, entries, changes;
      NotedChange(entries, changes, committed, edge, fd);
      ghost var (list, idx) := Noted(io, fd, was, changes);
      ghost var c := if adding then WithAdd(list[idx], events, et) else WithDel(list[idx], events, et);
      AddMeant(list[idx], events, et);
      DelMeant(list[idx], events, et);
      NotedConsistent(entries0, changes0, committed, edge, fd, c, next);
      if adding {
        ChangelistAdd(fd, was, events, et);
      } else {
        ChangelistDel(fd, was, events, et);
      }
      ghost var slot := Some(next.(idxplus1 := idx + 1));
      assert entries[fd := slot] == entries0[fd := slot];
    }

    /** evmap_io_add_ */
    method IoAdd(ev: Ev) returns (r: int)
      requires InStep() && ev.edge == edge(ev.fd) && ev.fd <= INT_MAX && ev !in Events(ev.fd)
      modifies this`entries, this`changes, this`changesSize, this`committed, this`forgotten, kernel
      ensures InStep() && -1 <= r <= 1
      ensures r == -1 <==> Refuses(ev, old(Events(ev.fd)))
      ensures r == 1 <==> ev.fd >= 0 && !Refuses(ev, old(Events(ev.fd))) && !(ev.kinds <= Union(old(Events(ev.fd))))
      ensures forall fd {:trigger Events(fd)} ::
                Events(fd) == if fd == ev.fd >= 0 && r != -1 then [ev] + old(Events(fd)) else old(Events(fd))
      ensures batched ==>
                kernel.interests == old(kernel.interests) && committed == old(committed)
                && forgotten == old(forgotten)
      ensures forgotten <= old(forgotten)
    {
      hide Consistent, Counted, EvmapIo.Kinds, KernelAgrees, CountOf;
      if ev.fd < 0 {
        return 0;
      }
      var fd := ev.fd;
      ghost var es, entries0 := Events(fd), entries;
      SlotFine(entries, changes, committed, edge, fd);
      if fd >= |entries| {
        var made := MakeSpace(fd);
        SameSlots(entries0, entries, changes, committed, edge);
        if made == -1 {
          return -1;
        }
      }
      if entries[fd].None? {
        ghost var entries1 := entries;
        entries := entries[fd := Some(EMPTY_IO)];
        SameSlots(entries1, entries, changes, committed, edge);
      }
      r := AddToSlot(ev);
    }

    /** The end of evmap_io_add_ and evmap_io_del_: the backend is told, and the slot is filled. */
    method FillSlot(fd: int, was: set<Kind>, res: set<Kind>, adding: bool, et: bool, next: EvmapIo) returns (r: int)
      requires InStep() && 0 <= fd < |entries| && entries[fd].Some? && et == edge(fd)
      requires was == entries[fd].value.Kinds() && (adding || res <= was) && next.idxplus1 == entries[fd].value.idxplus1
      requires Counted(next) && next.Kinds() == if adding then was + res else was - res
      requires forall i | 0 <= i < |next.events| :: next.events[i].fd == fd && next.events[i].edge == edge(fd)
      modifies this`entries, this`changes, this`changesSize, this`committed, this`forgotten, kernel
      ensures InStep() && r == if res == {} then 0 else 1
      ensures forall x {:trigger Events(x)} :: Events(x) == if x == fd then next.events else old(Events(x))
      ensures batched ==>
                kernel.interests == old(kernel.interests) && committed == old(committed)
                && forgotten == old(forgotten)
      ensures forgotten <= old(forgotten)
    {
      hide Consistent, Counted, EvmapIo.Kinds, Doubled;
      r := 0;
      if res != {} {
        r := Tell(fd, was, res, adding, et, next);
        r := if r == -1 then -1 else 1;
      } else {
        KeptConsistent(entries, changes, committed, edge, fd, next);
        assert next.(idxplus1 := entries[fd].value.idxplus1) == next;
      }
      entries := entries[fd := Some(next.(idxplus1 := entries[fd].value.idxplus1))];
    }

    /** evmap_io_add_, once there is a slot. */
    method AddToSlot(ev: Ev) returns (r: int)
      requires InStep() && ev.edge == edge(ev.fd) && 0 <= ev.fd < |entries| && entries[ev.fd].Some? && ev.fd < MAX_SLOTS
      requires ev !in Events(ev.fd)
      modifies this`entries, this`changes, this`changesSize, this`committed, this`forgotten, kernel
      ensures InStep() && -1 <= r <= 1
      ensures r == -1 <==> Refuses(ev, old(Events(ev.fd)))
      ensures r == 1 <==> !Refuses(ev, old(Events(ev.fd))) && !(ev.kinds <= Union(old(Events(ev.fd))))
      ensures forall fd {:trigger Events(fd)} ::
                Events(fd) == if fd == ev.fd && r != -1 then [ev] + old(Events(fd)) else old(Events(fd))
      ensures batched ==>
                kernel.interests == old(kernel.interests) && committed == old(committed)
                && forgotten == old(forgotten)
      ensures forgotten <= old(forgotten)
    {
      hide Consistent, KernelAgrees, CountOf;
      var fd := ev.fd;
      var io := entries[fd].value;
      SlotFine(entries, changes, committed, edge, fd);
      var counted, next, res := Count(io, ev);
      if !counted {
        return -1;
      }
      NewKinds(io, ev, res);
      r := FillSlot(fd, io.Kinds(), res, true, ev.edge, next);
    }

    /** evmap_io_del_ */
    method IoDel(ev: Ev) returns (r: int)
      requires InStep() && (0 <= ev.fd < |entries| ==> ev in Events(ev.fd))
      modifies this`entries, this`changes, this`changesSize, this`committed, this`forgotten, kernel
      ensures InStep() && -1 <= r <= 1
      ensures r == -1 <==> ev.fd >= |old(entries)|
      ensures r == 1 <==> ev.fd >= 0 && r != -1 && !(Union(old(Events(ev.fd))) <= Union(Events(ev.fd)))
      ensures forall fd {:trigger Events(fd)} ::
                Events(fd) == if fd == ev.fd then Without(old(Events(fd)), ev) else old(Events(fd))
      ensures batched ==>
                kernel.interests == old(kernel.interests) && committed == old(committed)
                && forgotten == old(forgotten)
      ensures forgotten <= old(forgotten)
    {
      if ev.fd < 0 {
        return 0;
      }
      if ev.fd >= |entries| {
        return -1;
      }
      r := DelFromSlot(ev);
    }

    method DelFromSlot(ev: Ev) returns (r: int)
      requires InStep() && 0 <= ev.fd < |entries| && ev in Events(ev.fd)
      modifies this`entries, this`changes, this`changesSize, this`committed, this`forgotten, kernel
      ensures InStep() && 0 <= r <= 1
      ensures r == 1 <==> !(Union(old(Events(ev.fd))) <= Union(Events(ev.fd)))
      ensures forall fd {:trigger Events(fd)} ::
                Events(fd) == if fd == ev.fd then Without(old(Events(fd)), ev) else old(Events(fd))
      ensures batched ==>
                kernel.interests == old(kernel.interests) && committed == old(committed)
                && forgotten == old(forgotten)
      ensures forgotten <= old(forgotten)
    {
      hide Consistent, KernelAgrees, CountOf, Union, Counted, Without, EvmapIo.Kinds;
      var fd := ev.fd;
      var io := entries[fd].value;
      SlotFine(entries, changes, committed, edge, fd);
      var next, res := Uncount(io, ev);
      assert ev.edge == edge(fd);
      forall i | 0 <= i < |next.events| ensures next.events[i].fd == fd && next.events[i].edge == edge(fd) {
        assert next.events[i] in io.events;
      }
      KindsAreUnion(io);
      KindsAreUnion(next);
      r := FillSlot(fd, io.Kinds(), res, false, ev.edge, next);
    }

    /** What epoll should watch for a descriptor: what some event on it waits for. */
    ghost function WantedOf(fd: int): set<Kind>
      reads this
    {
      Union(Events(fd))
    }

    /** There is an operation to be made for this descriptor. */
    ghost predicate Pending(fd: int)
      reads this
    {
      Operated(changes, |changes|, fd)
    }

    /** epoll_apply_changes */
    method ApplyChanges() returns (r: int)
      requires InStep()
      modifies this`forgotten, kernel
      ensures r == 0
      ensures ToldUpTo(kernel.interests, forgotten, entries, changes, committed, edge, |changes|)
      ensures forall fd :: fd in forgotten <==> fd in old(forgotten) && !Pending(fd)
      ensures forgotten <= old(forgotten)
    {
      hide Consistent, ToldUpTo, Operated, Change.Meant, Change.Proper;
      r := 0;
      var i := 0;
      ToldStart(kernel.interests, forgotten, entries, changes, committed, edge);
      while i < |changes|
        invariant i <= |changes| && r == 0
        invariant ToldUpTo(kernel.interests, forgotten, entries, changes, committed, edge, i)
        invariant forall fd :: fd in forgotten <==> (fd in old(forgotten) && !Operated(changes, i, fd))
        invariant forgotten <= old(forgotten)
      {
        var ch := changes[i];
        ChangeAt(entries, changes, committed, edge, i);
        ToldNext(kernel.interests, forgotten, entries, changes, committed, edge, i);
        OperatedUpTo(changes, i);
        var applied := ApplyOneChange(kernel, ch);
        if applied < 0 {
          r := -1;
        }
        forgotten := ForgottenAfter(forgotten, ch);
        i := i + 1;
      }
    }

    /** event_changelist_remove_all_ */
    method RemoveAll()
      requires Consistent(entries, changes, committed, edge)
      modifies this`entries, this`changes
      ensures changes == [] && |entries| == |old(entries)|
      ensures forall fd {:trigger IoAt(entries, fd)} :: IoAt(entries, fd) == IoAt(old(entries), fd).(idxplus1 := 0)
    {
      hide Fine;
      var i := 0;
      while i < |changes|
        invariant i <= |changes| && |entries| == |old(entries)| && changes == old(changes)
        invariant forall fd {:trigger IoAt(entries, fd)} ::
                    var io := IoAt(old(entries), fd);
                    IoAt(entries, fd) == if 0 < io.idxplus1 <= i then io.(idxplus1 := 0) else io
      {
        var fd := changes[i].fd;
        assert IoAt(old(entries), fd).idxplus1 == i + 1;
        assert IoAt(entries, fd).idxplus1 == i + 1;
        forall x | IoAt(old(entries), x).idxplus1 == i + 1 ensures x == fd {
          ChangeOwner(old(entries), changes, committed, edge, x);
        }
        ghost var before := entries;
        entries := entries[fd := Some(entries[fd].value.(idxplus1 := 0))];
        i := i + 1;
        forall x {:trigger IoAt(entries, x)} ensures x != fd ==> IoAt(entries, x) == IoAt(before, x) {
        }
      }
      forall fd ensures IoAt(old(entries), fd).idxplus1 <= |changes| {
        SlotFine(old(entries), changes, committed, edge, fd);
      }
      changes := [];
    }

    /**
     * What epoll_dispatch does before it waits. Afterwards the kernel watches each descriptor for
     * exactly the kinds that events wait for. Of descriptors the kernel has forgotten, this is true
     * for those with an operation to be made; the others stay forgotten.
     */
    method Dispatch() returns (r: int)
      requires InStep()
      modifies this`entries, this`changes, this`committed, this`forgotten, kernel
      ensures InStep() && r == 0 && changes == []
      ensures forall fd {:trigger Events(fd)} :: Events(fd) == old(Events(fd))
      ensures forall fd {:trigger WantedOf(fd)} ::
                if fd in forgotten then fd !in kernel.interests
                else Agrees(kernel.interests, fd, WantedOf(fd), edge(fd))
      ensures forall fd :: fd in forgotten <==> (fd in old(forgotten) && !old(Pending(fd)))
      ensures forgotten <= old(forgotten)
    {
      hide Consistent, ToldUpTo, Counted, Union, EvmapIo.Kinds, Doubled;
      r := ApplyChanges();
      ghost var entries0, changes0 := entries, changes;
      RemoveAll();
      ghost var committed0 := committed;
      committed := map fd | 0 <= fd < |entries| :: IoAt(entries, fd).Kinds();
      AllTold(kernel.interests, forgotten, entries0, changes0, committed0, edge, entries, committed);
    }

    /** The descriptor is closed: epoll drops it without a word. */
    method CloseFd(fd: int)
      requires InStep()
      modifies this`forgotten, kernel
      ensures InStep() && forgotten == old(forgotten) + {fd}
      ensures kernel.interests == old(kernel.interests) - {fd}
    {
      hide Consistent;
      kernel.Close(fd);
      forgotten := forgotten + {fd};
    }
  }

  /** One of the first `i` changes is an operation on this descriptor. */
  ghost predicate Operated(changes: seq<Change>, i: nat, fd: int) {
    exists j :: 0 <= j < i && j < |changes| && changes[j].fd == fd && changes[j].Adds() + changes[j].Dels() != {}
  }

  /** What the kernel has been told about a descriptor by the first `i` changes. */
  ghost function ToldBy(io: EvmapIo, was: set<Kind>, i: nat): set<Kind> {
    if 0 < io.idxplus1 <= i then io.Kinds() else was
  }

  ghost predicate ToldUpTo(m: map<int, Interest>, forgotten: set<int>, entries: seq<Option<EvmapIo>>,
                           changes: seq<Change>, committed: map<int, set<Kind>>, edge: int -> bool, i: nat) {
    forall fd {:trigger fd in m} {:trigger IoAt(entries, fd)} ::
      if fd in forgotten then fd !in m else Agrees(m, fd, ToldBy(IoAt(entries, fd), Was(committed, fd), i), edge(fd))
  }

  lemma ToldStart(m: map<int, Interest>, forgotten: set<int>, entries: seq<Option<EvmapIo>>, changes: seq<Change>,
                  committed: map<int, set<Kind>>, edge: int -> bool)
    requires forall fd {:trigger fd in m} {:trigger Was(committed, fd)} ::
               if fd in forgotten then fd !in m else Agrees(m, fd, Was(committed, fd), edge(fd))
    ensures ToldUpTo(m, forgotten, entries, changes, committed, edge, 0)
    ensures forall fd :: !Operated(changes, 0, fd)
  {
  }

  lemma OperatedNext(changes: seq<Change>, i: nat, fd: int)
    requires i < |changes|
    ensures Operated(changes, i + 1, fd) <==>
            (Operated(changes, i, fd) || (changes[i].fd == fd && changes[i].Adds() + changes[i].Dels() != {}))
  {
    hide Change.Adds, Change.Dels;
    if changes[i].fd == fd && changes[i].Adds() + changes[i].Dels() != {} {
      assert Operated(changes, i + 1, fd);
    }
  }

  /** There is nothing to do for this change. */
  predicate Idle(ch: Change) {
    ch.Adds() + ch.Dels() == {}
  }

  /** What the kernel watches once a change has been made. */
  ghost function WatchedAfter(m: map<int, Interest>, ch: Change): map<int, Interest> {
    if Idle(ch) then m else Watching(m, ch.fd, ch.Meant(), ch.EdgeTriggered())
  }

  /** The descriptors that are still forgotten then. */
  ghost function ForgottenAfter(forgotten: set<int>, ch: Change): set<int> {
    if Idle(ch) then forgotten else forgotten - {ch.fd}
  }

  /** The change that is next, and the descriptor it belongs to. */
  lemma ChangeAt(entries: seq<Option<EvmapIo>>, changes: seq<Change>, committed: map<int, set<Kind>>, edge: int -> bool,
                 i: nat)
    requires Consistent(entries, changes, committed, edge) && i < |changes|
    ensures
      var ch := changes[i];
      var io := IoAt(entries, ch.fd);
      && io.idxplus1 == i + 1 && ch.Proper() && ch.Meant() == io.Kinds() && EdgeOk(ch, edge(ch.fd))
      && ch.oldEvents == Was(committed, ch.fd)
  {
    hide Counted, EvmapIo.Kinds, Change.Meant, Change.Proper, EdgeOk;
    var fd := changes[i].fd;
    assert Fine(IoAt(entries, fd), fd, changes, Was(committed, fd), edge(fd));
  }

  /** Another descriptor has nothing to do with the change. */
  lemma ChangeOfOther(entries: seq<Option<EvmapIo>>, changes: seq<Change>, committed: map<int, set<Kind>>,
                      edge: int -> bool, i: nat, x: int)
    requires Consistent(entries, changes, committed, edge) && i < |changes| && x != changes[i].fd
    ensures IoAt(entries, x).idxplus1 != i + 1
  {
    hide Counted, EvmapIo.Kinds, Change.Meant, Change.Proper, EdgeOk;
    assert Fine(IoAt(entries, x), x, changes, Was(committed, x), edge(x));
  }

  /** One more change is applied. */
  lemma ToldNext(m: map<int, Interest>, forgotten: set<int>, entries: seq<Option<EvmapIo>>, changes: seq<Change>,
                 committed: map<int, set<Kind>>, edge: int -> bool, i: nat)
    requires Consistent(entries, changes, committed, edge) && i < |changes| && changes[i].Proper()
    requires ToldUpTo(m, forgotten, entries, changes, committed, edge, i)
    ensures ToldUpTo(WatchedAfter(m, changes[i]), ForgottenAfter(forgotten, changes[i]), entries, changes, committed,
            edge, i + 1)
  {
    hide Consistent, EvmapIo.Kinds, Change.Adds, Change.Dels, Change.EdgeTriggered, Change.Meant, Change.Proper, EdgeOk,
         Idle;
    var ch := changes[i];
    ChangeAt(entries, changes, committed, edge, i);
    ChangeEdge(ch, edge(ch.fd));
    var m', forgotten' := WatchedAfter(m, ch), ForgottenAfter(forgotten, ch);
    forall x
      ensures if x in forgotten' then x !in m'
              else Agrees(m', x, ToldBy(IoAt(entries, x), Was(committed, x), i + 1), edge(x))
    {
      if x != ch.fd {
        ChangeOfOther(entries, changes, committed, edge, i, x);
      }
    }
  }

  /** One more change may have had something to do. */
  lemma OperatedUpTo(changes: seq<Change>, i: nat)
    requires i < |changes|
    ensures forall fd ::
              Operated(changes, i + 1, fd) <==> (Operated(changes, i, fd) || (fd == changes[i].fd && !Idle(changes[i])))
  {
    hide Operated, Change.Adds, Change.Dels;
    forall fd
      ensures Operated(changes, i + 1, fd)
              <==> (Operated(changes, i, fd) || (fd == changes[i].fd && !Idle(changes[i])))
    {
      OperatedNext(changes, i, fd);
    }
  }

  /** A change with something to do carries the flag of its descriptor; one without leaves all as it was. */
  lemma ChangeEdge(c: Change, edge: bool)
    requires EdgeOk(c, edge)
    ensures if Idle(c) then c.Meant() == c.oldEvents else c.EdgeTriggered() == edge
  {
    assert forall k: Kind :: c.Of(k).et ==> edge;
    assert c.Of(Reading).et || c.Of(Writing).et || c.Of(Closing).et <==> c.EdgeTriggered();
    if c.Adds() + c.Dels() != {} {
      var k :| k in c.Adds() + c.Dels();
      assert c.Of(k).et == edge;
    }
  }

  /** When all changes have been made, the list is not needed any more. */
  lemma AllTold(m: map<int, Interest>, forgotten: set<int>, entries: seq<Option<EvmapIo>>, changes: seq<Change>,
                committed: map<int, set<Kind>>, edge: int -> bool, entries': seq<Option<EvmapIo>>,
                committed': map<int, set<Kind>>)
    requires Consistent(entries, changes, committed, edge) && |entries'| == |entries|
    requires ToldUpTo(m, forgotten, entries, changes, committed, edge, |changes|)
    requires forall fd {:trigger IoAt(entries', fd)} :: IoAt(entries', fd) == IoAt(entries, fd).(idxplus1 := 0)
    requires committed' == map fd | 0 <= fd < |entries'| :: IoAt(entries', fd).Kinds()
    ensures Consistent(entries', [], committed', edge)
    ensures forall fd {:trigger Was(committed', fd)} :: Was(committed', fd) == Union(IoAt(entries', fd).events)
    ensures forall fd {:trigger fd in m} {:trigger Was(committed', fd)} ::
              if fd in forgotten then fd !in m else Agrees(m, fd, Was(committed', fd), edge(fd))
  {
    forall fd
      ensures Fine(IoAt(entries', fd), fd, [], Was(committed', fd), edge(fd))
      ensures Was(committed', fd) == Union(IoAt(entries', fd).events)
      ensures if fd in forgotten then fd !in m else Agrees(m, fd, Was(committed', fd), edge(fd))
    {
      var io := IoAt(entries, fd);
      assert Fine(io, fd, changes, Was(committed, fd), edge(fd));
      SameKinds(io, 0);
      KindsAreUnion(io);
      if !(0 <= fd < |entries|) {
        SameKinds(EMPTY_IO, 0);
        assert EMPTY_IO.Kinds() == {};
      }
    }
  }

  /** The counts with one event more, and which kinds are new. */
  method Count(io: EvmapIo, ev: Ev) returns (ok: bool, next: EvmapIo, res: set<Kind>)
    requires Counted(io) && ev !in io.events
    ensures ok <==> !exists k: Kind :: k in ev.kinds && CountOf(io.events, k) == MAX_COUNT
    ensures ok ==> next.events == [ev] + io.events && next.idxplus1 == io.idxplus1
    ensures ok ==> Counted(next) && next.Kinds() == io.Kinds() + res
    ensures forall k: Kind :: k in res <==> k in ev.kinds && io.Count(k) == 0
  {
    hide CountOf;
    var nread, nwrite, nclose := io.nread, io.nwrite, io.nclose;
    res := {};
    if Reading in ev.kinds {
      nread := nread + 1;
      res := if nread == 1 then res + {Reading} else res;
    }
    if Writing in ev.kinds {
      nwrite := nwrite + 1;
      res := if nwrite == 1 then res + {Writing} else res;
    }
    if Closing in ev.kinds {
      nclose := nclose + 1;
      res := if nclose == 1 then res + {Closing} else res;
    }
    next := EvmapIo(nread, nwrite, nclose, [ev] + io.events, io.idxplus1);
    assert forall k: Kind :: next.Count(k) == io.Count(k) + One(k in ev.kinds);
    if nread > MAX_COUNT || nwrite > MAX_COUNT || nclose > MAX_COUNT {
      return false, next, res;
    }
    InsertCounted(io, ev, next, res);
    ok := true;
  }

  /** The counts with one event less, and which kinds are no longer wanted. */
  method Uncount(io: EvmapIo, ev: Ev) returns (next: EvmapIo, res: set<Kind>)
    requires Counted(io) && ev in io.events
    ensures next.events == Without(io.events, ev) && next.idxplus1 == io.idxplus1
    ensures Counted(next) && next.Kinds() == io.Kinds() - res && res <= io.Kinds()
    ensures forall e | e in next.events :: e in io.events
  {
    hide CountOf, Without;
    ghost var i := Listed(io, ev);
    var nread, nwrite, nclose := io.nread, io.nwrite, io.nclose;
    res := {};
    if Reading in ev.kinds {
      nread := nread - 1;
      res := if nread == 0 then res + {Reading} else res;
    }
    if Writing in ev.kinds {
      nwrite := nwrite - 1;
      res := if nwrite == 0 then res + {Writing} else res;
    }
    if Closing in ev.kinds {
      nclose := nclose - 1;
      res := if nclose == 0 then res + {Closing} else res;
    }
    next := EvmapIo(nread, nwrite, nclose, Without(io.events, ev), io.idxplus1);
    RemoveCounted(io, i, next, res);
  }

  /** evmap_io_add_ fails: the descriptor is too large, or there are too many events for it. */
  ghost predicate Refuses(ev: Ev, es: seq<Ev>) {
    ev.fd >= MAX_SLOTS || (ev.fd >= 0 && exists k: Kind :: k in ev.kinds && CountOf(es, k) == MAX_COUNT)
  }

  lemma Listed(io: EvmapIo, ev: Ev) returns (i: nat)
    requires Counted(io) && ev in io.events
    ensures i < |io.events| && io.events[i] == ev && Without(io.events, ev) == io.events[..i] + io.events[i + 1..]
    ensures forall k: Kind :: k in ev.kinds ==> io.Count(k) > 0
  {
    i := WithoutAt(io.events, ev);
    forall k: Kind | k in io.events[i].kinds ensures io.Count(k) > 0 {
      ListedCounted(io.events, i, k);
    }
  }

  lemma NewKinds(io: EvmapIo, ev: Ev, res: set<Kind>)
    requires Counted(io) && forall k: Kind :: k in res <==> k in ev.kinds && io.Count(k) == 0
    ensures res == {} <==> ev.kinds <= Union(io.events)
  {
    KindsAreUnion(io);
  }

  lemma SlotFine(entries: seq<Option<EvmapIo>>, changes: seq<Change>, committed: map<int, set<Kind>>, edge: int -> bool,
                 fd: int)
    requires Consistent(entries, changes, committed, edge)
    ensures var io := IoAt(entries, fd);
            && Counted(io) && io.idxplus1 <= |changes|
            && forall i | 0 <= i < |io.events| :: io.events[i].fd == fd && io.events[i].edge == edge(fd)
  {
    assert Fine(IoAt(entries, fd), fd, changes, Was(committed, fd), edge(fd));
  }

  lemma ChangeOwner(entries: seq<Option<EvmapIo>>, changes: seq<Change>, committed: map<int, set<Kind>>,
                    edge: int -> bool, fd: int)
    requires Consistent(entries, changes, committed, edge) && IoAt(entries, fd).idxplus1 > 0
    ensures IoAt(entries, fd).idxplus1 <= |changes| && changes[IoAt(entries, fd).idxplus1 - 1].fd == fd
  {
    assert Fine(IoAt(entries, fd), fd, changes, Was(committed, fd), edge(fd));
  }

  lemma SameSlots(entries: seq<Option<EvmapIo>>, entries': seq<Option<EvmapIo>>, changes: seq<Change>,
                  committed: map<int, set<Kind>>, edge: int -> bool)
    requires Consistent(entries, changes, committed, edge)
    requires forall fd {:trigger IoAt(entries', fd)} :: IoAt(entries', fd) == IoAt(entries, fd)
    ensures Consistent(entries', changes, committed, edge)
  {
    forall fd ensures Fine(IoAt(entries', fd), fd, changes, Was(committed, fd), edge(fd)) {
      assert Fine(IoAt(entries, fd), fd, changes, Was(committed, fd), edge(fd));
    }
  }

  lemma SameKinds(io: EvmapIo, idx: nat)
    ensures io.(idxplus1 := idx).Kinds() == io.Kinds() && (Counted(io) ==> Counted(io.(idxplus1 := idx)))
  {
    assert forall k: Kind :: io.(idxplus1 := idx).Count(k) == io.Count(k);
  }

  /** What is noted for a descriptor leads to what is wanted now. */
  lemma NotedChange(entries: seq<Option<EvmapIo>>, changes: seq<Change>, committed: map<int, set<Kind>>,
                    edge: int -> bool, fd: int)
    requires Consistent(entries, changes, committed, edge)
    ensures
      var io := IoAt(entries, fd);
      && io.idxplus1 <= |changes|
      && (io.idxplus1 == 0 ==> Was(committed, fd) == io.Kinds())
      && var (list, idx) := Noted(io, fd, io.Kinds(), changes);
         && list[idx].Proper() && EdgeOk(list[idx], edge(fd)) && list[idx].Meant() == io.Kinds()
         && list[idx].fd == fd && list[idx].oldEvents == Was(committed, fd)
         && (list, idx) == Noted(io, fd, Was(committed, fd), changes)
  {
    hide Synced, EdgeOk, Change.Proper, Change.Meant, Counted, EvmapIo.Kinds, Noted;
    var io := IoAt(entries, fd);
    assert Fine(io, fd, changes, Was(committed, fd), edge(fd));
    NotedMeant(io, fd, changes, Was(committed, fd), edge(fd));
  }

  lemma NotedMeant(io: EvmapIo, fd: int, changes: seq<Change>, was: set<Kind>, edge: bool)
    requires Synced(io, fd, changes, was, edge)
    ensures
      && io.idxplus1 <= |changes|
      && (io.idxplus1 == 0 ==> was == io.Kinds())
      && var (list, idx) := Noted(io, fd, io.Kinds(), changes);
         && list[idx].Proper() && EdgeOk(list[idx], edge) && list[idx].Meant() == io.Kinds()
         && list[idx].fd == fd && list[idx].oldEvents == was
         && (list, idx) == Noted(io, fd, was, changes)
  {
    hide EdgeOk, Change.Proper, Change.Meant, EvmapIo.Kinds;
    NewMeant(fd, io.Kinds(), edge);
  }
}
