/** The table that turns one coalesced change into one epoll_ctl operation. */
module EpollTable {
  import opened Options

  /** EV_READ, EV_WRITE, EV_CLOSED */
  datatype Kind = Reading | Writing | Closing

  /** The EV_CHANGE_ADD, EV_CHANGE_DEL and EV_CHANGE_ET bits of a change byte. */
  datatype Mark = Mark(add: bool, del: bool, et: bool)

  const NO_CHANGE := Mark(false, false, false)

  /** struct event_change */
  datatype Change = Change(fd: int, oldEvents: set<Kind>, readChange: Mark, writeChange: Mark, closeChange: Mark) {
    function Of(k: Kind): Mark {
      match k case Reading => readChange case Writing => writeChange case Closing => closeChange
    }

    function Adds(): set<Kind> {
      set k: Kind | Of(k).add
    }

    function Dels(): set<Kind> {
      set k: Kind | Of(k).del
    }

    /** What should be watched once the change is made. */
    function Meant(): set<Kind> {
      (oldEvents - Dels()) + Adds()
    }

    /** Never both add and delete, and only what was there is deleted. */
    ghost predicate Proper() {
      Adds() !! Dels() && Dels() <= oldEvents
    }

    predicate EdgeTriggered() {
      readChange.et || writeChange.et || closeChange.et
    }
  }

  datatype Op = NoOp | CtlAdd | CtlMod | CtlDel | Impossible

  /** struct operation */
  datatype Row = Row(events: set<Kind>, op: Op)

  /** change & (EV_CHANGE_ADD|EV_CHANGE_DEL) */
  function Code(m: Mark): (c: nat)
    ensures c < 4
  {
    One(m.add) + 2 * One(m.del)
  }

  /** EPOLL_OP_TABLE_INDEX, with EV_READ, EV_WRITE and EV_CLOSED being 2, 4 and 0x80. */
  function TableIndex(c: Change): (i: nat)
    ensures i < 512
  {
    Code(c.closeChange) + 4 * Code(c.readChange) + 16 * Code(c.writeChange)
    + 32 * (2 * One(Reading in c.oldEvents) + 4 * One(Writing in c.oldEvents))
    + 2 * (0x80 * One(Closing in c.oldEvents))
  }

  function MarkOf(code: nat): Mark {
    Mark(code % 2 == 1, code / 2 % 2 == 1, false)
  }

  /** The change a row number stands for. */
  function RowChange(i: nat): Change {
    var was := (if i / 64 % 2 == 1 then {Reading} else {}) + (if i / 128 % 2 == 1 then {Writing} else {})
             + (if i / 256 % 2 == 1 then {Closing} else {});
    Change(0, was, MarkOf(i / 4 % 4), MarkOf(i / 16 % 4), MarkOf(i % 4))
  }

  /**
   * epoll_op_table, row by row, as the rules that generated it say: what is added or kept is asked
   * for, with MOD if something was watched before; if nothing is left, DEL.
   */
  function Table(i: nat): Row
    requires i < 512
  {
    RowFor(RowChange(i))
  }

  function RowFor(c: Change): Row {
    if c.Adds() * c.Dels() != {} then Row({}, Impossible)
    else if c.Adds() != {} then Row(c.Meant(), if c.oldEvents != {} then CtlMod else CtlAdd)
    else if c.Dels() != {} then
      if c.Meant() != {} then Row(c.Meant(), CtlMod) else Row(c.Dels(), CtlDel)
    else Row({}, NoOp)
  }

  lemma CodeBack(m: Mark)
    ensures MarkOf(Code(m)) == m.(et := false)
  {
  }

  lemma Digits(a: nat, b: nat, c: nat, r: nat, w: nat, x: nat)
    requires a < 4 && b < 4 && c < 4 && r < 2 && w < 2 && x < 2
    ensures
      var i := a + 4 * b + 16 * c + 64 * r + 128 * w + 256 * x;
      i % 4 == a && i / 4 % 4 == b && i / 16 % 4 == c && i / 64 % 2 == r && i / 128 % 2 == w && i / 256 % 2 == x
  {
    var i := a + 4 * b + 16 * c + 64 * r + 128 * w + 256 * x;
    assert i / 4 == b + 4 * c + 16 * r + 32 * w + 64 * x;
    assert i / 16 == c + 4 * r + 8 * w + 16 * x;
    assert i / 64 == r + 2 * w + 4 * x;
    assert i / 128 == w + 2 * x;
  }

  /** The row number holds all there is to know about a change. */
  lemma IndexBack(c: Change)
    ensures RowChange(TableIndex(c)) ==
            Change(0, c.oldEvents, c.readChange.(et := false), c.writeChange.(et := false), c.closeChange.(et := false))
  {
    hide Code, MarkOf;
    Digits(Code(c.closeChange), Code(c.readChange), Code(c.writeChange),
           One(Reading in c.oldEvents), One(Writing in c.oldEvents), One(Closing in c.oldEvents));
    CodeBack(c.readChange);
    CodeBack(c.writeChange);
    CodeBack(c.closeChange);
    assert RowChange(TableIndex(c)).oldEvents == c.oldEvents by {
      forall k: Kind ensures k in RowChange(TableIndex(c)).oldEvents <==> k in c.oldEvents {
        match k case Reading => case Writing => case Closing =>
      }
    }
  }

  /** What the row of a proper change says. */
  lemma RowOf(c: Change)
    requires c.Proper()
    ensures
      var row := Table(TableIndex(c));
      && (row.op == NoOp <==> c.Adds() == {} && c.Dels() == {})
      && (row.events == {} <==> row.op == NoOp) && row.op != Impossible
      && (row.op == CtlAdd || row.op == CtlMod ==> row.events == c.Meant() && c.Meant() != {})
      && (row.op == CtlDel ==> c.Meant() == {})
      && (row.op == CtlAdd ==> c.oldEvents == {}) && (row.op == CtlMod || row.op == CtlDel ==> c.oldEvents != {})
  {
    hide TableIndex, RowChange;
    IndexBack(c);
    var d := RowChange(TableIndex(c));
    assert forall k: Kind :: d.Of(k).add == c.Of(k).add && d.Of(k).del == c.Of(k).del;
    assert d.Adds() == c.Adds() && d.Dels() == c.Dels();
  }

  /** What epoll watches for one descriptor. */
  datatype Interest = Interest(kinds: set<Kind>, edge: bool)

  datatype Errno = Ok | ENOENT | EEXIST

  /** The kernel's interest list of one epoll instance. */
  class Kernel {
    var interests: map<int, Interest>

    constructor ()
      ensures interests == map[]
    {
      interests := map[];
    }

    /** epoll_ctl on open descriptors. */
    method EpollCtl(op: Op, fd: int, want: Interest) returns (e: Errno)
      requires op == CtlAdd || op == CtlMod || op == CtlDel
      modifies this
      ensures e == if op == CtlAdd then (if fd in old(interests) then EEXIST else Ok)
                   else if fd in old(interests) then Ok else ENOENT
      ensures interests == if e != Ok then old(interests)
                           else if op == CtlDel then old(interests) - {fd}
                           else old(interests)[fd := want]
    {
      if op == CtlAdd && fd in interests {
        return EEXIST;
      }
      if op != CtlAdd && fd !in interests {
        return ENOENT;
      }
      interests := if op == CtlDel then interests - {fd} else interests[fd := want];
      e := Ok;
    }

    /** The descriptor is closed: the kernel forgets it. */
    method Close(fd: int)
      modifies this
      ensures interests == old(interests) - {fd}
    {
      interests := interests - {fd};
    }
  }

  /** The interest list with descriptor `fd` watched for exactly `kinds`. */
  ghost function Watching(m: map<int, Interest>, fd: int, kinds: set<Kind>, edge: bool): map<int, Interest> {
    if kinds == {} then m - {fd} else m[fd := Interest(kinds, edge)]
  }

  /**
   * epoll_apply_one_change: unless there is nothing to do, the kernel afterwards watches what was
   * meant, whatever it watched before and even if it had forgotten the descriptor.
   */
  method ApplyOneChange(kernel: Kernel, ch: Change) returns (r: int)
    requires ch.Proper()
    modifies kernel
    ensures r == 0
    ensures kernel.interests == if ch.Adds() + ch.Dels() == {} then old(kernel.interests)
                                else Watching(old(kernel.interests), ch.fd, ch.Meant(), ch.EdgeTriggered())
  {
    RowOf(ch);
    var row := Table(TableIndex(ch));
    if row.events == {} {
      assert row.op == NoOp;
      return 0;
    }
    var epev := Interest(row.events, ch.EdgeTriggered());
    var e := kernel.EpollCtl(row.op, ch.fd, epev);
    if e == Ok {
      return 0;
    }
    if row.op == CtlMod && e == ENOENT {
      e := kernel.EpollCtl(CtlAdd, ch.fd, epev);
      return if e != Ok then -1 else 0;
    }
    if row.op == CtlAdd && e == EEXIST {
      e := kernel.EpollCtl(CtlMod, ch.fd, epev);
      return if e != Ok then -1 else 0;
    }
    r := if row.op == CtlDel && e == ENOENT then 0 else -1;
  }
}
