/** Runs from an empty buffer that end where reserving, committing and reading do not do what was asked. */
module EvbufferCorners {
  import opened Options
  import opened Segments
  import opened Memory
  import opened BufferCallbacks
  import opened Evbuffer
  import opened EvbufferReserve
  import opened EvbufferCommit
  import opened EvbufferRead

  /** The capacities of chains for 960, 976, 1500 and 2500 bytes. */
  lemma Capacities()
    ensures CapFor(960) == CapFor(976) == 976 && CapFor(1500) == 2000 && CapFor(2500) == 4048
  {
    assert Doublings(1024, 1008) == 1024;
    assert Doublings(1024, 1024) == 1024;
    assert Doublings(1024, 1548) == Doublings(2048, 1548) == 2048;
    assert Doublings(1024, 2548) == Doublings(2048, 2548) == Doublings(4096, 2548) == 4096;
  }

  /** A nearly full chain, and the empty ones behind it. */
  ghost function Nearly(data: seq<byte>, empty: seq<nat>): seq<Seg> {
    [Seg(data, 0, 976, false)] + seq(|empty|, i requires 0 <= i < |empty| => Seg([], 0, empty[i], false))
  }

  lemma NearlyOne(data: seq<byte>)
    requires |data| == 960
    ensures Nearly(data, []) == [Seg(data, 0, 976, false)] && AddsOne(Nearly(data, []), 0, 1516, 2)
    ensures SpaceOf(Nearly(data, []), 0, 1) == 16
    ensures Nearly(data, []) + [Seg([], 0, 2000, false)] == Nearly(data, [2000])
  {
    var cs := Nearly(data, []);
    assert SpaceOf(cs, 0, 1) == cs[0].Space() + SpaceOf(cs, 1, 0);
  }

  lemma NearlyTwo(data: seq<byte>)
    requires |data| == 960
    ensures AddsOne(Nearly(data, [2000]), 0, 4516, 3) && |Nearly(data, [2000])| == 2
    ensures SpaceOf(Nearly(data, [2000]), 0, 2) == 2016
    ensures Nearly(data, [2000]) + [Seg([], 0, 4048, false)] == Nearly(data, [2000, 4048])
  {
    var cs := Nearly(data, [2000]);
    assert cs[1] == Seg([], 0, 2000, false);
    assert SpaceOf(cs, 0, 2) == cs[0].Space() + SpaceOf(cs, 1, 1);
    assert SpaceOf(cs, 1, 1) == cs[1].Space() + SpaceOf(cs, 2, 0);
  }

  /** Here the vector for 50 bytes is in the chain in the middle, which is neither the first with space nor the last. */
  lemma NearlyThree(data: seq<byte>, s: seq<Ptr>, vec: Vec)
    requires |data| == 960
    ensures var cs := Nearly(data, [2000, 4048]);
      && |cs| == 3 && UsesNext(cs, 0, 50)
      && (|s| == 3 && Distinct(s) && IsSpaceOf(vec, s, cs, 1) ==> vec.len == 2000 && !Committable([vec], s, cs, 0))
  {
    var cs := Nearly(data, [2000, 4048]);
    assert cs[1] == Seg([], 0, 2000, false) && cs[2] == Seg([], 0, 4048, false);
    if |s| == 3 && Distinct(s) && IsSpaceOf(vec, s, cs, 1) {
      OneVectorCommits(vec, s, cs, 0, 1);
    }
  }

  lemma OneVector(vec: Vec)
    ensures VecTotal([vec]) == vec.len
  {
    VecTotalNext([], vec);
    NoVecs([], [], 0);
    assert [] + [vec] == [vec];
  }

  /** A new buffer with `data` in it. */
  method Filled(data: seq<byte>) returns (buf: EvBuffer)
    requires 0 < |data| <= 976
    ensures fresh(buf) && fresh(buf.mem) && fresh(buf.cb) && buf.Valid() && !buf.freezeEnd
    ensures buf.Contents() == data && buf.lwd == 0 && buf.segs == [Seg(data, 0, CapFor(|data|), false)]
  {
    hide Flat, Chained, Confined, Ptrs, CbState.Accounts, CapFor, Marked;
    var mem := new Memory();
    buf := new EvBuffer(mem);
    assert [] + data == data;
    var added := buf.Add(data);
  }

  /** Space is reserved twice in several vectors, and not used. */
  method ReservedTwice(data: seq<byte>) returns (buf: EvBuffer)
    requires |data| == 960
    ensures fresh(buf) && fresh(buf.mem) && fresh(buf.cb) && buf.Valid() && !buf.freezeEnd
    ensures buf.Contents() == data && buf.lwd == 0 && buf.segs == Nearly(data, [2000, 4048])
  {
    hide Flat, Chained, Confined, Ptrs, CbState.Accounts, AddsOne, SpaceOf, UsesNext, Nearly, CapFor, Marked, Fits,
         Whole, VecTotal;
    Capacities();
    buf := Filled(data);
    NearlyOne(data);
    var r, k := ReserveSpace(buf, 1516, 2);
    NearlyTwo(data);
    r, k := ReserveSpace(buf, 4516, 3);
  }

  /**
   * 960 bytes are added to an empty buffer, and space is reserved twice without being used. After that
   * the vector reserved for 50 bytes is refused when it is committed.
   */
  method OneVectorRefused(data: seq<byte>) returns (buf: EvBuffer, vec: Vec, result: int)
    requires |data| == 960
    ensures buf.Valid() && buf.Contents() == data && vec.len >= 50 && result == -1
  {
    hide Flat, Chained, Confined, Ptrs, CbState.Accounts, SpaceOf, UsesNext, Nearly, Marked, Committable, IsSpaceOf,
         VecTotal, Fits;
    buf := ReservedTwice(data);
    NearlyThree(data, buf.spine, Vec(0, 0, 0));
    ghost var k;
    var r: Reserved;
    r, k := ReserveSpace(buf, 50, 1);
    vec := r.vecs[0];
    DistinctSpine(buf);
    NearlyThree(data, buf.spine, vec);
    OneVector(vec);
    result := CommitSpace(buf, [vec]);
  }

  lemma DistinctSpine(buf: EvBuffer)
    requires buf.Linked()
    ensures Distinct(buf.spine) && |buf.spine| == |buf.segs|
  {
  }

  /** A chain that is full to the last byte. */
  lemma FullChain(data: seq<byte>)
    requires |data| == 976
    ensures FullTail([Seg(data, 0, CapFor(976), false)], 0)
  {
    Capacities();
  }

  /** Reserving nothing in two vectors behind 976 bytes runs into the assertion of evbuffer_reserve_space. */
  method NothingReserved(data: seq<byte>) returns (buf: EvBuffer, r: Reserved)
    requires |data| == 976
    ensures buf.Contents() == data && r == AssertionFailed
  {
    hide Flat, Chained, Confined, Ptrs, CbState.Accounts, FullTail, CapFor, Marked;
    buf := Filled(data);
    FullChain(data);
    ghost var k;
    r, k := ReserveSpace(buf, 0, 2);
  }

  /** Reading nothing behind 976 bytes runs into that of evbuffer_read_setup_vecs_. */
  method NothingRead(data: seq<byte>, maxRead: nat, incoming: seq<byte>) returns (buf: EvBuffer, r: ReadResult)
    requires |data| == 976 && maxRead <= INT_MAX
    ensures buf.Contents() == data && r == ReadAborted
  {
    hide Flat, Chained, Confined, Ptrs, CbState.Accounts, FullTail, CapFor, Marked;
    buf := Filled(data);
    FullChain(data);
    NothingAsked(maxRead);
    r := Read(buf, maxRead, 0, 0, incoming, false);
  }

  lemma NothingAsked(maxRead: nat)
    ensures Asked(maxRead, 0, 0) == 0
  {
  }
}
