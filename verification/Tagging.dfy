/** Tagged records in evbuffers. */
module Tagging {
  import opened Options
  import opened Segments
  import opened Memory
  import opened BufferCallbacks
  import opened Evbuffer
  import opened EvbufferMove
  import EvbufferPullup
  import EvbufferRuns
  import opened TagCodec

  const LIMIT: int := 0x8000_0000

  /** A record: a tag of 32 bits and its data. */
  datatype Record = Record(tag: nat, data: seq<byte>) {
    /** Records that survive: lengths are handed on as signed 32-bit numbers. */
    ghost predicate Fits() {
      tag < TWO32 && |data| < LIMIT
    }
  }

  ghost function Encoded(r: Record): seq<byte>
    requires |r.data| < TWO32
  {
    TagBytes(r.tag) + Length(|r.data|) + r.data
  }

  ghost function Length(n: nat): seq<byte>
    requires n < TWO32
  {
    Powers();
    IntBytes(n)
  }

  /** What evbuffer_add leaves of `more` at the end of `c`: all or nothing. */
  ghost function Added(c: seq<byte>, frozen: bool, more: seq<byte>): seq<byte> {
    if frozen || |more| > SIZE_MAX - |c| || |more| > MAX_CAP then c else c + more
  }

  /** What evbuffer_drain leaves. */
  ghost function Cut(c: seq<byte>, n: nat, frozen: bool): seq<byte> {
    if frozen then c else if n >= |c| then [] else c[n..]
  }

  // -------- writing

  /** evtag_encode_int and evtag_encode_int64 */
  method EncodeInt(buf: EvBuffer, width: nat, number: nat)
    requires buf.Valid() && 0 < width <= 8 && number < Pow16(2 * width)
    modifies buf, buf.mem, buf.cb
    ensures buf.Valid() && buf.SameSettings() && Confined(old(buf.mem.at), old(buf.spine), buf.mem.at, buf.spine)
    ensures number < Pow16(16) && buf.Contents() == Added(old(buf.Contents()), buf.freezeEnd, IntBytes(number))
  {
    hide Flat, Chained, Confined, Ptrs, CbState.Accounts, Marked, IsInt;
    PowersGrow(2 * width, 16);
    var data := new byte[width + 1];
    var len := EncodeIntInternal(data, 0, width, number);
    IntBytesOnly(Field(data, 0, len), number);
    var r := buf.Add(data[..len]);
  }

  /** evtag_encode_tag */
  method EncodeTagTo(buf: EvBuffer, tag: nat) returns (bytes: nat)
    requires buf.Valid() && tag < TWO32
    modifies buf, buf.mem, buf.cb
    ensures buf.Valid() && buf.SameSettings() && Confined(old(buf.mem.at), old(buf.spine), buf.mem.at, buf.spine)
    ensures bytes == |TagBytes(tag)| <= 5 && buf.Contents() == Added(old(buf.Contents()), buf.freezeEnd, TagBytes(tag))
  {
    hide Flat, Chained, Confined, Ptrs, CbState.Accounts, Marked, TagBytes;
    var data;
    data, bytes := EncodeTag(tag);
    var r := buf.Add(data[..bytes]);
  }

  /** evtag_marshal: each part is added if there is room for it, whatever has become of the others. */
  method Marshal(buf: EvBuffer, tag: nat, data: seq<byte>)
    requires buf.Valid() && tag < TWO32 && |data| < TWO32
    modifies buf, buf.mem, buf.cb
    ensures buf.Valid() && buf.SameSettings() && Confined(old(buf.mem.at), old(buf.spine), buf.mem.at, buf.spine)
    ensures var f := buf.freezeEnd;
            buf.Contents() == Added(Added(Added(old(buf.Contents()), f, TagBytes(tag)), f, Length(|data|)), f, data)
  {
    hide Flat, Chained, Confined, Ptrs, CbState.Accounts, Marked, Added, TagBytes, IntBytes;
    ghost var at0, s0 := buf.mem.at, buf.spine;
    Powers();
    var bytes := EncodeTagTo(buf, tag);
    ghost var at1, s1 := buf.mem.at, buf.spine;
    EncodeInt(buf, 4, |data|);
    ConfinedTrans(at0, s0, at1, s1, buf.mem.at, buf.spine);
    ghost var at2, s2, c := buf.mem.at, buf.spine, buf.Contents();
    var r := buf.Add(data);
    AddedIs(c, buf.freezeEnd, data);
    ConfinedTrans(at0, s0, at2, s2, buf.mem.at, buf.spine);
  }

  lemma AddedIs(c: seq<byte>, frozen: bool, more: seq<byte>)
    ensures Added(c, frozen, more) == if frozen || |more| > SIZE_MAX - |c| || |more| > MAX_CAP then c else c + more
  {
  }

  /** A record is written whole if there is room for it. */
  lemma WholeRecord(c: seq<byte>, r: Record)
    requires |r.data| < TWO32 && r.tag < TWO32 && |c| + |Encoded(r)| <= SIZE_MAX
    ensures Added(Added(Added(c, false, TagBytes(r.tag)), false, Length(|r.data|)), false, r.data) == c + Encoded(r)
  {
    TagLimit();
    TagBytesShort(r.tag, 5);
  }

  lemma {:induction false} TagBytesShort(tag: nat, n: nat)
    requires n > 0 && tag < 128 * Pow128(n - 1)
    ensures 1 <= |TagBytes(tag)| <= n
  {
    if tag >= 128 {
      TagBytesShort(tag / 128, n - 1);
    }
  }

  // -------- reading

  /** decode_tag_internal. `outside` says whether it reads a byte behind the memory of the first chain. */
  method DecodeTag(buf: EvBuffer, dodrain: bool) returns (result: int, tag: nat, ghost outside: bool)
    requires buf.Valid()
    modifies buf, buf.mem, buf.cb
    ensures buf.Valid() && buf.SameSettings() && Confined(old(buf.mem.at), old(buf.spine), buf.mem.at, buf.spine)
    ensures match TagAt(old(buf.Contents()), 0)
            case None => result == -1 && buf.Contents() == old(buf.Contents())
            case Some((v, c)) =>
              && result == c && tag == v < TWO32 && 1 <= c <= 5 && c <= |old(buf.Contents())|
              && buf.Contents() == Cut(old(buf.Contents()), c, !dodrain || buf.freezeStart)
    ensures outside <==>
              TooManyGroups(old(buf.Contents())) && buf.segs != [] && buf.segs[0].misalign + 5 == buf.segs[0].cap
    ensures old(buf.segs) != [] && 5 <= |old(buf.segs)[0].data| && result == -1 ==> buf.segs == old(buf.segs)
  {
    hide Flat, Chained, Confined, Ptrs, CbState.Accounts, Marked, TagAt;
    ghost var at0, s0, s := buf.mem.at, buf.spine, buf.Contents();
    var len := buf.totalLen;
    var data := EvbufferPullup.Pullup(buf, if len < 5 then len else 5);
    if data == EvbufferPullup.Null {
      NothingAt(s);
      return -1, 0, false;
    }
    ghost var at1, s1 := buf.mem.at, buf.spine;
    var past;
    result, tag, past := DecodeTagBytes(buf.mem.at[data.chain].Bytes(0, if len < 5 then len else 5), len, s);
    outside := past && data.index + 5 >= |buf.mem.at[data.chain].buffer|;
    FirstMemory(buf);
    if past {
      TooManyIsNone(s);
    }
    if result == -1 {
      TagLengthOf(s);
      return;
    }
    TagLengthOf(s);
    if dodrain {
      var _ := buf.Drain(result);
      ConfinedTrans(at0, s0, at1, s1, buf.mem.at, buf.spine);
    }
  }

  /** The first chain in memory and as a segment. */
  lemma FirstMemory(buf: EvBuffer)
    requires buf.Linked() && buf.totalLen > 0
    ensures buf.segs != [] && buf.first in buf.mem.at
    ensures var c := buf.mem.at[buf.first]; c.misalign == buf.segs[0].misalign && |c.buffer| == buf.segs[0].cap
  {
    hide Flat, Marked;
    NoSegments();
    buf.TargetAt(0);
  }

  lemma TooManyIsNone(s: seq<byte>)
    requires TooManyGroups(s)
    ensures TagAt(s, 0) == None
  {
    var t1, t2, t3, t4, t5 := s[1..], s[2..], s[3..], s[4..], s[5..];
    assert t1[1..] == t2 && t2[1..] == t3 && t3[1..] == t4 && t4[1..] == t5;
    assert TagAt(t5, 5) == TagAt(t4, 4) == None;
    assert TagAt(t3, 3) == TagAt(t2, 2) == None;
    assert TagAt(t1, 1) == None;
  }

  method FiveAndOne(five: seq<byte>) returns (buf: EvBuffer)
    requires |five| == 5
    ensures fresh(buf) && fresh(buf.mem) && fresh(buf.cb) && buf.Valid() && !buf.freezeStart
    ensures buf.Contents() == five + [0] && buf.segs == [Seg(five, 0, 5, true), Seg([0], 0, 1, true)]
  {
    hide Flat, Chained, Confined, Ptrs, CbState.Accounts, Marked;
    var mem := new Memory();
    buf := new EvBuffer(mem);
    NoSegments();
    var r := buf.AddReference(five);
    assert buf.segs == [Seg(five, 0, 5, true)];
    r := buf.AddReference([0]);
  }

  /**
   * Five bytes added by reference, which all announce another one, and that one in the next chain: the
   * five are not moved when they are pulled up, so the sixth is read behind their memory.
   */
  method SixthByte() returns (buf: EvBuffer, result: int, tag: nat, ghost outside: bool)
    ensures buf.Contents() == [128, 128, 128, 128, 128, 0] && result == -1 && outside
  {
    hide Flat, Chained, Confined, Ptrs, CbState.Accounts, Marked, TagAt;
    buf := FiveAndOne([128, 128, 128, 128, 128]);
    TooManyIsNone(buf.Contents());
    result, tag, outside := DecodeTag(buf, true);
  }

  lemma NothingAt(s: seq<byte>)
    ensures s == [] ==> TagAt(s, 0) == None && forall m :: IntAt(s, m) == None
  {
  }

  lemma TagLengthOf(s: seq<byte>)
    ensures TagAt(s, 0).Some? ==> 1 <= TagAt(s, 0).value.1 <= 5 && TagAt(s, 0).value.1 <= |s|
  {
    if TagAt(s, 0).Some? {
      TagLength(s, 0);
    }
  }

  /** `evbuffer_pullup(evbuf, offset + n) + offset`, which does not fail if there is so much. */
  method PulledUp(buf: EvBuffer, offset: nat, n: nat) returns (data: seq<byte>)
    requires buf.Valid() && 0 < n <= 9 && offset + n <= buf.totalLen && offset <= INT_MAX
    modifies buf, buf.mem
    ensures buf.Valid() && buf.SameSettings() && Confined(old(buf.mem.at), old(buf.spine), buf.mem.at, buf.spine)
    ensures buf.Contents() == old(buf.Contents())
    ensures data == buf.Contents()[offset..][..n]
  {
    hide Flat, Chained, Confined, Ptrs, CbState.Accounts, Marked;
    var p := EvbufferPullup.Pullup(buf, offset + n);
    var c := buf.mem.at[p.chain];
    data := c.Bytes(offset, n);
    assert c.Bytes(0, offset + n) == buf.Contents()[..offset + n];
    assert data == c.Bytes(0, offset + n)[offset..];
    FirstOfRest(buf.Contents(), offset, n, data, c.Bytes(0, offset + n));
  }

  lemma FirstOfRest(c: seq<byte>, offset: nat, len: nat, data: seq<byte>, all: seq<byte>)
    requires offset + len <= |c| && all == c[..offset + len] && data == all[offset..]
    ensures data == c[offset..][..len]
  {
  }

  /** decode_int_internal and decode_int64_internal, which do not drain. */
  method DecodeIntInternal(buf: EvBuffer, offset: nat, maxNibbles: nat) returns (result: int, number: nat)
    requires buf.Valid() && buf.totalLen <= SSIZE_MAX && 0 < maxNibbles <= 16 && offset <= buf.totalLen
             && offset <= INT_MAX
    modifies buf, buf.mem
    ensures buf.Valid() && buf.SameSettings() && Confined(old(buf.mem.at), old(buf.spine), buf.mem.at, buf.spine)
    ensures buf.Contents() == old(buf.Contents())
    ensures match IntAt(buf.Contents()[offset..], maxNibbles)
            case None => result == -1
            case Some((n, k)) => result == k && number == n < Pow16(maxNibbles) && 1 <= k <= 9
                                 && offset + k <= buf.totalLen
  {
    hide Flat, Chained, Confined, Ptrs, CbState.Accounts, Marked, Slice, Number, Pow16, IntAt;
    ChainedIn(buf.mem.at, buf.spine, buf.segs);
    ConfinedSame(buf.mem.at, buf.spine);
    ghost var at0, s0, s := buf.mem.at, buf.spine, buf.Contents()[offset..];
    var len := buf.totalLen - offset;
    NothingAt(s);
    if len <= 0 {
      return -1, 0;
    }
    var data := PulledUp(buf, offset, 1);
    ghost var at1, s1 := buf.mem.at, buf.spine;
    var nibbles := data[0] / 16 + 1;
    assert data[0] == s[0];
    if nibbles > maxNibbles || nibbles / 2 + 1 > len {
      IntIs(s, [], maxNibbles);
      return -1, 0;
    }
    len := nibbles / 2 + 1;
    data := PulledUp(buf, offset, len);
    ConfinedTrans(at0, s0, at1, s1, buf.mem.at, buf.spine);
    number := DecodeNibbles(data, nibbles, maxNibbles);
    IntIs(s, data, maxNibbles);
    result := len;
  }

  /** What is decoded depends on the bytes of the integer only. */
  lemma IntIs(s: seq<byte>, data: seq<byte>, maxNibbles: nat)
    requires s != []
    ensures var k := s[0] / 16 + 1;
            if k > maxNibbles || k / 2 + 1 > |s| then IntAt(s, maxNibbles) == None
            else data == s[..k / 2 + 1] ==> IntAt(s, maxNibbles) == Some((Number(Slice(data, 1, k + 1)), k / 2 + 1))
  {
    var k := s[0] / 16 + 1;
    if k <= maxNibbles && k / 2 + 1 <= |s| && data == s[..k / 2 + 1] {
      SliceOfFirst(data, s[k / 2 + 1..], 1, k + 1);
      assert data + s[k / 2 + 1..] == s;
    }
  }

  /** evtag_decode_int and evtag_decode_int64 */
  method DecodeInt(buf: EvBuffer, maxNibbles: nat) returns (result: int, number: nat)
    requires buf.Valid() && buf.totalLen <= SSIZE_MAX && 0 < maxNibbles <= 16
    modifies buf, buf.mem, buf.cb
    ensures buf.Valid() && buf.SameSettings() && Confined(old(buf.mem.at), old(buf.spine), buf.mem.at, buf.spine)
    ensures match IntAt(old(buf.Contents()), maxNibbles)
            case None => result == -1 && buf.Contents() == old(buf.Contents())
            case Some((n, k)) =>
              result == 0 && number == n < Pow16(maxNibbles)
                && buf.Contents() == Cut(old(buf.Contents()), k, buf.freezeStart)
  {
    hide Flat, Chained, Confined, Ptrs, CbState.Accounts, Marked, IntAt, Pow16;
    ghost var at0, s0, s := buf.mem.at, buf.spine, buf.Contents();
    assert s[0..] == s;
    var res;
    res, number := DecodeIntInternal(buf, 0, maxNibbles);
    ghost var at1, s1 := buf.mem.at, buf.spine;
    if res == -1 {
      return -1, 0;
    }
    var _ := buf.Drain(res);
    ConfinedTrans(at0, s0, at1, s1, buf.mem.at, buf.spine);
    result := 0;
  }

  /** A length or -1, and what the buffer holds then: the header has gone as far as it was read. */
  ghost function HeaderOf(s: seq<byte>, frozen: bool): (int, seq<byte>) {
    match TagAt(s, 0)
    case None => (-1, s)
    case Some((_, c)) =>
      var s1 := Cut(s, c, frozen);
      match IntAt(s1, 8)
      case None => (-1, s1)
      case Some((n, k)) =>
        var s2 := Cut(s1, k, frozen);
        (if |s2| < n then -1 else Int32(n), s2)
  }

  /** evtag_unmarshal_header */
  method UnmarshalHeader(buf: EvBuffer) returns (len: int, tag: nat)
    requires buf.Valid() && buf.totalLen <= SSIZE_MAX
    modifies buf, buf.mem, buf.cb
    ensures buf.Valid() && buf.SameSettings() && Confined(old(buf.mem.at), old(buf.spine), buf.mem.at, buf.spine)
    ensures (len, buf.Contents()) == HeaderOf(old(buf.Contents()), buf.freezeStart)
    ensures len != -1 ==> TagAt(old(buf.Contents()), 0).Some? && tag == TagAt(old(buf.Contents()), 0).value.0
    ensures |buf.Contents()| <= |old(buf.Contents())| && len <= |buf.Contents()|
  {
    hide Flat, Chained, Confined, Ptrs, CbState.Accounts, Marked, IntAt, TagAt, Pow16;
    ghost var at0, s0 := buf.mem.at, buf.spine;
    var result, n;
    ghost var outside;
    result, tag, outside := DecodeTag(buf, true);
    ghost var at1, s1 := buf.mem.at, buf.spine;
    if result == -1 {
      return -1, 0;
    }
    result, n := DecodeInt(buf, 8);
    ConfinedTrans(at0, s0, at1, s1, buf.mem.at, buf.spine);
    if result == -1 {
      return -1, tag;
    }
    if buf.totalLen < n {
      return -1, tag;
    }
    len := Int32(n);
  }

  ghost function ConsumeOf(s: seq<byte>, frozen: bool): (int, seq<byte>) {
    var (len, s') := HeaderOf(s, frozen);
    if len == -1 || len < -LIMIT then (-1, s') else (0, Cut(s', SizeT(len), frozen))
  }

  /** evtag_consume */
  method Consume(buf: EvBuffer) returns (result: int)
    requires buf.Valid() && buf.totalLen <= SSIZE_MAX
    modifies buf, buf.mem, buf.cb
    ensures buf.Valid() && buf.SameSettings() && Confined(old(buf.mem.at), old(buf.spine), buf.mem.at, buf.spine)
    ensures (result, buf.Contents()) == ConsumeOf(old(buf.Contents()), buf.freezeStart)
  {
    hide Flat, Chained, Confined, Ptrs, CbState.Accounts, Marked, HeaderOf;
    ghost var at0, s0 := buf.mem.at, buf.spine;
    HeaderBound(buf.Contents(), buf.freezeStart);
    var len, _ := UnmarshalHeader(buf);
    ghost var at1, s1 := buf.mem.at, buf.spine;
    if len == -1 {
      return -1;
    }
    var _ := buf.Drain(SizeT(len));
    ConfinedTrans(at0, s0, at1, s1, buf.mem.at, buf.spine);
    result := 0;
  }

  lemma HeaderBound(s: seq<byte>, frozen: bool)
    ensures -LIMIT <= HeaderOf(s, frozen).0 < LIMIT
  {
  }

  /** The tag, the length of the data, and the bytes both take; or None. */
  ghost function PeekOf(s: seq<byte>): Option<(nat, nat)> {
    match TagAt(s, 0)
    case None => None
    case Some((_, c)) =>
      match IntAt(Cut(s, c, false), 8)
      case None => None
      case Some((n, k)) => Some((n, c + k))
  }

  /** evtag_peek_length: the whole length of the next record, as an unsigned 32-bit number. */
  method PeekLength(buf: EvBuffer) returns (result: int, length: nat)
    requires buf.Valid() && buf.totalLen <= SSIZE_MAX
    modifies buf, buf.mem, buf.cb
    ensures buf.Valid() && buf.SameSettings() && Confined(old(buf.mem.at), old(buf.spine), buf.mem.at, buf.spine)
    ensures buf.Contents() == old(buf.Contents())
    ensures match PeekOf(buf.Contents())
            case None => result == -1
            case Some((n, h)) => result == 0 && length == (n + h) % TWO32
  {
    hide Flat, Chained, Confined, Ptrs, CbState.Accounts, Marked, IntAt, TagAt, Pow16;
    ghost var at0, s0, s := buf.mem.at, buf.spine, buf.Contents();
    var len, tag, outside := DecodeTag(buf, false);
    ghost var at1, s1 := buf.mem.at, buf.spine;
    if len == -1 {
      return -1, 0;
    }
    assert s[len..] == Cut(s, len, false);
    var res, n := DecodeIntInternal(buf, len, 8);
    ConfinedTrans(at0, s0, at1, s1, buf.mem.at, buf.spine);
    if res == -1 {
      return -1, 0;
    }
    result, length := 0, (n + (res + len)) % TWO32;
  }

  /** evtag_payload_length */
  method PayloadLength(buf: EvBuffer) returns (result: int, length: nat)
    requires buf.Valid() && buf.totalLen <= SSIZE_MAX
    modifies buf, buf.mem, buf.cb
    ensures buf.Valid() && buf.SameSettings() && Confined(old(buf.mem.at), old(buf.spine), buf.mem.at, buf.spine)
    ensures buf.Contents() == old(buf.Contents())
    ensures match PeekOf(buf.Contents())
            case None => result == -1
            case Some((n, h)) => result == 0 && length == n
  {
    hide Flat, Chained, Confined, Ptrs, CbState.Accounts, Marked, IntAt, TagAt, Pow16;
    ghost var at0, s0, s := buf.mem.at, buf.spine, buf.Contents();
    var len, tag, outside := DecodeTag(buf, false);
    ghost var at1, s1 := buf.mem.at, buf.spine;
    if len == -1 {
      return -1, 0;
    }
    assert s[len..] == Cut(s, len, false);
    var res;
    res, length := DecodeIntInternal(buf, len, 8);
    ConfinedTrans(at0, s0, at1, s1, buf.mem.at, buf.spine);
    result := if res == -1 then -1 else 0;
  }

  /**
   * evtag_consume takes as many bytes as evtag_peek_length says if and only if the record is complete
   * and its data is shorter than 2^31 bytes, or the record is all there is and shorter than 2^32 bytes.
   * It succeeds if and only if the record is complete, except for 2^32 - 1 bytes of data.
   */
  lemma PeekIsConsumed(s: seq<byte>)
    requires PeekOf(s).Some? && |s| <= SSIZE_MAX
    ensures var (n, h) := PeekOf(s).value;
            && (|s| - |ConsumeOf(s, false).1| == (n + h) % TWO32
                <==> |s| >= n + h && (n < LIMIT || |s| == n + h < TWO32))
            && (ConsumeOf(s, false).0 == 0 <==> |s| >= n + h && n != TWO32 - 1)
  {
    hide IntAt, TagAt, Pow16;
    TagLengthOf(s);
    var c := TagAt(s, 0).value.1;
    var s1 := Cut(s, c, false);
    IntLengthOf(s1, 8);
    var (n, k) := IntAt(s1, 8).value;
    IntBelow(s1, 8);
    Powers();
    var s2 := Cut(s1, k, false);
    assert |s2| == |s| - c - k && PeekOf(s).value == (n, c + k);
    Consumed(s2, n);
    assert ConsumeOf(s, false) == ConsumedData(s2, n);
  }

  /** The result of evtag_consume, and what is left, for what stands behind a header that announces `n` bytes. */
  ghost function ConsumedData(s2: seq<byte>, n: nat): (int, seq<byte>)
    requires n < TWO32
  {
    if |s2| < n || n == TWO32 - 1 then (-1, s2) else if n < LIMIT then (0, s2[n..]) else (0, [])
  }

  /** A length of 2^31 bytes or more becomes negative as an int, and huge as a size_t; 2^32 - 1 becomes -1, an error. */
  lemma Consumed(s2: seq<byte>, n: nat)
    requires n < TWO32 && |s2| <= SSIZE_MAX
    ensures ConsumedData(s2, n) ==
            var len := if |s2| < n then -1 else Int32(n);
            if len == -1 || len < -LIMIT then (-1, s2) else (0, Cut(s2, SizeT(len), false))
  {
    assert n == |s2| ==> s2[n..] == [];
  }

  lemma IntBelow(s: seq<byte>, maxNibbles: nat)
    requires IntAt(s, maxNibbles).Some? && maxNibbles <= 16
    ensures IntAt(s, maxNibbles).value.0 < Pow16(maxNibbles)
  {
    var k := s[0] / 16 + 1;
    SliceBound(s, 1, k + 1);
    PowersGrow(k, maxNibbles);
  }

  lemma IntLengthOf(s: seq<byte>, maxNibbles: nat)
    requires IntAt(s, maxNibbles).Some? && maxNibbles <= 16
    ensures 1 <= IntAt(s, maxNibbles).value.1 <= 9 && IntAt(s, maxNibbles).value.1 <= |s|
  {
  }

  /** The result, what is left of the source, and what the destination holds. */
  ghost function UnmarshalOf(s: seq<byte>, sFrozen: bool, d: seq<byte>, dFrozen: bool): (int, seq<byte>, seq<byte>) {
    var (len, s') := HeaderOf(s, sFrozen);
    if len < 0 || len > |s'| || dFrozen || len > SIZE_MAX - |d| then (-1, s', d)
    else (len, Cut(s', len, sFrozen), d + s'[..len])
  }

  /** `data` is what the source begins with; it goes to the end of the destination. */
  method Take(src: EvBuffer, dst: EvBuffer, len: nat) returns (result: int)
    requires EvbufferRuns.Ready(src, dst) && len < LIMIT && len <= src.totalLen
    modifies src, dst, src.mem, src.cb, dst.cb
    ensures EvbufferRuns.Ready(src, dst) && src.SameSettings() && dst.SameSettings()
    ensures Confined(old(src.mem.at), old(src.spine + dst.spine), src.mem.at, src.spine + dst.spine)
    ensures var s, d := old(src.Contents()), old(dst.Contents());
            if dst.freezeEnd || len > SIZE_MAX - |d| then result == -1 && src.Contents() == s && dst.Contents() == d
            else result == len && src.Contents() == Cut(s, len, src.freezeStart) && dst.Contents() == d + s[..len]
  {
    hide Flat, Chained, Confined, Ptrs, CbState.Accounts, Marked;
    ghost var at0, s0, t0 := src.mem.at, src.spine, dst.spine;
    var p := EvbufferPullup.Pullup(src, len);
    EvbufferRuns.Bystander(src, dst, at0, s0);
    ghost var at1, s1 := src.mem.at, src.spine;
    var data := if p.At? then src.mem.at[p.chain].Bytes(0, len) else [];
    EvbufferRuns.ApartOrder(src, dst);
    result := dst.Add(data);
    EvbufferRuns.Bystander(dst, src, at1, t0);
    EvbufferRuns.ConfinedOrder(at1, t0, s1, src.mem.at, dst.spine, src.spine);
    ConfinedTrans(at0, s0 + t0, at1, s1 + t0, src.mem.at, src.spine + dst.spine);
    if result == -1 {
      return;
    }
    ghost var at2, s2 := src.mem.at, src.spine;
    var _ := src.Drain(len);
    EvbufferRuns.Bystander(src, dst, at2, s2);
    ConfinedTrans(at0, s0 + t0, at2, s2 + dst.spine, src.mem.at, src.spine + dst.spine);
    result := len;
  }

  /** evtag_unmarshal. A negative length is a huge one for evbuffer_add, which does not find the memory. */
  method Unmarshal(src: EvBuffer, dst: EvBuffer) returns (result: int, tag: nat)
    requires EvbufferRuns.Ready(src, dst) && src.totalLen <= SSIZE_MAX
    modifies src, dst, src.mem, src.cb, dst.cb
    ensures EvbufferRuns.Ready(src, dst) && src.SameSettings() && dst.SameSettings()
    ensures Confined(old(src.mem.at), old(src.spine + dst.spine), src.mem.at, src.spine + dst.spine)
    ensures (result, src.Contents(), dst.Contents())
            == UnmarshalOf(old(src.Contents()), src.freezeStart, old(dst.Contents()), dst.freezeEnd)
    ensures result != -1 ==> TagAt(old(src.Contents()), 0).Some? && tag == TagAt(old(src.Contents()), 0).value.0
    ensures |src.Contents()| <= |old(src.Contents())|
  {
    hide Flat, Chained, Confined, Ptrs, CbState.Accounts, Marked, HeaderOf, TagAt;
    ghost var at0, s0, t0 := src.mem.at, src.spine, dst.spine;
    HeaderBound(src.Contents(), src.freezeStart);
    var len;
    len, tag := UnmarshalHeader(src);
    EvbufferRuns.Bystander(src, dst, at0, s0);
    ghost var at1, s1 := src.mem.at, src.spine;
    if len < 0 {
      return -1, tag;
    }
    result := Take(src, dst, len);
    ConfinedTrans(at0, s0 + t0, at1, s1 + t0, src.mem.at, src.spine + dst.spine);
  }

  // -------- integers and times

  ghost function MarshalOf(c: seq<byte>, frozen: bool, tag: nat, data: seq<byte>): seq<byte>
    requires |data| < TWO32
  {
    Added(Added(Added(c, frozen, TagBytes(tag)), frozen, Length(|data|)), frozen, data)
  }

  /** evtag_marshal_int and evtag_marshal_int64 */
  method MarshalInt(buf: EvBuffer, tag: nat, width: nat, integer: nat)
    requires buf.Valid() && tag < TWO32 && 0 < width <= 8 && integer < Pow16(2 * width)
    modifies buf, buf.mem, buf.cb
    ensures buf.Valid() && buf.SameSettings() && Confined(old(buf.mem.at), old(buf.spine), buf.mem.at, buf.spine)
    ensures integer < Pow16(16)
            && buf.Contents() == MarshalOf(old(buf.Contents()), buf.freezeEnd, tag, IntBytes(integer))
  {
    hide Flat, Chained, Confined, Ptrs, CbState.Accounts, Marked, Added, TagBytes, IntBytes, IsInt, Pow16;
    ghost var at0, s0 := buf.mem.at, buf.spine;
    PowersGrow(2 * width, 16);
    Powers();
    var data := new byte[width + 1];
    var len := EncodeIntInternal(data, 0, width, integer);
    IntBytesOnly(Field(data, 0, len), integer);
    FieldLength(data, 0, len);
    assert data[..len] == IntBytes(integer);
    Marshal(buf, tag, data[..len]);
  }

  /** evtag_marshal_timeval: seconds and microseconds, each cut to 32 bits. */
  method MarshalTimeval(buf: EvBuffer, tag: nat, sec: int, usec: int)
    requires buf.Valid() && tag < TWO32
    modifies buf, buf.mem, buf.cb
    ensures buf.Valid() && buf.SameSettings() && Confined(old(buf.mem.at), old(buf.spine), buf.mem.at, buf.spine)
    ensures buf.Contents() == MarshalOf(old(buf.Contents()), buf.freezeEnd, tag, TimeBytes(sec, usec))
  {
    hide Flat, Chained, Confined, Ptrs, CbState.Accounts, Marked, Added, TagBytes, IntBytes, IsInt, Pow16, Field,
         Elsewhere;
    Powers();
    PowersGrow(8, 16);
    var data := new byte[10];
    var len := EncodeIntInternal(data, 0, 4, sec % TWO32);
    ghost var was := data[..];
    FieldLength(data, 0, len);
    assert Field(data, 0, len) == was[..len];
    var more := EncodeIntInternal(data, len, 4, usec % TWO32);
    IntBytesOnly(Field(data, len, more), usec % TWO32);
    FirstStays(data, was, len, more, sec % TWO32);
    Marshal(buf, tag, data[..len + more]);
  }

  ghost function TimeBytes(sec: int, usec: int): (s: seq<byte>)
    ensures |s| <= 18
  {
    Length(sec % TWO32) + Length(usec % TWO32)
  }

  /** The second integer does not touch the first. */
  lemma FirstStays(data: array<byte>, was: seq<byte>, len: nat, more: nat, n: nat)
    requires data.Length == 10 == |was| && 0 < len <= 5 && 0 < more <= 5 && n < TWO32 < Pow16(16)
    requires IsInt(was[..len], n) && Elsewhere(data, len, 5, was)
    ensures data[..len + more] == IntBytes(n) + Field(data, len, more)
  {
    hide IntBytes, IsInt, Pow16;
    IntBytesOnly(was[..len], n);
    assert data[..len] == was[..len];
    assert data[..len + more] == data[..len] + data[len..len + more];
  }

  /** The result, the integer that is handed over, and what is left. */
  ghost function UnmarshalIntOf(s: seq<byte>, frozen: bool, need: nat, maxNibbles: nat): (int, nat, seq<byte>) {
    match TagAt(s, 0)
    case None => (-1, 0, s)
    case Some((tag, c)) =>
      var s1 := Cut(s, c, frozen);
      if tag != need then (-1, 0, s1) else
        match IntAt(s1, 8)
        case None => (-1, 0, s1)
        case Some((len, k)) =>
          var s2 := Cut(s1, k, frozen);
          if |s2| < len then (-1, 0, s2) else
            match IntAt(s2, maxNibbles)
            case None => (-1, 0, Cut(s2, len, frozen))
            case Some((n, j)) => (if j > len then -1 else j, n, Cut(s2, len, frozen))
  }

  /** evtag_unmarshal_int and evtag_unmarshal_int64 */
  method UnmarshalInt(buf: EvBuffer, needTag: nat, maxNibbles: nat) returns (result: int, integer: nat)
    requires buf.Valid() && buf.totalLen <= SSIZE_MAX && 0 < maxNibbles <= 16
    modifies buf, buf.mem, buf.cb
    ensures buf.Valid() && buf.SameSettings() && Confined(old(buf.mem.at), old(buf.spine), buf.mem.at, buf.spine)
    ensures var r := UnmarshalIntOf(old(buf.Contents()), buf.freezeStart, needTag, maxNibbles);
            result == r.0 && buf.Contents() == r.2 && (result != -1 ==> integer == r.1)
    ensures result != -1 ==> TagAt(old(buf.Contents()), 0).Some? && TagAt(old(buf.Contents()), 0).value.0 == needTag
    ensures !buf.freezeStart && TagAt(old(buf.Contents()), 0).Some?
            && TagAt(old(buf.Contents()), 0).value.0 != needTag ==>
              result == -1 && TagAt(old(buf.Contents()), 0).value.1 <= |old(buf.Contents())|
              && buf.Contents() == old(buf.Contents())[TagAt(old(buf.Contents()), 0).value.1..]
  {
    hide Flat, Chained, Confined, Ptrs, CbState.Accounts, Marked, IntAt, TagAt, Pow16;
    ghost var at0, s0 := buf.mem.at, buf.spine;
    var r, tag, outside := DecodeTag(buf, true);
    ghost var at1, s1 := buf.mem.at, buf.spine;
    if r == -1 || needTag != tag {
      return -1, 0;
    }
    var len;
    r, len := DecodeInt(buf, 8);
    ConfinedTrans(at0, s0, at1, s1, buf.mem.at, buf.spine);
    ghost var at2, s2 := buf.mem.at, buf.spine;
    if r == -1 || buf.totalLen < len {
      return -1, 0;
    }
    assert buf.Contents()[0..] == buf.Contents();
    result, integer := DecodeIntInternal(buf, 0, maxNibbles);
    ConfinedTrans(at0, s0, at2, s2, buf.mem.at, buf.spine);
    ghost var at3, s3 := buf.mem.at, buf.spine;
    var _ := buf.Drain(len);
    ConfinedTrans(at0, s0, at3, s3, buf.mem.at, buf.spine);
    if result < 0 || result > len {
      result := -1;
    }
  }

  /** Whether a time could be read, and the time. */
  ghost function TimeAt(s: seq<byte>, len: int): Option<(nat, nat)> {
    match IntAt(s, 8)
    case None => None
    case Some((sec, j)) =>
      match IntAt(Cut(s, j, false), 8)
      case None => None
      case Some((usec, k)) => if j + k > len then None else Some((sec, usec))
  }

  ghost function UnmarshalTimevalOf(s: seq<byte>, frozen: bool, need: nat): (int, Option<(nat, nat)>, seq<byte>) {
    var (len, s') := HeaderOf(s, frozen);
    if len == -1 || len < -LIMIT || TagAt(s, 0).None? then (-1, None, s') else
      var t := if TagAt(s, 0).value.0 == need then TimeAt(s', len) else None;
      (if t.None? then -1 else 0, t, Cut(s', SizeT(len), frozen))
  }

  /** evtag_unmarshal_timeval */
  method UnmarshalTimeval(buf: EvBuffer, needTag: nat) returns (result: int, sec: nat, usec: nat)
    requires buf.Valid() && buf.totalLen <= SSIZE_MAX
    modifies buf, buf.mem, buf.cb
    ensures buf.Valid() && buf.SameSettings() && Confined(old(buf.mem.at), old(buf.spine), buf.mem.at, buf.spine)
    ensures var r := UnmarshalTimevalOf(old(buf.Contents()), buf.freezeStart, needTag);
            result == r.0 && buf.Contents() == r.2 && (result == 0 ==> r.1 == Some((sec, usec)))
    ensures result == 0 ==> TagAt(old(buf.Contents()), 0).Some? && TagAt(old(buf.Contents()), 0).value.0 == needTag
  {
    hide Flat, Chained, Confined, Ptrs, CbState.Accounts, Marked, IntAt, TagAt, Pow16, HeaderOf;
    ghost var at0, s0 := buf.mem.at, buf.spine;
    HeaderBound(buf.Contents(), buf.freezeStart);
    var len, tag := UnmarshalHeader(buf);
    result, sec, usec := -1, 0, 0;
    if len == -1 {
      return;
    }
    ghost var at1, s1 := buf.mem.at, buf.spine;
    if tag == needTag {
      result, sec, usec := DecodeTwo(buf, len);
      ConfinedTrans(at0, s0, at1, s1, buf.mem.at, buf.spine);
    }
    ghost var at2, s2 := buf.mem.at, buf.spine;
    var _ := buf.Drain(SizeT(len));
    ConfinedTrans(at0, s0, at2, s2, buf.mem.at, buf.spine);
  }

  /** The two integers of a time. */
  method DecodeTwo(buf: EvBuffer, len: int) returns (result: int, sec: nat, usec: nat)
    requires buf.Valid() && buf.totalLen <= SSIZE_MAX
    modifies buf, buf.mem
    ensures buf.Valid() && buf.SameSettings() && Confined(old(buf.mem.at), old(buf.spine), buf.mem.at, buf.spine)
    ensures buf.Contents() == old(buf.Contents())
    ensures match TimeAt(buf.Contents(), len)
            case None => result == -1
            case Some(t) => result == 0 && t == (sec, usec)
  {
    hide Flat, Chained, Confined, Ptrs, CbState.Accounts, Marked, IntAt, Pow16;
    ghost var at0, s0, s := buf.mem.at, buf.spine, buf.Contents();
    result, sec, usec := -1, 0, 0;
    assert s[0..] == s;
    var offset, integer := DecodeIntInternal(buf, 0, 8);
    if offset == -1 {
      return;
    }
    ghost var at1, s1 := buf.mem.at, buf.spine;
    sec := integer;
    assert s[offset..] == Cut(s, offset, false);
    var offset2;
    offset2, integer := DecodeIntInternal(buf, offset, 8);
    ConfinedTrans(at0, s0, at1, s1, buf.mem.at, buf.spine);
    if offset2 == -1 {
      return;
    }
    usec := integer;
    if offset + offset2 > len {
      return;
    }
    result := 0;
  }

  // -------- what is written can be read

  /** The header of a record in front of anything. */
  lemma HeaderRoundTrip(r: Record, rest: seq<byte>)
    requires r.tag < TWO32 && |r.data| < TWO32
    ensures var s := Encoded(r) + rest;
            && HeaderOf(s, false) == (Int32(|r.data|), r.data + rest)
            && (r.Fits() ==> Int32(|r.data|) == |r.data|)
            && TagAt(s, 0).Some? && TagAt(s, 0).value.0 == r.tag
            && PeekOf(s) == Some((|r.data|, |TagBytes(r.tag)| + |Length(|r.data|)|))
            && Cut(s, TagAt(s, 0).value.1, false) == Length(|r.data|) + (r.data + rest)
  {
    hide IntAt, TagAt, Pow16, TagBytes, Length;
    var n: nat := |r.data|;
    var s, t, l := Encoded(r) + rest, TagBytes(r.tag), LengthIs(n);
    Three(t, l, r.data, rest);
    TagLimit();
    TagRoundTrip(r.tag, 0, l + (r.data + rest));
    Powers();
    IntRoundTrip(l, n, 8, r.data + rest);
    CutFirst(t, l + (r.data + rest));
    CutFirst(l, r.data + rest);
  }

  lemma Three(a: seq<byte>, b: seq<byte>, c: seq<byte>, d: seq<byte>)
    ensures a + b + c + d == a + (b + (c + d))
  {
  }

  lemma CutFirst(a: seq<byte>, b: seq<byte>)
    ensures Cut(a + b, |a|, false) == b
  {
  }

  /** A length in front of data. */
  ghost function LengthIs(n: nat): (l: seq<byte>)
    requires n < TWO32
    ensures l == Length(n) && IsInt(l, n)
  {
    Powers();
    Length(n)
  }

  /** Records of 2^31 bytes or more: everything behind them goes too, or, at 2^32 - 1 bytes, only the header. */
  lemma LongConsumed(r: Record, rest: seq<byte>)
    requires r.tag < TWO32 && LIMIT <= |r.data| < TWO32 && |Encoded(r) + rest| <= SSIZE_MAX
    ensures ConsumeOf(Encoded(r) + rest, false) == if |r.data| == TWO32 - 1 then (-1, r.data + rest) else (0, [])
  {
    hide HeaderOf, TagAt, PeekOf, Encoded;
    HeaderRoundTrip(r, rest);
    Consumed(r.data + rest, |r.data|);
  }

  /** evtag_unmarshal gives back the data of the record and leaves what follows it. */
  lemma RecordRoundTrip(r: Record, rest: seq<byte>, d: seq<byte>)
    requires r.Fits() && |d| + |r.data| <= SIZE_MAX
    ensures UnmarshalOf(Encoded(r) + rest, false, d, false) == (|r.data|, rest, d + r.data)
  {
    hide HeaderOf, TagAt, PeekOf;
    HeaderRoundTrip(r, rest);
    CutFirst(r.data, rest);
  }

  /** An integer of 32 or 64 bits comes back as it was. */
  lemma IntegerRoundTrip(tag: nat, width: nat, n: nat, rest: seq<byte>)
    requires tag < TWO32 && 0 < width <= 8 && n < Pow16(2 * width) <= Pow16(16)
    ensures UnmarshalIntOf(Encoded(Record(tag, IntBytes(n))) + rest, false, tag, 2 * width) == (|IntBytes(n)|, n, rest)
  {
    hide IntAt, TagAt, Pow16, TagBytes, Length, HeaderOf, IsInt;
    var r := Record(tag, IntBytes(n));
    HeaderRoundTrip(r, rest);
    IntRoundTrip(r.data, n, 2 * width, rest);
    var l := LengthIs(|r.data|);
    Powers();
    IntRoundTrip(l, |r.data|, 8, r.data + rest);
    CutFirst(l, r.data + rest);
    CutFirst(r.data, rest);
  }

  /**
   * Any record, whatever tag is asked for: if it has another tag, the bytes of its tag go and nothing
   * else; if not, the record goes, and its integer is handed over unless it goes on behind the record.
   */
  lemma AnyInteger(r: Record, need: nat, maxNibbles: nat, rest: seq<byte>)
    requires r.tag < TWO32 && |r.data| < TWO32
    ensures
      UnmarshalIntOf(Encoded(r) + rest, false, need, maxNibbles) ==
      if need != r.tag then (-1, 0, Length(|r.data|) + (r.data + rest))
      else match IntAt(r.data + rest, maxNibbles)
           case None => (-1, 0, rest)
           case Some((n, j)) => (if j <= |r.data| then j else -1, n, rest)
  {
    hide IntAt, TagAt, Pow16, TagBytes, Length, HeaderOf, IsInt;
    HeaderRoundTrip(r, rest);
    var l := LengthIs(|r.data|);
    Powers();
    IntRoundTrip(l, |r.data|, 8, r.data + rest);
    CutFirst(l, r.data + rest);
    CutFirst(r.data, rest);
  }

  /** A record with fewer bytes than it announces: the header goes, and what there is of the data stays. */
  lemma CutShort(tag: nat, len: nat, part: seq<byte>, maxNibbles: nat)
    requires tag < TWO32 && |part| < len < TWO32
    ensures UnmarshalIntOf(TagBytes(tag) + (Length(len) + part), false, tag, maxNibbles) == (-1, 0, part)
    ensures UnmarshalTimevalOf(TagBytes(tag) + (Length(len) + part), false, tag) == (-1, None, part)
    ensures HeaderOf(TagBytes(tag) + (Length(len) + part), false) == (-1, part)
  {
    hide IntAt, TagAt, Pow16, TagBytes, Length, IsInt;
    var l := LengthIs(len);
    TagLimit();
    TagRoundTrip(tag, 0, l + part);
    Powers();
    IntRoundTrip(l, len, 8, part);
    CutFirst(TagBytes(tag), l + part);
    CutFirst(l, part);
  }

  /** The same for times: a record with another tag goes too, and one with a time that goes on behind it is refused. */
  lemma AnyTime(r: Record, need: nat, rest: seq<byte>)
    requires r.Fits()
    ensures
      var (result, time, left) := UnmarshalTimevalOf(Encoded(r) + rest, false, need);
      && left == rest && (result == 0 <==> time.Some?) && (result == -1 <==> time.None?)
      && (need != r.tag ==> result == -1)
      && (need == r.tag ==>
            match IntAt(r.data + rest, 8)
            case None => result == -1
            case Some((sec, j)) =>
              j <= |r.data + rest| &&
              match IntAt((r.data + rest)[j..], 8)
              case None => result == -1
              case Some((usec, k)) => if j + k <= |r.data| then time == Some((sec, usec)) else result == -1)
  {
    hide IntAt, TagAt, Pow16, TagBytes, Length, HeaderOf, IsInt;
    HeaderRoundTrip(r, rest);
    CutFirst(r.data, rest);
    if IntAt(r.data + rest, 8).Some? {
      IntLengthOf(r.data + rest, 8);
      var j := IntAt(r.data + rest, 8).value.1;
      assert Cut(r.data + rest, j, false) == (r.data + rest)[j..];
    }
  }

  /** A time comes back with both parts modulo 2^32. */
  lemma TimeRoundTrip(tag: nat, sec: int, usec: int, rest: seq<byte>)
    requires tag < TWO32
    ensures UnmarshalTimevalOf(Encoded(Record(tag, TimeBytes(sec, usec))) + rest, false, tag)
            == (0, Some((sec % TWO32, usec % TWO32)), rest)
  {
    hide IntAt, TagAt, Pow16, TagBytes, Length, HeaderOf, IsInt;
    var r := Record(tag, TimeBytes(sec, usec));
    HeaderRoundTrip(r, rest);
    var a, b := LengthIs(sec % TWO32), LengthIs(usec % TWO32);
    assert r.data + rest == a + (b + rest);
    Powers();
    IntRoundTrip(a, sec % TWO32, 8, b + rest);
    IntRoundTrip(b, usec % TWO32, 8, rest);
    CutFirst(a, b + rest);
    CutFirst(r.data, rest);
  }

  // -------- streams of records

  ghost predicate AllFit(rs: seq<Record>) {
    forall i | 0 <= i < |rs| :: rs[i].Fits()
  }

  ghost function Stream(rs: seq<Record>): seq<byte>
    requires AllFit(rs)
  {
    if rs == [] then [] else Encoded(rs[0]) + Stream(rs[1..])
  }

  /** The data of all records. */
  ghost function AllData(rs: seq<Record>): seq<byte> {
    if rs == [] then [] else rs[0].data + AllData(rs[1..])
  }

  /** Writing a list of records. */
  method WriteAll(buf: EvBuffer, rs: seq<Record>)
    requires buf.Valid() && !buf.freezeEnd && AllFit(rs) && buf.totalLen + |Stream(rs)| <= SIZE_MAX
    modifies buf, buf.mem, buf.cb
    ensures buf.Valid() && buf.SameSettings() && Confined(old(buf.mem.at), old(buf.spine), buf.mem.at, buf.spine)
    ensures buf.Contents() == old(buf.Contents()) + Stream(rs)
    decreases |rs|
  {
    hide Flat, Chained, Confined, Ptrs, CbState.Accounts, Marked, Added, Encoded, TagBytes, Length;
    ghost var at0, s0, c := buf.mem.at, buf.spine, buf.Contents();
    if rs == [] {
      ChainedIn(buf.mem.at, buf.spine, buf.segs);
      ConfinedSame(buf.mem.at, buf.spine);
      assert c + [] == c;
      return;
    }
    WholeRecord(c, rs[0]);
    Marshal(buf, rs[0].tag, rs[0].data);
    ghost var at1, s1 := buf.mem.at, buf.spine;
    Glue(c, Encoded(rs[0]), Stream(rs[1..]));
    WriteAll(buf, rs[1..]);
    ConfinedTrans(at0, s0, at1, s1, buf.mem.at, buf.spine);
  }

  lemma Glue(a: seq<byte>, b: seq<byte>, c: seq<byte>)
    ensures a + (b + c) == a + b + c
  {
  }

  /** Reading them back: the same tags and lengths, all the data, and what came behind the records is left. */
  method ReadAll(src: EvBuffer, dst: EvBuffer, n: nat, ghost rs: seq<Record>, ghost rest: seq<byte>)
    returns (tags: seq<nat>, lens: seq<int>)
    requires EvbufferRuns.Ready(src, dst) && src.totalLen <= SSIZE_MAX && !src.freezeStart && !dst.freezeEnd
    requires n == |rs| && AllFit(rs) && src.Contents() == Stream(rs) + rest && dst.totalLen + |AllData(rs)| <= SIZE_MAX
    modifies src, dst, src.mem, src.cb, dst.cb
    ensures EvbufferRuns.Ready(src, dst) && src.SameSettings() && dst.SameSettings()
    ensures Confined(old(src.mem.at), old(src.spine + dst.spine), src.mem.at, src.spine + dst.spine)
    ensures |tags| == n == |lens| && forall i | 0 <= i < n :: tags[i] == rs[i].tag && lens[i] == |rs[i].data|
    ensures src.Contents() == rest && dst.Contents() == old(dst.Contents()) + AllData(rs)
    decreases n
  {
    hide Flat, Chained, Confined, Ptrs, CbState.Accounts, Marked, Encoded, UnmarshalOf, TagAt;
    ghost var at0, s0, d := src.mem.at, src.spine + dst.spine, dst.Contents();
    if n == 0 {
      ChainedIn(src.mem.at, src.spine, src.segs);
      ChainedIn(src.mem.at, dst.spine, dst.segs);
      ConfinedSame(src.mem.at, src.spine + dst.spine);
      assert [] + rest == rest && d + [] == d;
      return [], [];
    }
    ghost var more := Stream(rs[1..]) + rest;
    Glue(Encoded(rs[0]), Stream(rs[1..]), rest);
    RecordRoundTrip(rs[0], more, d);
    HeaderRoundTrip(rs[0], more);
    Glue(d, rs[0].data, AllData(rs[1..]));
    var len, tag := Unmarshal(src, dst);
    ghost var at1, s1 := src.mem.at, src.spine + dst.spine;
    var tags', lens' := ReadAll(src, dst, n - 1, rs[1..], rest);
    ConfinedTrans(at0, s0, at1, s1, src.mem.at, src.spine + dst.spine);
    tags, lens := [tag] + tags', [len] + lens';
    forall i | 0 <= i < n ensures tags[i] == rs[i].tag && lens[i] == |rs[i].data| {
      assert i > 0 ==> rs[i] == rs[1..][i - 1];
    }
  }

  lemma {:induction false} DataInStream(rs: seq<Record>)
    requires AllFit(rs)
    ensures |AllData(rs)| <= |Stream(rs)|
  {
    if rs != [] {
      DataInStream(rs[1..]);
    }
  }

  /** A list of records written to one new buffer and read from it into another one. */
  method RoundTrip(rs: seq<Record>) returns (src: EvBuffer, dst: EvBuffer, tags: seq<nat>, lens: seq<int>)
    requires AllFit(rs) && |Stream(rs)| <= SSIZE_MAX
    ensures src.Valid() && dst.Valid() && src.Contents() == [] && dst.Contents() == AllData(rs)
    ensures |tags| == |rs| == |lens| && forall i | 0 <= i < |rs| :: tags[i] == rs[i].tag && lens[i] == |rs[i].data|
  {
    hide Flat, Chained, Confined, Ptrs, CbState.Accounts, Marked, Stream, AllData;
    var mem := new Memory();
    src := new EvBuffer(mem);
    dst := new EvBuffer(mem);
    ghost var at0, s0 := mem.at, src.spine;
    NoChains(src, dst);
    WriteAll(src, rs);
    EvbufferRuns.Bystander(src, dst, at0, s0);
    DataInStream(rs);
    assert [] + Stream(rs) == Stream(rs) + [] && [] + AllData(rs) == AllData(rs);
    tags, lens := ReadAll(src, dst, |rs|, rs, []);
  }

  lemma NoChains(a: EvBuffer, b: EvBuffer)
    requires a.spine == [] && b.spine == []
    ensures Ptrs(a.spine) !! Ptrs(b.spine)
  {
  }
}
