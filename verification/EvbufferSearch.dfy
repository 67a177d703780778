/** Positions inside an evbuffer, searching for bytes and line ends, and taking bytes out. */
module EvbufferSearch {
  import opened Options
  import opened Segments
  import opened Memory
  import opened BufferCallbacks
  import opened Evbuffer
  import opened EvbufferMove

  /** struct evbuffer_ptr */
  datatype Cursor = Cursor(pos: int, chain: Ptr, inChain: nat)

  /** PTR_NOT_FOUND */
  const NOT_FOUND := Cursor(-1, NULL, 0)

  const CR: byte := 13
  const LF: byte := 10

  /** How many bytes there are in front of segment `k`. */
  ghost function Off(cs: seq<Seg>, k: nat): nat
    requires k <= |cs|
  {
    |Flat(cs[..k])|
  }

  /** The cursor is at position `inChain` of the chain `k`, or behind the last chain. */
  ghost predicate PointsAt(s: seq<Ptr>, cs: seq<Seg>, cur: Cursor, k: nat) {
    && |s| == |cs| && k <= |s| && cur.chain == HeadOf(s[k..]) && cur.pos == Off(cs, k) + cur.inChain
    && cur.inChain <= (if k < |s| then |cs[k].data| else 0)
  }

  /** The cursor is at a byte, and not at the end of a chain. */
  ghost predicate AtByte(cs: seq<Seg>, cur: Cursor, k: nat) {
    k < |cs| ==> cur.inChain < |cs[k].data|
  }

  lemma OffEnds(cs: seq<Seg>)
    ensures Off(cs, 0) == 0 && Off(cs, |cs|) == |Flat(cs)|
  {
    assert cs[..0] == [] && cs[..|cs|] == cs;
  }

  lemma OffNext(cs: seq<Seg>, k: nat)
    requires k < |cs|
    ensures Off(cs, k + 1) == Off(cs, k) + |cs[k].data| <= |Flat(cs)|
    ensures Flat(cs)[Off(cs, k)..Off(cs, k + 1)] == cs[k].data
  {
    FlatNext(cs, k);
    FlatSplit(cs, k + 1);
  }

  /** The part of a segment from `i` on, seen in the contents. */
  lemma PartOf(cs: seq<Seg>, k: nat, i: nat, n: nat)
    requires k < |cs| && i + n <= |cs[k].data|
    ensures Off(cs, k) + i + n <= |Flat(cs)|
    ensures Flat(cs)[Off(cs, k) + i..Off(cs, k) + i + n] == cs[k].data[i..i + n]
  {
    hide Flat, Off;
    OffNext(cs, k);
    SliceOfSlice(Flat(cs), Off(cs, k), Off(cs, k + 1), i, i + n);
  }

  lemma SliceOfSlice<T>(c: seq<T>, a: nat, b: nat, i: nat, j: nat)
    requires i <= j && a + j <= b <= |c|
    ensures c[a..b][i..j] == c[a + i..a + j]
  {
    forall x | 0 <= x < j - i ensures c[a..b][i..j][x] == c[a + i..a + j][x] {
      assert c[a..b][i + x] == c[a + i + x];
    }
  }

  /** What following a cursor finds. */
  lemma Follow(buf: EvBuffer, k: nat)
    requires buf.Linked() && k <= |buf.spine|
    ensures HeadOf(buf.spine[k..]) == NULL <==> k == |buf.spine|
    ensures k < |buf.spine| ==>
              var p := buf.spine[k];
              && HeadOf(buf.spine[k..]) == p && p in buf.mem.at && buf.mem.at[p].InBounds()
              && buf.mem.at[p].View().data == buf.segs[k].data && buf.mem.at[p].off == |buf.segs[k].data|
              && buf.mem.at[p].next == HeadOf(buf.spine[k + 1..])
              && Off(buf.segs, k + 1) == Off(buf.segs, k) + |buf.segs[k].data| <= |Flat(buf.segs)|
    ensures k == |buf.spine| ==> Off(buf.segs, k) == |Flat(buf.segs)|
    ensures Off(buf.segs, 0) == 0 && buf.spine[0..] == buf.spine && buf.totalLen == |Flat(buf.segs)|
  {
    hide Flat, Off, Chained, Marked, Chain.View, Chain.InBounds, Seg.Good;
    buf.TargetAt(k);
    OffEnds(buf.segs);
    if k < |buf.spine| {
      OffNext(buf.segs, k);
    }
  }

  /** The start of the buffer. */
  function Begin(buf: EvBuffer): Cursor
    reads buf
  {
    Cursor(0, buf.first, 0)
  }

  datatype PtrHow = PtrSet | PtrAdd

  /**
   * The loop of evbuffer_ptr_set: `left` bytes on from the cursor, to a chain that has a byte there,
   * or behind the last one.
   */
  method Advance(buf: EvBuffer, cur: Cursor, n: nat, ghost k0: nat) returns (r: Cursor, result: int, ghost k: nat)
    requires buf.Linked() && PointsAt(buf.spine, buf.segs, cur, k0)
    ensures result == if cur.pos + n <= buf.totalLen then 0 else -1
    ensures result == 0 ==> r.pos == cur.pos + n && PointsAt(buf.spine, buf.segs, r, k) && AtByte(buf.segs, r, k)
    ensures result == -1 ==> r == NOT_FOUND
  {
    hide Flat, Off, Chained, Marked, Chain.View, Chain.InBounds, Seg.Good;
    var chain: Ptr, position: nat, left: nat := cur.chain, cur.inChain, n;
    k := k0;
    Follow(buf, k);
    while chain != NULL && position + left >= buf.mem.at[chain].off
      invariant k <= |buf.spine| && PointsAt(buf.spine, buf.segs, Cursor(cur.pos + n - left, chain, position), k)
      invariant chain != NULL <==> k < |buf.spine|
      invariant k < |buf.spine| ==> chain in buf.mem.at && buf.mem.at[chain].off == |buf.segs[k].data|
      decreases |buf.spine| - k
    {
      Follow(buf, k);
      left := left - (buf.mem.at[chain].off - position);
      chain := buf.mem.at[chain].next;
      position := 0;
      k := k + 1;
      Follow(buf, k);
    }
    Follow(buf, k);
    if chain != NULL {
      r, result := Cursor(cur.pos + n, chain, position + left), 0;
    } else if left == 0 {
      r, result := Cursor(cur.pos + n, NULL, 0), 0;
    } else {
      r, result := NOT_FOUND, -1;
    }
  }

  /** evbuffer_ptr_set */
  method PtrSetTo(buf: EvBuffer, cur: Cursor, position: nat, how: PtrHow, ghost k0: nat)
    returns (r: Cursor, result: int, ghost k: nat)
    requires buf.Linked() && position <= SIZE_MAX
    requires how.PtrAdd? && cur.pos >= 0 ==> PointsAt(buf.spine, buf.segs, cur, k0)
    ensures
      var from := if how.PtrSet? then 0 else cur.pos;
      if from < 0 || SIZE_MAX - position < from then result == -1 && r == cur
      else if from + position <= buf.totalLen then result == 0 && r.pos == from + position
      else result == -1 && r == NOT_FOUND
    ensures result == 0 ==> PointsAt(buf.spine, buf.segs, r, k) && AtByte(buf.segs, r, k)
  {
    hide Flat, Off, Chained, Marked, Chain.View, Chain.InBounds, Seg.Good;
    k := 0;
    Follow(buf, 0);
    match how
    case PtrSet =>
      r, result, k := Advance(buf, Begin(buf), position, 0);
    case PtrAdd =>
      if cur.pos < 0 || SIZE_MAX - position < cur.pos {
        return cur, -1, 0;
      }
      r, result, k := Advance(buf, cur, position, k0);
  }

  /** evbuffer_ptr_subtract: back by `howfar`, inside the chain if possible, else from the start. */
  method Subtract(buf: EvBuffer, cur: Cursor, howfar: nat, ghost k0: nat) returns (r: Cursor, result: int, ghost k: nat)
    requires buf.Linked() && buf.totalLen <= SSIZE_MAX
    requires cur.pos >= 0 ==> PointsAt(buf.spine, buf.segs, cur, k0)
    ensures result == if 0 <= howfar <= cur.pos then 0 else -1
    ensures result == 0 ==> r.pos == cur.pos - howfar && PointsAt(buf.spine, buf.segs, r, k)
    ensures result == 0 && 0 < howfar && AtByte(buf.segs, cur, k0) ==> AtByte(buf.segs, r, k)
    ensures result == -1 ==> r == cur
  {
    hide Flat, Off, Chained, Marked, Chain.View, Chain.InBounds, Seg.Good;
    k := k0;
    if cur.pos < 0 {
      return cur, -1, k;
    }
    if howfar > cur.pos {
      return cur, -1, k;
    }
    Follow(buf, k);
    if cur.chain != NULL && howfar <= cur.inChain {
      r, result := cur.(inChain := cur.inChain - howfar, pos := cur.pos - howfar), 0;
    } else {
      OffBound(buf.segs, k);
      r, result, k := PtrSetTo(buf, cur, cur.pos - howfar, PtrSet, 0);
    }
  }

  lemma OffBound(cs: seq<Seg>, k: nat)
    requires k <= |cs|
    ensures Off(cs, k) <= |Flat(cs)|
    ensures k < |cs| ==> Off(cs, k) + |cs[k].data| <= |Flat(cs)|
  {
    FlatSplit(cs, k);
    if k < |cs| {
      OffNext(cs, k);
    }
  }

  /** `what` is found at position `p`. */
  ghost predicate MatchAt(c: seq<byte>, what: seq<byte>, p: int) {
    0 <= p && p + |what| <= |c| && c[p..p + |what|] == what
  }

  /** `what` is not found inside the range. */
  ghost predicate NoneWithin(c: seq<byte>, what: seq<byte>, from: int, limit: int) {
    forall p | from <= p && p + |what| <= limit :: !MatchAt(c, what, p)
  }

  ghost predicate NoMatch(c: seq<byte>, what: seq<byte>, a: int, b: int) {
    forall p | a <= p < b :: !MatchAt(c, what, p)
  }

  /** evbuffer_ptr_memcmp, as far as it is used: is it zero? */
  method PtrMemcmp(buf: EvBuffer, cur: Cursor, what: seq<byte>, ghost k0: nat) returns (equal: bool)
    requires buf.Linked() && buf.totalLen <= SSIZE_MAX && PointsAt(buf.spine, buf.segs, cur, k0)
    ensures equal == MatchAt(buf.Contents(), what, cur.pos)
  {
    hide Flat, Off, Chained, Marked, Chain.View, Chain.InBounds, Seg.Good;
    Follow(buf, k0);
    if cur.pos < 0 || SIZE_MAX - |what| < cur.pos || cur.pos + |what| > buf.totalLen {
      return false;
    }
    var chain: Ptr, position: nat, done: nat := cur.chain, cur.inChain, 0;
    ghost var k: nat, c := k0, buf.Contents();
    while done < |what| && chain != NULL
      invariant k <= |buf.spine| && done <= |what|
      invariant done < |what| ==> PointsAt(buf.spine, buf.segs, Cursor(cur.pos + done, chain, position), k)
      invariant c[cur.pos..cur.pos + done] == what[..done]
      decreases |what| - done, |buf.spine| - k
    {
      var n, same, next := CompareIn(buf, Cursor(cur.pos + done, chain, position), what[done..], k);
      MatchNext(c, what, cur.pos, done, n);
      if !same {
        return false;
      }
      done := done + n;
      position := 0;
      chain := next;
      k := k + 1;
    }
    if done < |what| {
      Follow(buf, k);
    }
    assert what[..|what|] == what;
    equal := true;
  }

  /** One memcmp, of what is left of the chain or of `what`, whichever is less. */
  method CompareIn(buf: EvBuffer, cur: Cursor, what: seq<byte>, ghost k: nat) returns (n: nat, same: bool, next: Ptr)
    requires buf.Linked() && PointsAt(buf.spine, buf.segs, cur, k) && cur.chain != NULL
    requires 0 <= cur.pos && cur.pos + |what| <= buf.totalLen
    ensures k < |buf.spine| && n <= |what| && cur.pos + n <= |buf.Contents()|
    ensures n < |what| ==> cur.pos + n == Off(buf.segs, k + 1)
    ensures same == (buf.Contents()[cur.pos..cur.pos + n] == what[..n]) && next == HeadOf(buf.spine[k + 1..])
  {
    hide Flat, Off, Chained, Marked, Chain.View, Chain.InBounds, Seg.Good;
    Follow(buf, k);
    var ch := buf.mem.at[cur.chain];
    n := if |what| + cur.inChain > ch.off then ch.off - cur.inChain else |what|;
    PartOf(buf.segs, k, cur.inChain, n);
    same := ch.Bytes(cur.inChain, n) == what[..n];
    next := ch.next;
  }

  /** `n` more bytes compared. */
  lemma MatchNext(c: seq<byte>, what: seq<byte>, p: nat, done: nat, n: nat)
    requires p + |what| <= |c| && done + n <= |what| && c[p..p + done] == what[..done]
    ensures c[p + done..p + done + n] == what[done..][..n] ==> c[p..p + done + n] == what[..done + n]
    ensures c[p + done..p + done + n] != what[done..][..n] ==> !MatchAt(c, what, p)
  {
    assert what[done..][..n] == what[done..done + n];
    assert c[p..p + done + n] == c[p..p + done] + c[p + done..p + done + n];
    assert what[..done + n] == what[..done] + what[done..done + n];
    if MatchAt(c, what, p) {
      SliceOfSlice(c, p, p + |what|, done, done + n);
    }
  }

  /** memchr: the first place of `b`, or the length if there is none. */
  method Memchr(s: seq<byte>, b: byte) returns (i: nat)
    ensures i <= |s| && (i < |s| ==> s[i] == b)
    ensures forall j | 0 <= j < i :: s[j] != b
  {
    i := 0;
    while i < |s| && s[i] != b
      invariant i <= |s| && forall j | 0 <= j < i :: s[j] != b
    {
      i := i + 1;
    }
  }

  /** Without its first byte, there is no match. */
  lemma SkipTo(c: seq<byte>, what: seq<byte>, pos: nat, n: nat, part: seq<byte>, i: nat)
    requires what != [] && pos + n <= |c| && part == c[pos..pos + n] && i <= n
    requires forall j | 0 <= j < i :: part[j] != what[0]
    ensures NoMatch(c, what, pos, pos + i)
  {
    forall p | pos <= p < pos + i ensures !MatchAt(c, what, p) {
      assert part[p - pos] == c[p];
    }
  }

  lemma MatchInside(c: seq<byte>, what: seq<byte>, p: int)
    requires MatchAt(c, what, p)
    ensures 0 <= p && p + |what| <= |c|
  {
  }

  /** The same chain is at the same position. */
  lemma SameChain(buf: EvBuffer, i: nat, j: nat)
    requires buf.Linked() && i < |buf.spine| && j <= |buf.spine| && HeadOf(buf.spine[i..]) == HeadOf(buf.spine[j..])
    ensures i == j
  {
    hide Flat, Bodies, Links, Marked;
    Follow(buf, i);
    Follow(buf, j);
  }

  /**
   * evbuffer_search_range for something to look for: the first match at or behind `start` that ends
   * at or in front of `end`, no matter how the bytes are spread over chains.
   */
  method SearchFrom(buf: EvBuffer, what: seq<byte>, start: Cursor, end: Option<Cursor>, ghost k0: nat, ghost ke: nat)
    returns (r: Cursor, ghost k: nat)
    requires buf.Linked() && buf.totalLen <= SSIZE_MAX && 0 < |what|
    requires PointsAt(buf.spine, buf.segs, start, k0)
    requires end.Some? ==> PointsAt(buf.spine, buf.segs, end.value, ke)
    ensures
      var limit := if end.None? then buf.totalLen else end.value.pos;
      if r.pos < 0 then r == NOT_FOUND && NoneWithin(buf.Contents(), what, start.pos, limit)
      else
        && r.pos + |what| <= limit && MatchAt(buf.Contents(), what, r.pos)
        && NoMatch(buf.Contents(), what, start.pos, r.pos) && start.pos <= r.pos
    ensures r.pos >= 0 ==> PointsAt(buf.spine, buf.segs, r, k) && AtByte(buf.segs, r, k)
  {
    hide Flat, Off, Chained, Marked, Chain.View, Chain.InBounds, Seg.Good, MatchAt;
    ghost var c := buf.Contents();
    var lastChain := if end.None? then NULL else end.value.chain;
    if end.Some? {
      OffBound(buf.segs, ke);
    }
    r, k := start, k0;
    Follow(buf, k);
    while r.chain != NULL
      invariant k <= |buf.spine| && PointsAt(buf.spine, buf.segs, r, k)
      invariant start.pos <= r.pos && NoMatch(c, what, start.pos, r.pos)
      decreases |buf.spine| - k, (if k < |buf.spine| then |buf.segs[k].data| else 0) - r.inChain
    {
      var i, rest, next := LookInChain(buf, r, what, k);
      if i < rest {
        r := r.(pos := r.pos + i, inChain := r.inChain + i);
        var found := PtrMemcmp(buf, r, what, k);
        if found {
          if end.Some? && r.pos + |what| > end.value.pos {
            return NOT_FOUND, 0;
          }
          MatchInside(c, what, r.pos);
          return;
        }
        r := r.(pos := r.pos + 1, inChain := r.inChain + 1);
        if i + 1 == rest {
          r := r.(chain := next, inChain := 0);
          k := k + 1;
        }
      } else {
        if r.chain == lastChain {
          SameChain(buf, k, ke);
          return NOT_FOUND, 0;
        }
        r := Cursor(r.pos + rest, next, 0);
        k := k + 1;
      }
    }
    Follow(buf, k);
    r, k := NOT_FOUND, 0;
  }

  /** One memchr of evbuffer_search_range: how far to go, and how much is left of the chain. */
  method LookInChain(buf: EvBuffer, cur: Cursor, what: seq<byte>, ghost k: nat) returns (i: nat, rest: nat, next: Ptr)
    requires buf.Linked() && PointsAt(buf.spine, buf.segs, cur, k) && cur.chain != NULL && 0 < |what|
    ensures k < |buf.spine| && rest == |buf.segs[k].data| - cur.inChain && i <= rest
    ensures NoMatch(buf.Contents(), what, cur.pos, cur.pos + i)
    ensures next == HeadOf(buf.spine[k + 1..]) && Off(buf.segs, k + 1) == cur.pos + rest
  {
    hide Flat, Off, Chained, Marked, Chain.View, Chain.InBounds, Seg.Good, MatchAt, NoMatch;
    Follow(buf, k);
    var ch := buf.mem.at[cur.chain];
    rest := ch.off - cur.inChain;
    PartOf(buf.segs, k, cur.inChain, rest);
    var part := ch.Bytes(cur.inChain, rest);
    i := Memchr(part, what[0]);
    SkipTo(buf.Contents(), what, cur.pos, rest, part, i);
    next := ch.next;
  }

  /** Where a search starts. */
  function StartOf(buf: EvBuffer, start: Option<Cursor>): Cursor
    reads buf
  {
    if start.None? then Begin(buf) else start.value
  }

  /** A position in the buffer, or none given. */
  ghost predicate Position(buf: EvBuffer, cur: Option<Cursor>, k: nat)
    reads buf
  {
    cur.Some? ==> PointsAt(buf.spine, buf.segs, cur.value, k)
  }

  /** evbuffer_search_range */
  method SearchRange(buf: EvBuffer, what: seq<byte>, start: Option<Cursor>, end: Option<Cursor>, ghost k0: nat,
                     ghost ke: nat)
    returns (r: Cursor, ghost k: nat)
    requires buf.Linked() && buf.totalLen <= SSIZE_MAX
    requires Position(buf, start, k0) && Position(buf, end, ke)
    ensures
      var from := StartOf(buf, start);
      var limit := if end.None? then buf.totalLen else end.value.pos;
      if |what| == 0 || |what| > SSIZE_MAX then r == from
      else if r.pos < 0 then
        r == NOT_FOUND && NoneWithin(buf.Contents(), what, from.pos, limit)
      else
        && from.pos <= r.pos && r.pos + |what| <= limit && MatchAt(buf.Contents(), what, r.pos)
        && NoMatch(buf.Contents(), what, from.pos, r.pos)
    ensures 0 < |what| <= SSIZE_MAX && r.pos >= 0 ==> PointsAt(buf.spine, buf.segs, r, k) && AtByte(buf.segs, r, k)
  {
    hide Flat, Off, Chained, Marked, Chain.View, Chain.InBounds, Seg.Good, MatchAt, NoMatch, NoneWithin;
    Follow(buf, 0);
    r, k := StartOf(buf, start), if start.None? then 0 else k0;
    if |what| == 0 || |what| > SSIZE_MAX {
      return;
    }
    r, k := SearchFrom(buf, what, r, end, k, ke);
  }

  /** What a line-end search stops at: one byte, or either of CR and LF. */
  datatype Stop = Byte(b: byte) | AnyEol

  predicate StopsAt(stop: Stop, b: byte) {
    match stop case Byte(x) => b == x case AnyEol => b == CR || b == LF
  }

  ghost predicate NoStop(c: seq<byte>, stop: Stop, a: int, b: int) {
    forall p | a <= p < b && 0 <= p < |c| :: !StopsAt(stop, c[p])
  }

  const CHUNK_SZ: nat := 128

  /**
   * find_eol_char: two memchr calls for each piece of 128 bytes. The result is the first place of CR
   * or LF, or the length if there is none.
   */
  method FindEolChar(s: seq<byte>) returns (i: nat)
    ensures i <= |s| && (i < |s| ==> StopsAt(AnyEol, s[i]))
    ensures forall j | 0 <= j < i :: !StopsAt(AnyEol, s[j])
  {
    i := 0;
    while i < |s|
      invariant forall j | 0 <= j < i && j < |s| :: !StopsAt(AnyEol, s[j])
      decreases |s| - i
    {
      var chunk := if i + CHUNK_SZ < |s| then CHUNK_SZ else |s| - i;
      var part := s[i..i + chunk];
      var cr := Memchr(part, CR);
      var lf := Memchr(part, LF);
      assert forall j | i <= j < i + chunk :: s[j] == part[j - i];
      if cr < chunk {
        if lf < chunk && lf < cr {
          return i + lf;
        }
        return i + cr;
      } else if lf < chunk {
        return i + lf;
      }
      i := i + CHUNK_SZ;
    }
    i := |s|;
  }

  method FindStop(s: seq<byte>, stop: Stop) returns (i: nat)
    ensures i <= |s| && (i < |s| ==> StopsAt(stop, s[i]))
    ensures forall j | 0 <= j < i :: !StopsAt(stop, s[j])
  {
    match stop
    case Byte(b) => i := Memchr(s, b);
    case AnyEol => i := FindEolChar(s);
  }

  /** One round of the loop below: the first place to stop at in what is left of a chain. */
  method FindInChain(buf: EvBuffer, cur: Cursor, stop: Stop, ghost k: nat) returns (i: nat, rest: nat, next: Ptr)
    requires buf.Linked() && PointsAt(buf.spine, buf.segs, cur, k) && k < |buf.spine|
    ensures next == HeadOf(buf.spine[k + 1..]) && rest == |buf.segs[k].data| - cur.inChain
    ensures i <= rest && cur.pos + rest == Off(buf.segs, k + 1) <= buf.totalLen == |buf.Contents()|
    ensures NoStop(buf.Contents(), stop, cur.pos, cur.pos + i)
    ensures i < rest ==> StopsAt(stop, buf.Contents()[cur.pos + i])
  {
    hide Flat, Off, Chained, Marked, Chain.View, Chain.InBounds, Seg.Good, NoStop, StopsAt, HeadOf;
    Follow(buf, k);
    var ch := buf.mem.at[cur.chain];
    rest, next := ch.off - cur.inChain, ch.next;
    PartOf(buf.segs, k, cur.inChain, rest);
    var part := ch.Bytes(cur.inChain, rest);
    i := FindStop(part, stop);
    NothingWalked(buf.Contents(), stop, cur.pos);
    Walked(buf.Contents(), stop, cur.pos, cur.pos, part, i);
  }

  /** evbuffer_strchr, or evbuffer_find_eol_char: on to the first place to stop at. */
  method WalkTo(buf: EvBuffer, cur: Cursor, stop: Stop, ghost k0: nat) returns (r: Cursor, found: bool, ghost k: nat)
    requires buf.Linked() && PointsAt(buf.spine, buf.segs, cur, k0)
    ensures found ==>
              && cur.pos <= r.pos < buf.totalLen && StopsAt(stop, buf.Contents()[r.pos])
              && NoStop(buf.Contents(), stop, cur.pos, r.pos)
              && PointsAt(buf.spine, buf.segs, r, k) && AtByte(buf.segs, r, k)
    ensures !found ==> NoStop(buf.Contents(), stop, cur.pos, buf.totalLen)
  {
    hide Flat, Off, Chained, Marked, Chain.View, Chain.InBounds, Seg.Good, NoStop, StopsAt, HeadOf;
    ghost var c := buf.Contents();
    r, k := cur, k0;
    Follow(buf, k);
    NothingWalked(c, stop, cur.pos);
    while r.chain != NULL
      invariant k <= |buf.spine| && PointsAt(buf.spine, buf.segs, r, k)
      invariant cur.pos <= r.pos && NoStop(c, stop, cur.pos, r.pos)
      decreases |buf.spine| - k
    {
      Follow(buf, k);
      var i, rest, next := FindInChain(buf, r, stop, k);
      WalkedOn(c, stop, cur.pos, r.pos, r.pos + i);
      if i < rest {
        r, found := r.(pos := r.pos + i, inChain := r.inChain + i), true;
        return;
      }
      r := Cursor(r.pos + rest, next, 0);
      k := k + 1;
    }
    Follow(buf, k);
    found := false;
  }

  lemma WalkedOn(c: seq<byte>, stop: Stop, a: int, b: int, d: int)
    requires NoStop(c, stop, a, b) && NoStop(c, stop, b, d)
    ensures NoStop(c, stop, a, d)
  {
  }

  lemma NothingWalked(c: seq<byte>, stop: Stop, a: int)
    ensures NoStop(c, stop, a, a)
  {
  }

  lemma Walked(c: seq<byte>, stop: Stop, a: int, pos: nat, part: seq<byte>, i: nat)
    requires pos + |part| <= |c| && part == c[pos..pos + |part|] && i <= |part| && NoStop(c, stop, a, pos)
    requires forall j | 0 <= j < i :: !StopsAt(stop, part[j])
    ensures NoStop(c, stop, a, pos + i)
    ensures i < |part| ==> part[i] == c[pos + i]
  {
    forall p | a <= p < pos + i && 0 <= p < |c| ensures !StopsAt(stop, c[p]) {
      if p >= pos {
        assert part[p - pos] == c[p];
      }
    }
  }

  /** evbuffer_strspn with "\r\n": how many CR and LF bytes there are from the cursor on. */
  method Strspn(buf: EvBuffer, cur: Cursor, ghost k0: nat) returns (count: nat)
    requires buf.Linked() && PointsAt(buf.spine, buf.segs, cur, k0)
    ensures EolRun(buf.Contents(), cur.pos, count)
    ensures cur.pos + count == buf.totalLen
            || (cur.pos + count < buf.totalLen && !StopsAt(AnyEol, buf.Contents()[cur.pos + count]))
  {
    hide Flat, Off, Chained, Marked, Chain.View, Chain.InBounds, Seg.Good, EolRun, StopsAt;
    count := 0;
    ghost var k: nat, c := k0, buf.Contents();
    Follow(buf, k);
    var chain: Ptr, i: nat := cur.chain, cur.inChain;
    OffBound(buf.segs, k);
    EmptyRun(c, cur.pos);
    if chain == NULL {
      return;
    }
    while chain != NULL
      invariant k <= |buf.spine| && PointsAt(buf.spine, buf.segs, Cursor(cur.pos + count, chain, i), k)
      invariant EolRun(c, cur.pos, count)
      decreases |buf.spine| - k
    {
      Follow(buf, k);
      var ch := buf.mem.at[chain];
      while i < ch.off
        invariant i <= ch.off && PointsAt(buf.spine, buf.segs, Cursor(cur.pos + count, chain, i), k)
        invariant EolRun(c, cur.pos, count)
      {
        PartOf(buf.segs, k, i, 1);
        var b := ch.Bytes(i, 1)[0];
        assert b == c[cur.pos + count];
        if !StopsAt(AnyEol, b) {
          return;
        }
        LongerRun(c, cur.pos, count);
        count, i := count + 1, i + 1;
      }
      chain, i := ch.next, 0;
      k := k + 1;
    }
    Follow(buf, k);
  }

  /** `n` bytes from `p` on are all CR or LF. */
  ghost predicate EolRun(c: seq<byte>, p: int, n: nat) {
    0 <= p && p + n <= |c| && forall j | p <= j < p + n :: StopsAt(AnyEol, c[j])
  }

  lemma EmptyRun(c: seq<byte>, p: int)
    requires 0 <= p <= |c|
    ensures EolRun(c, p, 0)
  {
  }

  lemma LongerRun(c: seq<byte>, p: int, n: nat)
    requires EolRun(c, p, n) && p + n < |c| && StopsAt(AnyEol, c[p + n])
    ensures EolRun(c, p, n + 1)
  {
  }

  datatype EolStyle = Any | Crlf | CrlfStrict | Lf | Nul

  const CRLF: seq<byte> := [CR, LF]

  /** The first line end at or behind `from` is at `pos` and has `len` bytes. */
  ghost predicate EolAt(c: seq<byte>, style: EolStyle, from: nat, pos: int, len: nat) {
    && from <= pos && pos + len <= |c|
    && match style
       case Any =>
         && len > 0 && NoStop(c, AnyEol, from, pos) && EolRun(c, pos, len)
         && (pos + len < |c| ==> !StopsAt(AnyEol, c[pos + len]))
       case Crlf =>
         && 1 <= len <= 2 && c[pos + len - 1] == LF && NoStop(c, Byte(LF), from, pos + len - 1)
         && (if len == 2 then c[pos] == CR else pos > from ==> c[pos - 1] != CR)
       case CrlfStrict => len == 2 && MatchAt(c, CRLF, pos) && NoMatch(c, CRLF, from, pos)
       case Lf => len == 1 && c[pos] == LF && NoStop(c, Byte(LF), from, pos)
       case Nul => len == 1 && c[pos] == 0 && NoStop(c, Byte(0), from, pos)
  }

  /** There is no line end at or behind `from`. */
  ghost predicate NoEol(c: seq<byte>, style: EolStyle, from: nat) {
    match style
    case Any => NoStop(c, AnyEol, from, |c|)
    case Crlf => NoStop(c, Byte(LF), from, |c|)
    case CrlfStrict => NoMatch(c, CRLF, from, |c|)
    case Lf => NoStop(c, Byte(LF), from, |c|)
    case Nul => NoStop(c, Byte(0), from, |c|)
  }

  /** Where the first line end is and how long it is are uniquely determined. */
  lemma EolUnique(c: seq<byte>, style: EolStyle, from: nat, pos: int, len: nat, pos': int, len': nat)
    requires EolAt(c, style, from, pos, len)
    ensures !NoEol(c, style, from)
    ensures EolAt(c, style, from, pos', len') ==> pos' == pos && len' == len
  {
    EolSeen(c, style, from, pos, len);
    if EolAt(c, style, from, pos', len') {
      EolSeen(c, style, from, pos', len');
    }
  }

  /** The byte, or pair of bytes, that the search for a line end stops at. */
  lemma EolSeen(c: seq<byte>, style: EolStyle, from: nat, pos: int, len: nat)
    requires EolAt(c, style, from, pos, len)
    ensures from <= pos < |c|
    ensures style.Any? ==> StopsAt(AnyEol, c[pos])
    ensures style.Crlf? || style.Lf? ==> StopsAt(Byte(LF), c[pos + len - 1])
    ensures style.Nul? ==> StopsAt(Byte(0), c[pos])
  {
  }

  /** The line ends of each style, in bytes: 13 is CR, 10 is LF. */
  lemma EolBytes(c: seq<byte>, from: nat, pos: nat, len: nat)
    requires from <= pos && pos + len <= |c|
    ensures EolAt(c, Any, from, pos, len) <==>
              && len > 0 && (forall p | from <= p < pos :: c[p] != 13 && c[p] != 10)
              && (forall p | pos <= p < pos + len :: c[p] == 13 || c[p] == 10)
              && (pos + len < |c| ==> c[pos + len] != 13 && c[pos + len] != 10)
    ensures EolAt(c, Crlf, from, pos, len) <==>
              && (len == 1 || len == 2) && c[pos + len - 1] == 10
              && (forall p | from <= p < pos + len - 1 :: c[p] != 10)
              && (len == 2 ==> c[pos] == 13) && (len == 1 && pos > from ==> c[pos - 1] != 13)
    ensures EolAt(c, CrlfStrict, from, pos, len) <==>
              && len == 2 && c[pos] == 13 && c[pos + 1] == 10
              && forall p | from <= p < pos :: !(c[p] == 13 && c[p + 1] == 10)
    ensures EolAt(c, Lf, from, pos, len) <==> len == 1 && c[pos] == 10 && forall p | from <= p < pos :: c[p] != 10
    ensures EolAt(c, Nul, from, pos, len) <==> len == 1 && c[pos] == 0 && forall p | from <= p < pos :: c[p] != 0
  {
    if len == 2 {
      IsCrlf(c, pos);
      NoCrlf(c, from, pos);
    }
  }

  lemma IsCrlf(c: seq<byte>, p: nat)
    requires p + 2 <= |c|
    ensures MatchAt(c, CRLF, p) <==> c[p] == 13 && c[p + 1] == 10
  {
    assert c[p..p + 2] == [c[p], c[p + 1]];
  }

  lemma NoCrlf(c: seq<byte>, from: nat, pos: nat)
    requires from <= pos && pos + 2 <= |c|
    ensures NoMatch(c, CRLF, from, pos) <==> forall p | from <= p < pos :: !(c[p] == 13 && c[p + 1] == 10)
  {
    hide MatchAt;
    if NoMatch(c, CRLF, from, pos) {
      forall p: nat | from <= p < pos ensures !(c[p] == 13 && c[p + 1] == 10) {
        assert !MatchAt(c, CRLF, p);
        IsCrlf(c, p);
      }
    } else {
      var p :| from <= p < pos && MatchAt(c, CRLF, p);
      IsCrlf(c, p);
    }
  }

  /** No match that ends inside the contents is no match. */
  lemma NoneAtEnd(c: seq<byte>, what: seq<byte>, from: int)
    requires NoneWithin(c, what, from, |c|)
    ensures NoMatch(c, what, from, |c|)
  {
  }

  /** The end of the CRLF case: a CR in front of the LF belongs to the line end, if it is not too early. */
  method BackToCr(buf: EvBuffer, startPos: nat, it: Cursor, ghost k0: nat)
    returns (r: Cursor, eolLen: nat, ghost k: nat)
    requires buf.Linked() && buf.totalLen <= SSIZE_MAX && startPos <= it.pos < buf.totalLen
    requires PointsAt(buf.spine, buf.segs, it, k0) && AtByte(buf.segs, it, k0)
    ensures PointsAt(buf.spine, buf.segs, r, k)
    ensures
      var cr := startPos < it.pos && buf.Contents()[it.pos - 1] == CR;
      r.pos == (if cr then it.pos - 1 else it.pos) && eolLen == (if cr then 2 else 1)
  {
    hide Flat, Off, Chained, Marked, Chain.View, Chain.InBounds, Seg.Good;
    r, eolLen, k := it, 1, k0;
    if it.pos == startPos {
      return;
    }
    var it2, result, k2 := Subtract(buf, it, 1, k0);
    if result < 0 {
      return;
    }
    Follow(buf, k2);
    var chr: int := -1;
    if it2.chain != NULL {
      PartOf(buf.segs, k2, it2.inChain, 1);
      chr := buf.mem.at[it2.chain].Bytes(it2.inChain, 1)[0];
      assert chr == buf.Contents()[it2.pos];
    }
    if chr == CR {
      r, eolLen, k := it2, 2, k2;
    }
  }

  /** The search for a LF, or for CR and LF. */
  method SearchLf(buf: EvBuffer, it: Cursor, style: EolStyle, ghost k0: nat)
    returns (r: Cursor, found: bool, eolLen: nat, ghost k: nat)
    requires buf.Linked() && buf.totalLen <= SSIZE_MAX && PointsAt(buf.spine, buf.segs, it, k0)
    requires style.Crlf? || style.CrlfStrict? || style.Lf?
    ensures found ==> EolAt(buf.Contents(), style, it.pos, r.pos, eolLen) && PointsAt(buf.spine, buf.segs, r, k)
    ensures !found ==> NoEol(buf.Contents(), style, it.pos)
  {
    hide Flat, Off, Chained, Marked, Chain.View, Chain.InBounds, Seg.Good, EolRun, MatchAt, NoneWithin, PointsAt,
         NoStop;
    Inside(buf, it, k0);
    ghost var c := buf.Contents();
    if style.CrlfStrict? {
      r, k := SearchFrom(buf, CRLF, it, None, k0, 0);
      found, eolLen := r.pos >= 0, 2;
      if found {
        MatchInside(c, CRLF, r.pos);
      } else {
        NoneAtEnd(c, CRLF, it.pos);
      }
    } else {
      r, found, k := WalkTo(buf, it, Byte(LF), k0);
      eolLen := 1;
      if found && style.Crlf? {
        r, eolLen, k := BackToCr(buf, it.pos, r, k);
      }
    }
  }

  /** The search for a run of CR and LF, or for a zero byte. */
  method SearchByte(buf: EvBuffer, it: Cursor, style: EolStyle, ghost k0: nat)
    returns (r: Cursor, found: bool, eolLen: nat, ghost k: nat)
    requires buf.Linked() && buf.totalLen <= SSIZE_MAX && PointsAt(buf.spine, buf.segs, it, k0)
    requires style.Any? || style.Nul?
    ensures found ==> EolAt(buf.Contents(), style, it.pos, r.pos, eolLen) && PointsAt(buf.spine, buf.segs, r, k)
    ensures !found ==> NoEol(buf.Contents(), style, it.pos)
  {
    hide Flat, Off, Chained, Marked, Chain.View, Chain.InBounds, Seg.Good, EolRun, PointsAt, NoStop;
    Inside(buf, it, k0);
    r, found, k := WalkTo(buf, it, if style.Any? then AnyEol else Byte(0), k0);
    eolLen := 1;
    if found && style.Any? {
      eolLen := Strspn(buf, r, k);
    }
  }

  lemma Inside(buf: EvBuffer, it: Cursor, k0: nat)
    requires buf.Linked() && PointsAt(buf.spine, buf.segs, it, k0)
    ensures 0 <= it.pos <= buf.totalLen
  {
    hide Flat, Chained, Marked, Chain.View, Chain.InBounds, Seg.Good;
    Follow(buf, k0);
  }

  /** evbuffer_search_eol: where the line ends, and how many bytes the line end has. */
  method SearchEol(buf: EvBuffer, start: Option<Cursor>, style: EolStyle, ghost k0: nat)
    returns (r: Cursor, eolLen: nat, ghost k: nat)
    requires buf.Linked() && buf.totalLen <= SSIZE_MAX && Position(buf, start, k0)
    ensures
      var from := StartOf(buf, start).pos;
      if r.pos < 0 then r == NOT_FOUND && eolLen == 0 && NoEol(buf.Contents(), style, from)
      else EolAt(buf.Contents(), style, from, r.pos, eolLen)
    ensures r.pos >= 0 ==> PointsAt(buf.spine, buf.segs, r, k)
  {
    hide Flat, Off, Chained, Marked, Chain.View, Chain.InBounds, Seg.Good, NoStop, NoMatch, MatchAt, EolRun;
    Follow(buf, 0);
    k := if start.None? then 0 else k0;
    Follow(buf, k);
    if start.Some? && start.value.chain == NULL {
      NothingLeft(buf.Contents(), style);
      return NOT_FOUND, 0, 0;
    }
    var it, found := StartOf(buf, start), false;
    match style {
      case Any | Nul =>
        r, found, eolLen, k := SearchByte(buf, it, style, k);
      case CrlfStrict | Crlf | Lf =>
        r, found, eolLen, k := SearchLf(buf, it, style, k);
    }
    if !found {
      r, eolLen, k := NOT_FOUND, 0, 0;
    }
  }

  lemma NothingLeft(c: seq<byte>, style: EolStyle)
    ensures NoEol(c, style, |c|)
  {
  }

  /** evbuffer_copyout_from */
  method CopyoutFrom(buf: EvBuffer, pos: Option<Cursor>, datlen: nat, ghost k0: nat)
    returns (result: int, out: seq<byte>)
    requires buf.Linked() && buf.totalLen <= SSIZE_MAX && Position(buf, pos, k0)
    ensures
      var from := StartOf(buf, pos).pos;
      if pos.Some? && datlen > SSIZE_MAX - from then result == -1 && out == []
      else
        var n := if datlen + from > buf.totalLen then buf.totalLen - from else datlen;
        if n > 0 && buf.freezeStart then result == -1 && out == []
        else 0 <= n && from + n <= buf.totalLen && result == n && out == buf.Contents()[from..from + n]
  {
    hide Flat, Off, Chained, Marked, Chain.View, Chain.InBounds, Seg.Good, PointsAt, HeadOf;
    PositionInside(buf, pos, k0);
    ghost var k, from := if pos.None? then 0 else k0, StartOf(buf, pos).pos;
    assert buf.Contents()[from..from + 0] == [];
    var left: nat := datlen;
    var cur := Begin(buf);
    if pos.Some? {
      if datlen > SSIZE_MAX - pos.value.pos {
        return -1, [];
      }
      cur := pos.value;
      if datlen + pos.value.pos > buf.totalLen {
        left := buf.totalLen - pos.value.pos;
      }
    } else {
      if datlen > buf.totalLen {
        left := buf.totalLen;
      }
    }
    if left == 0 {
      return 0, [];
    }
    if buf.freezeStart {
      return -1, [];
    }
    out := CopyRun(buf, cur, left, k);
    result := left;
  }

  lemma PositionInside(buf: EvBuffer, pos: Option<Cursor>, k: nat)
    requires buf.Linked() && Position(buf, pos, k)
    ensures 0 <= StartOf(buf, pos).pos <= buf.totalLen == |buf.Contents()|
    ensures PointsAt(buf.spine, buf.segs, StartOf(buf, pos), if pos.None? then 0 else k)
  {
    hide Flat, Off, Chained, Marked;
    Follow(buf, 0);
    if pos.Some? {
      OffBound(buf.segs, k);
    }
  }

  /** The copying loop of evbuffer_copyout_from. */
  method CopyRun(buf: EvBuffer, cur: Cursor, n: nat, ghost k0: nat) returns (out: seq<byte>)
    requires buf.Linked() && 0 <= cur.pos && cur.pos + n <= buf.totalLen && n > 0
    requires PointsAt(buf.spine, buf.segs, cur, k0)
    ensures out == buf.Contents()[cur.pos..cur.pos + n]
  {
    hide Flat, Off, Chained, Marked, Chain.View, Chain.InBounds, Seg.Good;
    var chain: Ptr, inChain: nat, left: nat := cur.chain, cur.inChain, n;
    ghost var k: nat, c, from := k0, buf.Contents(), cur.pos;
    out := [];
    Follow(buf, k);
    while left > 0 && left >= buf.mem.at[chain].off - inChain
      invariant k <= |buf.spine| && |out| + left == n
      invariant PointsAt(buf.spine, buf.segs, Cursor(from + |out|, chain, inChain), k)
      invariant out == c[from..from + |out|]
      invariant left > 0 ==> k < |buf.spine| && chain in buf.mem.at && buf.mem.at[chain].off == |buf.segs[k].data|
      decreases |buf.spine| - k
    {
      Follow(buf, k);
      var copylen := buf.mem.at[chain].off - inChain;
      PartOf(buf.segs, k, inChain, copylen);
      Copied(c, from, out, buf.mem.at[chain].Bytes(inChain, copylen));
      out := out + buf.mem.at[chain].Bytes(inChain, copylen);
      left := left - copylen;
      chain, inChain := buf.mem.at[chain].next, 0;
      k := k + 1;
      Follow(buf, k);
    }
    if left > 0 {
      Follow(buf, k);
      PartOf(buf.segs, k, inChain, left);
      Copied(c, from, out, buf.mem.at[chain].Bytes(inChain, left));
      out := out + buf.mem.at[chain].Bytes(inChain, left);
    }
  }

  lemma Copied(c: seq<byte>, from: nat, out: seq<byte>, part: seq<byte>)
    requires from + |out| + |part| <= |c| && out == c[from..from + |out|]
    requires part == c[from + |out|..from + |out| + |part|]
    ensures out + part == c[from..from + |out + part|]
  {
  }

  /** evbuffer_remove: the bytes copied out are drained. */
  method Remove(buf: EvBuffer, datlen: nat) returns (result: int, out: seq<byte>)
    requires buf.Valid() && buf.totalLen <= SSIZE_MAX
    modifies buf, buf.mem, buf.cb
    ensures buf.Valid() && buf.SameSettings() && Confined(old(buf.mem.at), old(buf.spine), buf.mem.at, buf.spine)
    ensures
      var n := if datlen > old(buf.totalLen) then old(buf.totalLen) else datlen;
      if n > 0 && buf.freezeStart then result == -1 && out == [] && buf.Contents() == old(buf.Contents())
      else result == Int32(n) && out == old(buf.Contents())[..n] && buf.Contents() == old(buf.Contents())[n..]
    ensures if buf.totalLen == old(buf.totalLen) then buf.cb.Untouched()
            else buf.totalLen < old(buf.totalLen) && buf.cb.Reported(0, old(buf.totalLen) - buf.totalLen, buf.totalLen)
  {
    hide Flat, Off, Chained, Confined, Marked, Chain.View, Chain.InBounds, Seg.Good, CbState.Accounts, ReportedOver;
    ChainedIn(buf.mem.at, buf.spine, buf.segs);
    ConfinedSame(buf.mem.at, buf.spine);
    ghost var c := buf.Contents();
    var n;
    n, out := CopyoutFrom(buf, None, datlen, 0);
    if n > 0 {
      var drained := buf.Drain(n);
      if drained < 0 {
        n := -1;
      }
    }
    assert c[0..] == c;
    result := if n < 0 then n else Int32(n);
  }

  /** evbuffer_readln: a line without its line end, both of which are removed. */
  method Readln(buf: EvBuffer, style: EolStyle) returns (line: Option<seq<byte>>)
    requires buf.Valid() && buf.totalLen <= SSIZE_MAX
    modifies buf, buf.mem, buf.cb
    ensures buf.Valid() && buf.SameSettings() && Confined(old(buf.mem.at), old(buf.spine), buf.mem.at, buf.spine)
    ensures line.None? ==>
              buf.Contents() == old(buf.Contents())
              && (buf.freezeStart || NoEol(old(buf.Contents()), style, 0))
    ensures line.Some? ==>
              var n, c := |line.value|, old(buf.Contents());
              var len := |c| - n - |buf.Contents()|;
              && !buf.freezeStart && 0 < len && EolAt(c, style, 0, n, len)
              && c == line.value + c[n..n + len] + buf.Contents()
  {
    hide Flat, Off, Chained, Confined, Marked, Chain.View, Chain.InBounds, Seg.Good, CbState.Accounts, EolAt, NoEol,
         Ptrs, EmptyFrom;
    ChainedIn(buf.mem.at, buf.spine, buf.segs);
    ConfinedSame(buf.mem.at, buf.spine);
    if buf.freezeStart {
      return None;
    }
    var it, extraDrain, k := SearchEol(buf, None, style, 0);
    if it.pos < 0 {
      return None;
    }
    EolInside(buf.Contents(), style, it.pos, extraDrain);
    var text := TakeLine(buf, it.pos, extraDrain);
    line := Some(text);
  }

  /** Copies the line out, and drains it and its line end. */
  method TakeLine(buf: EvBuffer, n: nat, len: nat) returns (text: seq<byte>)
    requires buf.Valid() && buf.totalLen <= SSIZE_MAX && !buf.freezeStart && n + len <= |buf.Contents()|
    modifies buf, buf.mem, buf.cb
    ensures buf.Valid() && buf.SameSettings() && Confined(old(buf.mem.at), old(buf.spine), buf.mem.at, buf.spine)
    ensures var c := old(buf.Contents());
            |text| == n && c == text + c[n..n + len] + buf.Contents() && len == |c| - n - |buf.Contents()|
  {
    hide Flat, Off, Chained, Confined, Marked, Chain.View, Chain.InBounds, Seg.Good, CbState.Accounts, Ptrs, EmptyFrom;
    ghost var c, at0, s0 := buf.Contents(), buf.mem.at, buf.spine;
    var removed;
    removed, text := Remove(buf, n);
    ghost var at1, s1 := buf.mem.at, buf.spine;
    var drained := buf.Drain(len);
    ConfinedTrans(at0, s0, at1, s1, buf.mem.at, buf.spine);
    SplitLine(c, n, len, buf.Contents());
  }

  lemma EolInside(c: seq<byte>, style: EolStyle, pos: int, len: nat)
    requires EolAt(c, style, 0, pos, len)
    ensures 0 <= pos && pos + len <= |c| && 0 < len
  {
  }

  lemma SplitLine(c: seq<byte>, n: nat, len: nat, rest: seq<byte>)
    requires n + len <= |c| && rest == if len >= |c[n..]| then [] else c[n..][len..]
    ensures c == c[..n] + c[n..n + len] + rest && len == |c| - n - |rest|
  {
  }
}
