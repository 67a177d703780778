/** Writing names into a DNS message, with pointers to names that are there already. */
module DnsMessage {
  import opened Options
  import opened DnsName

  const MAX_LABELS: nat := 128

  /** Offsets from here on do not fit into a pointer. */
  const OFFSET_LIMIT: nat := 0x4000

  /** struct dnslabel_entry */
  datatype Entry = Entry(v: seq<byte>, pos: nat)

  /** The bytes APPEND16(ref | 0xc000) writes: bits of the offset from the fifteenth on are lost. */
  function PointerBytes(ref: nat): (b: seq<byte>)
    ensures |b| == 2 && (ref < 0x4000 ==> b[0] as int * 0x100 + b[1] as int == 0xc000 + ref)
  {
    [0xc0 + ref / 0x100 % 0x40, ref % 0x100]
  }

  /** Where the pointer leads: to the offset if and only if the offset is small enough. */
  lemma PointerBack(ref: nat)
    ensures IsPointer(PointerBytes(ref)[0])
    ensures Target(PointerBytes(ref)[0], PointerBytes(ref)[1]) == ref % OFFSET_LIMIT
    ensures Target(PointerBytes(ref)[0], PointerBytes(ref)[1]) == ref <==> ref < OFFSET_LIMIT
  {
    var hi, lo := ref / 0x100, ref % 0x100;
    var k := hi / 0x40;
    assert hi == k * 0x40 + hi % 0x40 && ref == hi * 0x100 + lo;
    Remainder(ref, k, hi % 0x40 * 0x100 + lo);
  }

  lemma Remainder(n: nat, k: nat, r: nat)
    requires n == k * OFFSET_LIMIT + r && r < OFFSET_LIMIT
    ensures n % OFFSET_LIMIT == r
  {
  }

  /** Only the last label may be empty. */
  ghost predicate Closed(name: seq<byte>) {
    var n := FirstLen(name);
    n < |name| ==> n > 0 && Closed(name[n + 1..])
  }

  ghost predicate Spelled(p: seq<byte>, pos: nat, labels: seq<seq<byte>>) {
    exists hops :: Spells(p, pos, labels, hops)
  }

  /** Each entry is in the message, and says where its name is if a pointer can lead there. */
  ghost predicate TableOk(p: seq<byte>, entries: seq<Entry>) {
    forall i | 0 <= i < |entries| :: EntryOk(p, entries[i])
  }

  ghost predicate EntryOk(p: seq<byte>, e: Entry) {
    e.pos < |p| && (e.pos < OFFSET_LIMIT ==> Spelled(p, e.pos, Labels(e.v)))
  }

  /** All entries are in front of `j`. */
  ghost predicate Below(entries: seq<Entry>, j: nat) {
    forall i | 0 <= i < |entries| :: entries[i].pos < j
  }

  lemma TableGrow(p: seq<byte>, q: seq<byte>, entries: seq<Entry>)
    requires TableOk(p, entries) && |p| <= |q| && q[..|p|] == p
    ensures TableOk(q, entries)
  {
    hide Labels, Spells;
    forall i | 0 <= i < |entries| ensures EntryOk(q, entries[i]) {
      var e := entries[i];
      assert EntryOk(p, e);
      if e.pos < OFFSET_LIMIT {
        var hops :| Spells(p, e.pos, Labels(e.v), hops);
        SpellsGrow(p, q, e.pos, Labels(e.v), hops);
      }
    }
  }

  // ----- The table -----

  /** The position of the first entry for the name, or -1. */
  ghost function Find(entries: seq<Entry>, w: seq<byte>): (r: int)
    ensures -1 <= r
  {
    if entries == [] then -1 else if entries[0].v == w then entries[0].pos else Find(entries[1..], w)
  }

  /** The entry that is found, if there is any for the name. */
  lemma {:induction false} FindFacts(entries: seq<Entry>, w: seq<byte>)
    ensures Find(entries, w) >= 0 ==> Entry(w, Find(entries, w)) in entries
    ensures Find(entries, w) >= 0 <==> exists e :: e in entries && e.v == w
  {
    if entries != [] {
      assert entries == [entries[0]] + entries[1..];
      FindFacts(entries[1..], w);
    }
  }

  /** What is found with one more entry. */
  lemma {:induction false} FindMore(entries: seq<Entry>, e: Entry, w: seq<byte>)
    ensures Find(entries + [e], w) == if Find(entries, w) >= 0 || e.v != w then Find(entries, w) else e.pos
  {
    if entries == [] {
      assert [] + [e] == [e];
    } else {
      FindMore(entries[1..], e, w);
      assert (entries + [e])[1..] == entries[1..] + [e];
    }
  }

  /** The table with an entry more, unless it is full. */
  ghost function Note(entries: seq<Entry>, w: seq<byte>, pos: nat): seq<Entry> {
    if |entries| == MAX_LABELS then entries else entries + [Entry(w, pos)]
  }

  /** For names of at most `n` bytes both tables give the same. */
  ghost predicate SameFor(entries: seq<Entry>, had: seq<Entry>, n: nat) {
    forall w | |w| <= n :: Find(entries, w) == Find(had, w)
  }

  lemma NoteSame(entries: seq<Entry>, had: seq<Entry>, w: seq<byte>, pos: nat, n: nat)
    requires SameFor(entries, had, |w|) && n < |w|
    ensures SameFor(Note(entries, w, pos), had, n)
  {
    forall v: seq<byte> | |v| <= n ensures Find(Note(entries, w, pos), v) == Find(had, v) {
      FindMore(entries, Entry(w, pos), v);
    }
  }

  /** struct dnslabel_table */
  class LabelTable {
    var labels: seq<Entry>

    constructor ()
      ensures labels == []
    {
      labels := [];
    }

    /** dnslabel_table_get_pos: the position of the first entry for the name, or -1. */
    method GetPos(name: seq<byte>) returns (pos: int)
      ensures pos == Find(labels, name)
      ensures pos >= 0 ==> Entry(name, pos) in labels
      ensures pos < 0 ==> forall i | 0 <= i < |labels| :: labels[i].v != name
    {
      FindFacts(labels, name);
      var i := 0;
      while i < |labels|
        invariant i <= |labels| && Find(labels[i..], name) == Find(labels, name)
      {
        if name == labels[i].v {
          return labels[i].pos;
        }
        i := i + 1;
      }
      return -1;
    }

    /** dnslabel_table_add: a full table stays as it is. */
    method Add(name: seq<byte>, pos: nat) returns (r: int)
      modifies this
      ensures labels == Note(old(labels), name, pos)
      ensures r == if |old(labels)| == MAX_LABELS then -1 else 0
    {
      if |labels| == MAX_LABELS {
        return -1;
      }
      labels := labels + [Entry(name, pos)];
      r := 0;
    }
  }

  // ----- What is written for a name -----

  /** A label with its length in front. */
  function LabelBytes(w: seq<byte>): (l: seq<byte>)
    requires FirstLen(w) <= MAX_LABEL
    ensures |l| == 1 + FirstLen(w)
  {
    [FirstLen(w)] + w[..FirstLen(w)]
  }

  /** The last label of a name, and the zero byte that ends the name. */
  ghost function LastBytes(w: seq<byte>): (l: seq<byte>)
    requires FirstLen(w) == |w| <= MAX_LABEL
    ensures |l| == |w| + (if w == [] then 1 else 2)
  {
    LabelBytes(w) + (if w == [] then [] else [0])
  }

  /** What is left of a name behind its first label. */
  function Rest(w: seq<byte>): (r: seq<byte>)
    requires FirstLen(w) < |w|
    ensures |r| == |w| - FirstLen(w) - 1
  {
    w[FirstLen(w) + 1..]
  }

  /**
   * No label is written with others behind it: there is a pointer for `w`, its label is too long, or it
   * is the last.
   */
  ghost predicate AtEnd(had: seq<Entry>, w: seq<byte>) {
    Find(had, w) >= 0 || FirstLen(w) > MAX_LABEL || FirstLen(w) == |w|
  }

  /** The rest of the name where the labels in front of it have been written. */
  ghost function Ending(had: seq<Entry>, w: seq<byte>): (rest: seq<byte>)
    ensures AtEnd(had, rest) && |rest| <= |w|
    decreases |w|
  {
    if AtEnd(had, w) then w else Ending(had, Rest(w))
  }

  /** The offset in the pointer that ends the name, or -1 if it ends with its last label. */
  ghost function Ref(had: seq<Entry>, w: seq<byte>): int {
    Find(had, Ending(had, w))
  }

  /** The labels in front of the ending. */
  ghost function Heads(had: seq<Entry>, w: seq<byte>): seq<seq<byte>>
    decreases |w|
  {
    if AtEnd(had, w) then [] else [w[..FirstLen(w)]] + Heads(had, Rest(w))
  }

  /** One of them is empty: whoever reads the name stops there. */
  ghost predicate Stops(had: seq<Entry>, w: seq<byte>)
    decreases |w|
  {
    !AtEnd(had, w) && (FirstLen(w) == 0 || Stops(had, Rest(w)))
  }

  /** A label that is too long comes before a rest of the name that is in the table. */
  ghost predicate Long(had: seq<Entry>, w: seq<byte>) {
    Ref(had, w) < 0 && FirstLen(Ending(had, w)) > MAX_LABEL
  }

  /** The bytes of the name. */
  ghost function Encoding(had: seq<Entry>, w: seq<byte>): seq<byte>
    decreases |w|
  {
    if Find(had, w) >= 0 then PointerBytes(Find(had, w))
    else if FirstLen(w) > MAX_LABEL then []
    else if FirstLen(w) == |w| then LastBytes(w)
    else LabelBytes(w) + Encoding(had, Rest(w))
  }

  /** The table after a name at `j`. */
  ghost function Learned(had: seq<Entry>, entries: seq<Entry>, w: seq<byte>, j: nat): seq<Entry>
    decreases |w|
  {
    if Find(had, w) >= 0 || FirstLen(w) > MAX_LABEL then entries
    else if FirstLen(w) == |w| then Note(entries, w, j)
    else Learned(had, Note(entries, w, j), Rest(w), j + 1 + FirstLen(w))
  }

  /** The outcome of dnsname_to_labels; the last one is a terminator written behind the end of the buffer. */
  datatype Outcome = Next(j: nat) | LabelTooLong | NoRoom | PastEnd

  /** How writing a name at `j` into a buffer of `size` bytes goes. */
  ghost function Verdict(had: seq<Entry>, name: seq<byte>, j: nat, size: nat): Outcome {
    var rest := Ending(had, name);
    var k := j + |name| - |rest|;
    if |name| > MAX_NAME then NoRoom
    else if Find(had, rest) >= 0 then if k + 2 > size then NoRoom else Next(k + 2)
    else if FirstLen(rest) > MAX_LABEL then if k > size then NoRoom else LabelTooLong
    else if k + 1 + |rest| > size then NoRoom
    else if rest == [] then Next(k + 1)
    else if k + 1 + |rest| == size then PastEnd
    else Next(k + 2 + |rest|)
  }

  /** How long a name is in the message. */
  lemma {:induction false} EncodingLength(had: seq<Entry>, w: seq<byte>)
    ensures !Long(had, w) ==>
              |Encoding(had, w)|
                == |w| - |Ending(had, w)| + (if Ref(had, w) >= 0 then 2 else |LastBytes(Ending(had, w))|)
    decreases |w|
  {
    hide LabelBytes, PointerBytes, LastBytes;
    if !AtEnd(had, w) {
      EncodingLength(had, Rest(w));
    }
  }

  /**
   * A name is written if and only if it is not too long, no label of it that is written is, and there is
   * room for it.
   */
  lemma VerdictNext(had: seq<Entry>, name: seq<byte>, j: nat, size: nat)
    ensures Verdict(had, name, j, size).Next?
            <==> |name| <= MAX_NAME && !Long(had, name) && j + |Encoding(had, name)| <= size
    ensures var o := Verdict(had, name, j, size);
            o.Next? ==> o.j == j + |Encoding(had, name)| && |Encoding(had, name)| > 0
    ensures Verdict(had, name, j, size).LabelTooLong?
            <==> |name| <= MAX_NAME && Long(had, name) && j + |name| - |Ending(had, name)| <= size
  {
    hide Encoding;
    EncodingLength(had, name);
  }

  /**
   * The zero byte that ends a name is written behind the end of the buffer if and only if the name is
   * not ended by a pointer and only that byte does not fit; if the last label is empty, its length is
   * that byte, and then it is refused.
   */
  lemma VerdictPast(had: seq<Entry>, name: seq<byte>, j: nat, size: nat)
    ensures Verdict(had, name, j, size).PastEnd? <==>
              && |name| <= MAX_NAME && !Long(had, name) && Ref(had, name) < 0 && Ending(had, name) != []
              && j + |Encoding(had, name)| == size + 1
  {
    hide Encoding;
    EncodingLength(had, name);
  }

  /** The ends of a name that begin with a label that is written in full. */
  ghost function Tails(had: seq<Entry>, w: seq<byte>): seq<seq<byte>>
    decreases |w|
  {
    if Find(had, w) >= 0 || FirstLen(w) > MAX_LABEL then []
    else if FirstLen(w) == |w| then [w] else [w] + Tails(had, Rest(w))
  }

  /** If the table has room for them, each of them is two bytes, a pointer, when it is written again. */
  lemma WrittenAgain(had: seq<Entry>, name: seq<byte>, j: nat, v: seq<byte>)
    requires v in Tails(had, name) && |had| + |Tails(had, name)| <= MAX_LABELS
    ensures Find(Learned(had, had, name, j), v) >= 0 && |Encoding(Learned(had, had, name, j), v)| == 2
  {
    hide Find, Tails, FirstLen, Learned;
    TailsLearned(had, had, name, j, v);
  }

  lemma {:induction false} TailsLearned(had: seq<Entry>, entries: seq<Entry>, w: seq<byte>, j: nat, v: seq<byte>)
    requires v in Tails(had, w) && |entries| + |Tails(had, w)| <= MAX_LABELS
    ensures Find(Learned(had, entries, w, j), v) >= 0
    decreases |w|
  {
    hide Find, FirstLen;
    FindMore(entries, Entry(w, j), w);
    if FirstLen(w) < |w| {
      var more := Note(entries, w, j);
      if v == w {
        StillFound(had, more, Rest(w), j + 1 + FirstLen(w), v);
      } else {
        TailsLearned(had, more, Rest(w), j + 1 + FirstLen(w), v);
      }
    }
  }

  /** What is found in a table is found there when more has been learned. */
  lemma {:induction false} StillFound(had: seq<Entry>, entries: seq<Entry>, w: seq<byte>, j: nat, v: seq<byte>)
    requires Find(entries, v) >= 0
    ensures Find(Learned(had, entries, w, j), v) == Find(entries, v)
    decreases |w|
  {
    hide Find, FirstLen;
    FindMore(entries, Entry(w, j), v);
    if Find(had, w) < 0 && FirstLen(w) < |w| && FirstLen(w) <= MAX_LABEL {
      StillFound(had, Note(entries, w, j), Rest(w), j + 1 + FirstLen(w), v);
    }
  }

  // ----- What the bytes say -----

  /** The bytes of the name are in the message at `j`. */
  ghost predicate At(p: seq<byte>, j: nat, had: seq<Entry>, w: seq<byte>) {
    j + |Encoding(had, w)| <= |p| && p[j..j + |Encoding(had, w)|] == Encoding(had, w)
  }

  lemma LabelFacts(w: seq<byte>)
    requires FirstLen(w) <= MAX_LABEL
    ensures LabelBytes(w)[0] == FirstLen(w) && LabelBytes(w)[1..] == w[..FirstLen(w)]
  {
  }

  /** A slice of the message that begins with `a`. */
  lemma Front(p: seq<byte>, j: nat, a: seq<byte>, b: seq<byte>)
    requires j + |a + b| <= |p| && p[j..j + |a + b|] == a + b
    ensures p[j..j + |a|] == a && p[j + |a|..j + |a| + |b|] == b
  {
    var s := p[j..j + |a + b|];
    assert p[j..j + |a|] == s[..|a|] && p[j + |a|..j + |a| + |b|] == s[|a|..];
  }

  /** The first label, and the rest behind it. */
  lemma AtLabel(p: seq<byte>, j: nat, had: seq<Entry>, w: seq<byte>)
    requires At(p, j, had, w) && !AtEnd(had, w)
    ensures
      var n := FirstLen(w);
      j + 1 + n <= |p| && p[j] == n && p[j + 1..j + 1 + n] == w[..n] && At(p, j + 1 + n, had, Rest(w))
  {
    hide FirstLen, LabelBytes, Rest;
    LabelFacts(w);
    var l := LabelBytes(w);
    Front(p, j, l, Encoding(had, Rest(w)));
    assert p[j] == p[j..j + |l|][0];
    assert p[j + 1..j + |l|] == p[j..j + |l|][1..];
  }

  /** A name that is ended by a pointer reads as its first labels and whatever is where the pointer leads. */
  lemma {:induction false} ReadsAs(p: seq<byte>, j: nat, had: seq<Entry>, w: seq<byte>, ls: seq<seq<byte>>)
    requires At(p, j, had, w) && Ref(had, w) >= 0 && !Stops(had, w)
    ensures Spelled(p, j, Heads(had, w) + ls) <==> Spelled(p, Ref(had, w) % OFFSET_LIMIT, ls)
    decreases |w|
  {
    hide FirstLen, Rest;
    if AtEnd(had, w) {
      assert [] + ls == ls;
      PointerAt(p, j, had, w);
      PointerSpelled(p, j, ls);
    } else {
      var n, l := FirstLen(w), w[..FirstLen(w)];
      AtLabel(p, j, had, w);
      ReadsAs(p, j + 1 + n, had, Rest(w), ls);
      var tail := Heads(had, Rest(w)) + ls;
      assert Heads(had, w) + ls == [l] + tail;
      LabelSpelled(p, j, l, tail);
    }
  }

  lemma PointerAt(p: seq<byte>, j: nat, had: seq<Entry>, w: seq<byte>)
    requires At(p, j, had, w) && Find(had, w) >= 0
    ensures j + 2 <= |p| && IsPointer(p[j]) && Target(p[j], p[j + 1]) == Find(had, w) % OFFSET_LIMIT
  {
    var b := PointerBytes(Find(had, w));
    PointerBack(Find(had, w));
    assert p[j] == p[j..j + 2][0] && p[j + 1] == p[j..j + 2][1];
  }

  lemma PointerSpelled(p: seq<byte>, j: nat, ls: seq<seq<byte>>)
    requires j + 2 <= |p| && IsPointer(p[j])
    ensures Spelled(p, j, ls) <==> Spelled(p, Target(p[j], p[j + 1]), ls)
  {
    if Spelled(p, j, ls) {
      var hops: nat :| Spells(p, j, ls, hops);
      assert Spells(p, Target(p[j], p[j + 1]), ls, hops - 1);
    }
    if Spelled(p, Target(p[j], p[j + 1]), ls) {
      var hops: nat :| Spells(p, Target(p[j], p[j + 1]), ls, hops);
      assert Spells(p, j, ls, hops + 1);
    }
  }

  lemma LabelSpelled(p: seq<byte>, j: nat, l: seq<byte>, tail: seq<seq<byte>>)
    requires 0 < |l| <= MAX_LABEL && j + 1 + |l| <= |p| && p[j] == |l| && p[j + 1..j + 1 + |l|] == l
    ensures Spelled(p, j, [l] + tail) <==> Spelled(p, j + 1 + |l|, tail)
  {
    assert ([l] + tail)[1..] == tail;
    if Spelled(p, j, [l] + tail) {
      var hops :| Spells(p, j, [l] + tail, hops);
      assert Spells(p, j + 1 + |l|, tail, hops);
    }
    if Spelled(p, j + 1 + |l|, tail) {
      var hops :| Spells(p, j + 1 + |l|, tail, hops);
      assert Spells(p, j, [l] + tail, hops);
    }
  }

  /** The labels of the name are those in front of the ending and those of the ending. */
  lemma {:induction false} HeadsEnding(had: seq<Entry>, w: seq<byte>)
    requires !Stops(had, w)
    ensures Labels(w) == Heads(had, w) + Labels(Ending(had, w))
    decreases |w|
  {
    hide FirstLen;
    if !AtEnd(had, w) {
      HeadsEnding(had, Rest(w));
    }
  }

  /** A name that is ended by its last label, or stops before its ending, reads as it should. */
  lemma {:induction false} ReadsAll(p: seq<byte>, j: nat, had: seq<Entry>, w: seq<byte>)
    requires At(p, j, had, w) && !Long(had, w) && (Ref(had, w) < 0 || Stops(had, w))
    ensures Spelled(p, j, Labels(w))
    decreases |w|
  {
    hide FirstLen, Encoding;
    if AtEnd(had, w) {
      LastAt(p, j, had, w);
    } else {
      AtLabel(p, j, had, w);
      if FirstLen(w) == 0 {
        assert Spells(p, j, [], 0);
      } else {
        ReadsAll(p, j + 1 + FirstLen(w), had, Rest(w));
        LabelSpelled(p, j, w[..FirstLen(w)], Labels(Rest(w)));
      }
    }
  }

  /** The last label and its terminator. */
  lemma LastAt(p: seq<byte>, j: nat, had: seq<Entry>, w: seq<byte>)
    requires At(p, j, had, w) && Find(had, w) < 0 && FirstLen(w) == |w| <= MAX_LABEL
    ensures Spelled(p, j, Labels(w)) && Ends(p, j, j + |Encoding(had, w)|)
  {
    hide FirstLen, LabelBytes;
    LabelFacts(w);
    var l, z := LabelBytes(w), if w == [] then [] else [0];
    Front(p, j, l, z);
    assert p[j] == p[j..j + |l|][0];
    if w == [] {
      assert Spells(p, j, [], 0);
    } else {
      var e := j + 1 + |w|;
      assert p[j + 1..e] == p[j..e][1..] && p[e] == p[e..e + 1][0];
      assert Spells(p, e, [], 0);
      LabelSpelled(p, j, w, []);
      assert [w] + [] == [w];
      assert Ends(p, e, e + 1);
    }
  }

  /** Where a reader finds the end of the name. */
  lemma {:induction false} ReadsTo(p: seq<byte>, j: nat, had: seq<Entry>, w: seq<byte>)
    requires At(p, j, had, w) && !Long(had, w)
    ensures Ends(p, j, j + |Encoding(had, w)|) <==> !Stops(had, w)
    ensures Closed(w) ==> !Stops(had, w)
    decreases |w|
  {
    hide FirstLen, LabelBytes, PointerBytes, LastBytes;
    if Find(had, w) >= 0 {
      PointerAt(p, j, had, w);
    } else if AtEnd(had, w) {
      LastAt(p, j, had, w);
    } else {
      AtLabel(p, j, had, w);
      EncodingLength(had, Rest(w));
      ReadsTo(p, j + 1 + FirstLen(w), had, Rest(w));
    }
  }

  /**
   * The name is read as it was written if and only if it stops before its ending, it is not ended by
   * a pointer, the offset fits into the pointer, or the same labels happen to be where the pointer leads.
   */
  ghost predicate Right(p: seq<byte>, had: seq<Entry>, w: seq<byte>) {
    var ref := Ref(had, w);
    Stops(had, w) || ref < OFFSET_LIMIT || Spelled(p, ref % OFFSET_LIMIT, Labels(Ending(had, w)))
  }

  lemma RightExactly(p: seq<byte>, j: nat, had: seq<Entry>, w: seq<byte>)
    requires At(p, j, had, w) && !Long(had, w) && TableOk(p, had)
    ensures Spelled(p, j, Labels(w)) <==> Right(p, had, w)
  {
    hide At, Spelled, Labels, Stops, Heads, Ending, Find, FirstLen, TableOk;
    var ref, rest := Ref(had, w), Ending(had, w);
    if Stops(had, w) || ref < 0 {
      ReadsAll(p, j, had, w);
    } else {
      HeadsEnding(had, w);
      ReadsAs(p, j, had, w, Labels(rest));
      FoundOk(p, had, rest);
    }
  }

  /** The entry that is found for a name is right if a pointer can lead there. */
  lemma FoundOk(p: seq<byte>, had: seq<Entry>, w: seq<byte>)
    requires TableOk(p, had) && Find(had, w) >= 0
    ensures Find(had, w) < |p| && (Find(had, w) < OFFSET_LIMIT ==> Spelled(p, Find(had, w), Labels(w)))
  {
    hide Find, Spelled, Labels;
    FindFacts(had, w);
    assert EntryOk(p, Entry(w, Find(had, w)));
  }

  /** Names in the first 16384 bytes are read as they were written. */
  lemma RightBelow(p: seq<byte>, j: nat, had: seq<Entry>, w: seq<byte>)
    requires Below(had, j) && j <= OFFSET_LIMIT
    ensures Right(p, had, w)
  {
    hide Spelled, Labels, Stops;
    FindFacts(had, Ending(had, w));
  }

  /** The entries for a name that has been written are right too. */
  lemma {:induction false} LearnedOk(p: seq<byte>, j: nat, had: seq<Entry>, entries: seq<Entry>, w: seq<byte>)
    requires At(p, j, had, w) && !Long(had, w) && TableOk(p, had) && Below(had, j) && TableOk(p, entries)
    ensures TableOk(p, Learned(had, entries, w, j))
    decreases |w|
  {
    hide At, TableOk, FirstLen, Find, Stops, Spelled, Labels, Right;
    if Find(had, w) < 0 {
      NoteOk(p, j, had, entries, w);
      if FirstLen(w) < |w| {
        AtLabel(p, j, had, w);
        LearnedOk(p, j + 1 + FirstLen(w), had, Note(entries, w, j), Rest(w));
      }
    }
  }

  lemma NoteOk(p: seq<byte>, j: nat, had: seq<Entry>, entries: seq<Entry>, w: seq<byte>)
    requires At(p, j, had, w) && !Long(had, w) && TableOk(p, had) && Below(had, j) && TableOk(p, entries)
    ensures TableOk(p, Note(entries, w, j))
  {
    hide Spelled, Labels, Right, Find, FirstLen, Ending, Encoding;
    RightExactly(p, j, had, w);
    if j < OFFSET_LIMIT {
      RightBelow(p, j, had, w);
    }
    EncodingSome(had, w);
    assert EntryOk(p, Entry(w, j));
  }

  lemma EncodingSome(had: seq<Entry>, w: seq<byte>)
    requires !Long(had, w)
    ensures |Encoding(had, w)| > 0
  {
    hide LabelBytes, PointerBytes, LastBytes, Find, FirstLen;
  }

  // ----- Writing -----

  /** Writes bytes at offset `j`. */
  method Put(buf: array<byte>, j: nat, s: seq<byte>)
    requires j + |s| <= buf.Length
    modifies buf
    ensures buf[..j + |s|] == old(buf[..j]) + s
  {
    forall i | 0 <= i < |s| {
      buf[j + i] := s[i];
    }
  }

  /** The end of dnsname_to_labels: a zero byte, unless there is one. */
  method Terminate(buf: array<byte>, j: nat) returns (r: Outcome)
    requires 0 < j <= buf.Length
    modifies buf
    ensures r == if old(buf[j - 1]) == 0 then Next(j) else if j == buf.Length then PastEnd else Next(j + 1)
    ensures r.Next? ==> buf[..r.j] == old(buf[..j]) + (if old(buf[j - 1]) == 0 then [] else [0])
  {
    if buf[j - 1] != 0 {
      if j == buf.Length {
        return PastEnd;
      }
      buf[j] := 0;
      return Next(j + 1);
    }
    r := Next(j);
  }

  /** The last byte of a label that is not empty is not zero. */
  lemma LastByte(p: seq<byte>, w: seq<byte>)
    requires 0 !in w && FirstLen(w) == |w| <= MAX_LABEL
    ensures (p + LabelBytes(w))[|p| + |w|] == 0 <==> w == []
    ensures p + LabelBytes(w) + (if w == [] then [] else [0]) == p + LastBytes(w)
  {
    hide LabelBytes, FirstLen;
    LabelFacts(w);
    var l := LabelBytes(w);
    assert (p + l)[|p| + |w|] == l[|w|];
    if w != [] {
      assert l[|w|] == l[1..][|w| - 1] == w[|w| - 1];
    }
  }

  /** The table learns of the rest of the name, and its first label is written. */
  method PutLabel(buf: array<byte>, j: nat, w: seq<byte>, n: nat, table: LabelTable)
    requires n == FirstLen(w) <= MAX_LABEL && j + n + 1 <= buf.Length
    modifies buf, table
    ensures buf[..j + 1 + n] == old(buf[..j]) + LabelBytes(w)
    ensures table.labels == Note(old(table.labels), w, j)
  {
    hide FirstLen;
    var r := table.Add(w, j);
    Put(buf, j, LabelBytes(w));
  }

  /** Where the loop of dnsname_to_labels is: `w` is left of the name, `s` are the bytes in front of `j`. */
  ghost predicate Writing(p0: seq<byte>, had: seq<Entry>, name: seq<byte>, s: seq<byte>, entries: seq<Entry>,
                          w: seq<byte>) {
    && |s| + |w| == |p0| + |name| && |Ending(had, name)| <= |w| <= |name| && Ending(had, w) == Ending(had, name)
    && s + Encoding(had, w) == p0 + Encoding(had, name) && SameFor(entries, had, |w|)
    && Learned(had, entries, w, |s|) == Learned(had, had, name, |p0|)
  }

  lemma WritingMore(p0: seq<byte>, had: seq<Entry>, name: seq<byte>, s: seq<byte>, entries: seq<Entry>, w: seq<byte>)
    requires Writing(p0, had, name, s, entries, w) && !AtEnd(had, w)
    ensures Writing(p0, had, name, s + LabelBytes(w), Note(entries, w, |s|), Rest(w))
    ensures |Ending(had, name)| < |w| - FirstLen(w)
  {
    hide FirstLen, LabelBytes, Note, SameFor, Find, Rest, AtEnd, Ending, Encoding, Learned;
    EncodingMore(s, had, w);
    EndingMore(had, entries, w, |s|);
    NoteSame(entries, had, w, |s|, |Rest(w)|);
  }

  lemma EndingMore(had: seq<Entry>, entries: seq<Entry>, w: seq<byte>, j: nat)
    requires !AtEnd(had, w)
    ensures Ending(had, w) == Ending(had, Rest(w))
    ensures Learned(had, entries, w, j) == Learned(had, Note(entries, w, j), Rest(w), j + |LabelBytes(w)|)
  {
    hide FirstLen, LabelBytes, Note, Find, Rest;
  }

  lemma EncodingMore(s: seq<byte>, had: seq<Entry>, w: seq<byte>)
    requires !AtEnd(had, w)
    ensures s + Encoding(had, w) == (s + LabelBytes(w)) + Encoding(had, Rest(w))
  {
    hide FirstLen, LabelBytes, Find, Rest;
    Assoc(s, LabelBytes(w), Encoding(had, Rest(w)));
  }

  lemma NoteFits(entries: seq<Entry>, w: seq<byte>, j: nat)
    ensures |entries| <= MAX_LABELS ==> |Note(entries, w, j)| <= MAX_LABELS
  {
  }

  lemma WritingStart(p0: seq<byte>, had: seq<Entry>, name: seq<byte>)
    ensures Writing(p0, had, name, p0, had, name)
  {
    hide Find;
  }

  /** What the loop does next. */
  lemma WritingFacts(p0: seq<byte>, had: seq<Entry>, name: seq<byte>, s: seq<byte>, entries: seq<Entry>, w: seq<byte>)
    requires Writing(p0, had, name, s, entries, w)
    ensures Find(entries, w) == Find(had, w)
    ensures AtEnd(had, w) ==> Ending(had, name) == w
    ensures Find(had, w) >= 0 ==> p0 + Encoding(had, name) == s + PointerBytes(Find(had, w))
    ensures Find(had, w) >= 0 ==> Learned(had, had, name, |p0|) == entries
    ensures Find(had, w) < 0 && FirstLen(w) == |w| <= MAX_LABEL ==>
              && p0 + Encoding(had, name) == s + LastBytes(w)
              && Learned(had, had, name, |p0|) == Note(entries, w, |s|)
  {
    hide Find, FirstLen, LastBytes, PointerBytes, Note;
  }

  /**
   * dnsname_to_labels: writes a name from offset `j0` on, with a pointer in place of the rest of the
   * name if that is in the table.
   */
  method NameToLabels(buf: array<byte>, j0: nat, name: seq<byte>, table: LabelTable) returns (r: Outcome)
    requires j0 <= buf.Length && 0 !in name
    modifies buf, table
    ensures r == Verdict(old(table.labels), name, j0, buf.Length)
    ensures r.Next? ==>
              && buf[..r.j] == old(buf[..j0]) + Encoding(old(table.labels), name)
              && table.labels == Learned(old(table.labels), old(table.labels), name, j0)
    ensures |old(table.labels)| <= MAX_LABELS ==> |table.labels| <= MAX_LABELS
  {
    hide FirstLen, PointerBytes, LabelBytes, LastBytes, SameFor, Find, Ending, Encoding, Learned, Note;
    if |name| > MAX_NAME {
      return NoRoom;
    }
    var w, j := name, j0;
    ghost var p0, had := buf[..j0], table.labels;
    WritingStart(p0, had, name);
    while true
      invariant j0 <= j <= buf.Length && 0 !in w && Writing(p0, had, name, buf[..j], table.labels, w)
      invariant |had| <= MAX_LABELS ==> |table.labels| <= MAX_LABELS
      decreases |w|
    {
      WritingFacts(p0, had, name, buf[..j], table.labels, w);
      var ref := table.GetPos(w);
      if ref >= 0 {
        if j + 2 > buf.Length {
          return NoRoom;
        }
        Put(buf, j, PointerBytes(ref));
        return Next(j + 2);
      }
      var n := FirstLen(w);
      if n > MAX_LABEL {
        return LabelTooLong;
      }
      ghost var s, entries := buf[..j], table.labels;
      if n < |w| {
        WritingMore(p0, had, name, s, entries, w);
      }
      if j + n + 1 > buf.Length {
        return NoRoom;
      }
      NoteFits(entries, w, j);
      PutLabel(buf, j, w, n, table);
      j := j + 1 + n;
      if n == |w| {
        LastByte(s, w);
        assert buf[j - 1] == buf[..j][j - 1];
        r := Terminate(buf, j);
        return;
      }
      w := Rest(w);
    }
  }

  // ----- A message under construction -----

  /** A name that has been written: where it begins and ends, and the label table it was written with. */
  datatype NameAt = NameAt(name: seq<byte>, start: nat, end: nat, known: seq<Entry>)

  /** The message has the name there. */
  ghost predicate NameOk(p: seq<byte>, n: NameAt) {
    && At(p, n.start, n.known, n.name) && !Long(n.known, n.name) && n.end == n.start + |Encoding(n.known, n.name)|
    && TableOk(p, n.known) && Below(n.known, n.start)
  }

  ghost predicate NamesOk(p: seq<byte>, names: seq<NameAt>) {
    forall i | 0 <= i < |names| :: NameOk(p, names[i])
  }

  /** Names stay where they are when the message grows. */
  lemma NamesGrow(p: seq<byte>, q: seq<byte>, names: seq<NameAt>)
    requires NamesOk(p, names) && |p| <= |q| && q[..|p|] == p
    ensures NamesOk(q, names)
  {
    hide TableOk, Long, Encoding, Below, At;
    forall i | 0 <= i < |names| ensures NameOk(q, names[i]) {
      var n := names[i];
      assert NameOk(p, n);
      TableGrow(p, q, n.known);
      AtGrow(p, q, n.start, n.known, n.name);
    }
  }

  lemma AtGrow(p: seq<byte>, q: seq<byte>, j: nat, had: seq<Entry>, w: seq<byte>)
    requires At(p, j, had, w) && |p| <= |q| && q[..|p|] == p
    ensures At(q, j, had, w)
  {
    hide Encoding;
    SliceOfTake(q, |p|, j, j + |Encoding(had, w)|);
  }

  /** A name that has just been written behind `p`. */
  lemma NamesMore(p: seq<byte>, had: seq<Entry>, names: seq<NameAt>, name: seq<byte>)
    requires NamesOk(p, names) && TableOk(p, had) && !Long(had, name)
    ensures var q := p + Encoding(had, name);
            && NamesOk(q, names + [NameAt(name, |p|, |q|, had)])
            && TableOk(q, Learned(had, had, name, |p|))
  {
    hide NameOk, TableOk, Encoding, Learned, Long;
    var q := p + Encoding(had, name);
    NamesGrow(p, q, names);
    NameHere(p, had, name);
    LearnedOk(q, |p|, had, had, name);
  }

  lemma NameHere(p: seq<byte>, had: seq<Entry>, name: seq<byte>)
    requires TableOk(p, had) && !Long(had, name)
    ensures var q := p + Encoding(had, name);
            NameOk(q, NameAt(name, |p|, |q|, had)) && At(q, |p|, had, name) && TableOk(q, had) && Below(had, |p|)
  {
    hide Encoding, Long, Spelled, Labels;
    var q := p + Encoding(had, name);
    TableGrow(p, q, had);
    forall i | 0 <= i < |had| ensures had[i].pos < |p| {
      assert EntryOk(p, had[i]);
    }
  }

  /** The buffer of evdns_server_request_format_response, how far it is filled, and its label table. */
  class Message {
    const buf: array<byte>
    const table: LabelTable
    var j: nat
    ghost var names: seq<NameAt>

    constructor (size: nat)
      ensures Valid() && j == 0 && names == [] && table.labels == []
      ensures buf.Length == size && fresh(buf) && fresh(table)
    {
      buf := new byte[size](_ => 0);
      table := new LabelTable();
      j, names := 0, [];
    }

    ghost predicate Valid()
      reads this, buf, table
    {
      && j <= buf.Length && |table.labels| <= MAX_LABELS
      && TableOk(buf[..j], table.labels) && NamesOk(buf[..j], names)
    }

    /** APPEND16, APPEND32, and the memcpy of other data. */
    method AddBytes(s: seq<byte>) returns (ok: bool)
      requires Valid()
      modifies this`j, buf
      ensures Valid() && ok == (old(j) + |s| <= buf.Length)
      ensures ok ==> j == old(j) + |s| && buf[..j] == old(buf[..j]) + s
      ensures !ok ==> j == old(j) && buf[..] == old(buf[..])
    {
      hide TableOk, NamesOk;
      if j + |s| > buf.Length {
        return false;
      }
      ghost var p := buf[..j];
      Put(buf, j, s);
      TableGrow(p, p + s, table.labels);
      NamesGrow(p, p + s, names);
      j := j + |s|;
      ok := true;
    }

    /** A name. What has been written before is not changed by it. */
    method AddName(name: seq<byte>) returns (r: Outcome)
      requires Valid() && 0 !in name
      modifies this`j, this`names, buf, table
      ensures r == Verdict(old(table.labels), name, old(j), buf.Length)
      ensures r.Next? ==>
                && Valid() && j == r.j && names == old(names) + [NameAt(name, old(j), j, old(table.labels))]
                && buf[..j] == old(buf[..j]) + Encoding(old(table.labels), name)
                && table.labels == Learned(old(table.labels), old(table.labels), name, old(j))
    {
      hide TableOk, NamesOk, Encoding, Learned, Long, Verdict;
      ghost var p, had := buf[..j], table.labels;
      r := NameToLabels(buf, j, name, table);
      VerdictNext(had, name, j, buf.Length);
      if r.Next? {
        NamesMore(p, had, names, name);
        names := names + [NameAt(name, j, r.j, had)];
        j := r.j;
      }
    }

    /**
     * The data of a record that is itself a name: two bytes are left free, the name is written, and its
     * length is put into the two bytes. Nothing can be written if there is no room for the two bytes.
     */
    method AddNameWithLength(name: seq<byte>) returns (r: Outcome)
      requires Valid() && 0 !in name
      modifies this`j, this`names, buf, table
      ensures r.Next? <==> Verdict(old(table.labels), name, old(j) + 2, buf.Length).Next?
      ensures r.Next? ==>
                && r == Verdict(old(table.labels), name, old(j) + 2, buf.Length)
                && Valid() && j == r.j && names == old(names) + [NameAt(name, old(j) + 2, j, old(table.labels))]
                && buf[..j] == old(buf[..j]) + LengthBytes(j - old(j) - 2) + Encoding(old(table.labels), name)
                && table.labels == Learned(old(table.labels), old(table.labels), name, old(j) + 2)
                && buf[old(j)] as int * 0x100 + buf[old(j) + 1] as int == j - old(j) - 2
    {
      hide TableOk, NamesOk, Encoding, Learned, Long, Verdict;
      VerdictNext(table.labels, name, j + 2, buf.Length);
      EncodingShort(table.labels, name);
      if j + 2 > buf.Length {
        return NoRoom;
      }
      var lenIdx, nameStart := j, j + 2;
      ghost var p, p1, had := buf[..j], buf[..j + 2], table.labels;
      r := NameToLabels(buf, nameStart, name, table);
      if r.Next? {
        var n := r.j - nameStart;
        ghost var q := buf[..r.j];
        buf[lenIdx], buf[lenIdx + 1] := n / 0x100 % 0x100, n % 0x100;
        ghost var len := LengthBytes(n);
        assert (p + len)[..j] == p;
        TableGrow(p, p + len, had);
        NamesGrow(p, p + len, names);
        NamesMore(p + len, had, names, name);
        Patched(q, p, p1, Encoding(had, name), len, buf[..r.j]);
        names := names + [NameAt(name, nameStart, r.j, had)];
        assert buf[j] == len[0] && buf[j + 1] == len[1];
        j := r.j;
      }
    }
  }

  /** htons( (short) n) */
  function LengthBytes(n: nat): (l: seq<byte>)
    ensures |l| == 2 && (n < 0x1_0000 ==> l[0] as int * 0x100 + l[1] as int == n)
  {
    [n / 0x100 % 0x100, n % 0x100]
  }

  /** So the two bytes are enough. */
  lemma EncodingShort(had: seq<Entry>, name: seq<byte>)
    ensures |name| <= MAX_NAME && !Long(had, name) ==> |Encoding(had, name)| < 0x1_0000
  {
    hide Encoding;
    EncodingLength(had, name);
  }

  lemma Patched(q: seq<byte>, p: seq<byte>, p1: seq<byte>, enc: seq<byte>, len: seq<byte>, q': seq<byte>)
    requires q == p1 + enc && |p1| == |p| + 2 && |len| == 2 && p1[..|p|] == p
    requires q' == q[|p| := len[0]][|p| + 1 := len[1]]
    ensures q' == p + len + enc && q'[..|p|] == p
  {
  }

  /** The labels that are read at the beginning of a name are the name. */
  ghost predicate Faithful(p: seq<byte>, n: NameAt) {
    Spelled(p, n.start, Labels(n.name))
  }

  /** A name in a message is right exactly if `Right` says so; in the first 16384 bytes all names are. */
  lemma NameRight(p: seq<byte>, n: NameAt)
    requires NameOk(p, n)
    ensures Faithful(p, n) <==> Right(p, n.known, n.name)
    ensures n.start <= OFFSET_LIMIT ==> Faithful(p, n)
    ensures Ends(p, n.start, n.end) <==> !Stops(n.known, n.name)
    ensures Closed(n.name) ==> !Stops(n.known, n.name)
    ensures n.start < n.end <= |p|
  {
    hide At, Long, TableOk, Below, Spelled, Labels, Right, Stops, Encoding, FirstLen;
    RightExactly(p, n.start, n.known, n.name);
    ReadsTo(p, n.start, n.known, n.name);
    EncodingSome(n.known, n.name);
    AtInside(p, n.start, n.known, n.name);
    if n.start <= OFFSET_LIMIT {
      RightBelow(p, n.start, n.known, n.name);
    }
  }

  lemma AtInside(p: seq<byte>, j: nat, had: seq<Entry>, w: seq<byte>)
    requires At(p, j, had, w)
    ensures j + |Encoding(had, w)| <= |p|
  {
  }

  /** A whole message is read back as it was written exactly if no name in it has lost the bits of an offset. */
  lemma MessageRight(p: seq<byte>, names: seq<NameAt>)
    requires NamesOk(p, names)
    ensures (forall i | 0 <= i < |names| :: Faithful(p, names[i]))
            <==> (forall i | 0 <= i < |names| :: Right(p, names[i].known, names[i].name))
    ensures |p| <= OFFSET_LIMIT ==> forall i | 0 <= i < |names| :: Faithful(p, names[i])
  {
    hide Faithful, Right, Stops, Encoding, Closed;
    forall i | 0 <= i < |names| ensures Faithful(p, names[i]) <==> Right(p, names[i].known, names[i].name)
                                ensures |p| <= OFFSET_LIMIT ==> Faithful(p, names[i]) {
      NameRight(p, names[i]);
    }
  }

  /** Reading a name that is ended by a pointer gives its first labels, and those found where the pointer leads. */
  lemma {:induction false} HeadsFirst(p: seq<byte>, j: nat, had: seq<Entry>, w: seq<byte>, labels: seq<seq<byte>>)
    requires At(p, j, had, w) && Ref(had, w) >= 0 && !Stops(had, w) && Spelled(p, j, labels)
    ensures Heads(had, w) <= labels && Spelled(p, Ref(had, w) % OFFSET_LIMIT, labels[|Heads(had, w)|..])
    decreases |w|
  {
    hide FirstLen, Rest, Encoding;
    if AtEnd(had, w) {
      assert [] + labels[0..] == labels;
      ReadsAs(p, j, had, w, labels[0..]);
    } else {
      AtLabel(p, j, had, w);
      var hops: nat :| Spells(p, j, labels, hops);
      assert Spells(p, j + 1 + FirstLen(w), labels[1..], hops);
      HeadsFirst(p, j + 1 + FirstLen(w), had, Rest(w), labels[1..]);
      assert labels[1..][|Heads(had, Rest(w))|..] == labels[|Heads(had, w)|..];
    }
  }

  /**
   * A name in a finished message is read back as it was written, with its end, or, if the bits of its
   * offset are lost, with other labels behind its first ones, or not at all.
   */
  method ReadBack(m: Message, start: nat, nameOut: array<byte>, ghost n: NameAt)
    returns (result: int, idx: nat, ghost labels: seq<seq<byte>>)
    requires m.Valid() && n in m.names && n.start == start && m.buf != nameOut && nameOut.Length > |n.name|
    modifies nameOut
    ensures result == if Readable(m.buf[..m.j], start, nameOut.Length) then 0 else -1
    ensures result == 0 ==>
              && Spelled(m.buf[..m.j], n.start, labels) && |Join(labels)| < nameOut.Length
              && nameOut[..|Join(labels)|] == Join(labels) && nameOut[|Join(labels)|] == 0
    ensures result == 0 && labels == Labels(n.name) <==> Right(m.buf[..m.j], n.known, n.name)
    ensures n.name == [] || Proper(n.name) ==> Join(Labels(n.name)) == n.name
    ensures result == 0 && Ref(n.known, n.name) >= 0 && !Stops(n.known, n.name) ==>
              var k := |Heads(n.known, n.name)|;
              && k <= |labels| && labels[..k] == Heads(n.known, n.name)
              && Spelled(m.buf[..m.j], Ref(n.known, n.name) % OFFSET_LIMIT, labels[k..])
    ensures result == 0 && !Stops(n.known, n.name) ==> idx == n.end
    ensures m.Valid()
  {
    hide Spells, Ends, TableOk, Join, Labels, Closed, Proper, Right, Stops, At, Heads, Long, Ref, Encoding;
    ghost var p := m.buf[..m.j];
    ghost var i :| 0 <= i < |m.names| && m.names[i] == n;
    assert NameOk(p, n);
    NameRight(p, n);
    JoinLabels(n.name);
    labels := [];
    if Faithful(p, n) {
      ghost var hops: nat :| Spells(p, n.start, Labels(n.name), hops);
      Found(p, n.start, Labels(n.name), hops, nameOut.Length);
    }
    ghost var steps;
    result, idx, steps := NameParse(m.buf, m.j, start, nameOut, nameOut.Length);
    if result == 0 {
      ghost var ls, h :| Spells(p, n.start, ls, h) && |Join(ls)| < nameOut.Length;
      labels := ls;
      if Faithful(p, n) {
        ghost var hops: nat :| Spells(p, n.start, Labels(n.name), hops);
        SpellsOne(p, n.start, labels, h, Labels(n.name), hops);
      }
      if !Stops(n.known, n.name) {
        OneEnd(p, n.start, n.end, idx);
        if Ref(n.known, n.name) >= 0 {
          HeadsFirst(p, n.start, n.known, n.name, labels);
        }
      }
    }
  }

  /** A name ends at one place. */
  lemma {:induction false} OneEnd(p: seq<byte>, j: nat, e: nat, e': nat)
    requires Ends(p, j, e) && Ends(p, j, e')
    ensures e == e'
    decreases |p| - j
  {
    if p[j] != 0 && !IsPointer(p[j]) {
      OneEnd(p, j + 1 + p[j], e, e');
    }
  }

  // ----- A message in which an offset does not fit -----

  /** A name of one label that is not in the table. */
  lemma OneLabel(had: seq<Entry>, w: seq<byte>, j: nat)
    requires Find(had, w) < 0 && FirstLen(w) == |w| <= MAX_LABEL
    ensures !Long(had, w) && Encoding(had, w) == LastBytes(w) && Learned(had, had, w, j) == Note(had, w, j)
  {
  }

  /** A name that is in the table as a whole. */
  lemma OnePointer(had: seq<Entry>, w: seq<byte>)
    requires Find(had, w) >= 0
    ensures !Long(had, w) && Encoding(had, w) == PointerBytes(Find(had, w)) && Ref(had, w) == Find(had, w)
    ensures !Stops(had, w) && Ending(had, w) == w && Heads(had, w) == []
  {
  }

  /** A zero byte spells the name of the root and no other. */
  lemma RootOnly(p: seq<byte>, j: nat, labels: seq<seq<byte>>)
    requires j < |p| && p[j] == 0
    ensures Spelled(p, j, labels) <==> labels == []
  {
    assert labels == [] ==> Spells(p, j, labels, 0);
  }

  /** A pointer teaches the table nothing. */
  lemma PointerLearns(had: seq<Entry>, w: seq<byte>, j: nat)
    requires Find(had, w) >= 0
    ensures Learned(had, had, w, j) == had
  {
  }

  /** The label table when the first record is written, and when the last one is. */
  const QUESTION: seq<Entry> := [Entry([], 12)]
  const KNOWN: seq<Entry> := [Entry([], 12), Entry([97], 0x401d)]

  /** What is left of the offset 0x401d in a pointer is 0x1d. */
  lemma LostExactly(p: seq<byte>, n: NameAt)
    requires NameOk(p, n) && n.name == [97] && n.known == KNOWN && |p| > 0x1d && p[0x1d] == 0
    ensures !Right(p, n.known, n.name) && !Faithful(p, n) && Spelled(p, n.start, [])
    ensures forall labels :: Spelled(p, n.start, labels) ==> labels == []
  {
    hide At, TableOk, Long, Encoding, Spelled, Below;
    OnePointer(KNOWN, [97]);
    RootOnly(p, 0x1d, []);
    RootOnly(p, 0x1d, Labels([97]));
    NameRight(p, n);
    forall labels ensures Spelled(p, n.start, labels) <==> Spelled(p, 0x1d, labels) {
      ReadsAs(p, n.start, KNOWN, [97], labels);
      assert [] + labels == labels;
    }
    forall labels | Spelled(p, n.start, labels) ensures labels == [] {
      RootOnly(p, 0x1d, labels);
    }
  }

  /** The header of a response, and its question, which is for the root. */
  method Question(answers: byte) returns (m: Message)
    ensures m.Valid() && m.j == 17 && m.table.labels == QUESTION && |m.names| == 1
    ensures m.buf.Length == 0x1_0000 && fresh(m) && fresh(m.buf) && fresh(m.table)
  {
    hide Encoding, Learned, Long, Verdict, NamesOk, TableOk;
    m := new Message(0x1_0000);
    var ok := m.AddBytes([0, 1, 0x84, 0, 0, 1, 0, answers, 0, 0, 0, 0]);
    OneLabel([], [], 12);
    VerdictNext([], [], 12, 0x1_0000);
    var r := m.AddName([]);
    assert m.table.labels == QUESTION;
    ok := m.AddBytes([0, 16, 0, 1]);
  }

  /** Behind the question, a record for the root with `size` bytes of data, all zero; `answers` records in all. */
  method RootRecord(answers: byte, size: nat) returns (m: Message)
    requires size < 0x1_0000 - 29
    ensures m.Valid() && m.j == 29 + size && m.table.labels == QUESTION && |m.names| == 2
    ensures m.buf.Length == 0x1_0000 && (size > 0 ==> m.buf[29] == 0)
    ensures 29 + m.buf[27] as int * 0x100 + m.buf[28] as int == m.j
    ensures fresh(m) && fresh(m.buf) && fresh(m.table)
  {
    hide Encoding, Learned, Long, Verdict, NamesOk, TableOk;
    m := Question(answers);
    OnePointer(QUESTION, []);
    PointerLearns(QUESTION, [], 17);
    VerdictNext(QUESTION, [], 17, 0x1_0000);
    var r := m.AddName([]);
    assert m.table.labels == QUESTION;
    var ok := m.AddBytes([0, 16, 0, 1, 0, 0, 0, 0] + LengthBytes(size));
    ghost var p := m.buf[..29];
    assert p[27..] == LengthBytes(size);
    assert p[27] == LengthBytes(size)[0] && p[28] == LengthBytes(size)[1];
    ok := m.AddBytes(seq(size, _ => 0));
    assert m.buf[27] == m.buf[..m.j][27] == p[27] && m.buf[28] == m.buf[..m.j][28] == p[28];
    assert size > 0 ==> m.buf[29] == m.buf[..m.j][29] == 0;
  }

  /** The records before the last: one for the root with 16384 bytes of data, and one for the name "a". */
  method TwoRecords(fixed: seq<byte>) returns (m: Message)
    requires |fixed| == 8
    ensures m.Valid() && m.j == 0x402a && m.table.labels == KNOWN && m.buf[29] == 0 && |m.names| == 3
    ensures m.buf.Length == 0x1_0000 && fresh(m) && fresh(m.buf) && fresh(m.table)
  {
    hide Encoding, Learned, Long, Verdict, NamesOk, TableOk;
    m := RootRecord(3, 0x4000);
    ghost var p := m.buf[..m.j];
    OneLabel(QUESTION, [97], 0x401d);
    VerdictNext(QUESTION, [97], 0x401d, 0x1_0000);
    var r := m.AddName([97]);
    assert r.Next?;
    assert m.buf[29] == m.buf[..m.j][29] == p[29];
    p := m.buf[..m.j];
    var ok := m.AddBytes(fixed + [0, 0]);
    assert m.buf[29] == m.buf[..m.j][29] == p[29];
  }

  /**
   * A response to a question for the root, with three records: one for the root with 16384 bytes of
   * data and two for the name "a". The name of the last is a pointer to that of the one before, and is
   * read as the name of the root. A client gets the whole of it over TCP.
   */
  method LostBits() returns (m: Message, nameOut: array<byte>, result: int, ghost n: NameAt)
    ensures m.Valid() && m.j == 0x4036 && n in m.names && n == NameAt([97], 0x402a, 0x402c, KNOWN)
    ensures !Right(m.buf[..m.j], KNOWN, [97]) && Spelled(m.buf[..m.j], n.start, []) && !Faithful(m.buf[..m.j], n)
    ensures result == 0 && nameOut.Length == 256 && nameOut[0] == 0
  {
    hide Encoding, Learned, Long, Verdict, Right, Spells, Faithful, NameOk, TableOk, Readable;
    var fixed: seq<byte> := [0, 16, 0, 1, 0, 0, 0, 0];
    m := TwoRecords(fixed);
    ghost var p := m.buf[..m.j];
    OnePointer(KNOWN, [97]);
    VerdictNext(KNOWN, [97], 0x402a, 0x1_0000);
    var r := m.AddName([97]);
    assert m.buf[29] == m.buf[..m.j][29] == p[29];
    n := m.names[3];
    p := m.buf[..m.j];
    var ok := m.AddBytes(fixed + [0, 0]);
    p := m.buf[..m.j];
    assert p[29] == m.buf[29] == 0;
    LostExactly(p, n);
    nameOut := new byte[256];
    NoLabels();
    ghost var hops: nat :| Spells(p, n.start, [], hops);
    Found(p, n.start, [], hops, 256);
    var idx;
    ghost var labels;
    result, idx, labels := ReadBack(m, 0x402a, nameOut, n);
  }

  /**
   * A response in which everything but the terminator of a name fits: 65505 bytes of data leave two
   * bytes for the label "a", and the zero byte goes behind the buffer.
   */
  method NoTerminator() returns (m: Message, r: Outcome)
    ensures m.buf.Length == 0x1_0000 && r == PastEnd
  {
    hide Encoding, Learned, Long, NamesOk, TableOk;
    m := RootRecord(2, 65505);
    OneLabel(QUESTION, [97], 65534);
    VerdictPast(QUESTION, [97], 65534, 0x1_0000);
    r := m.AddName([97]);
  }
}
