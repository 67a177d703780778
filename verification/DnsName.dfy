/**
 * Names in DNS messages: length-prefixed labels up to a zero byte, where a pair of bytes with the top
 * bits set stands for the rest of a name elsewhere (sections 3.1 and 4.1.4 of RFC 1035).
 */
module DnsName {
  import opened Options

  const DOT: byte := 46
  const MAX_LABEL: nat := 63
  const MAX_NAME: nat := 255

  /** Labels with dots between them. */
  function Join(labels: seq<seq<byte>>): seq<byte> {
    if labels == [] then [] else if |labels| == 1 then labels[0] else labels[0] + [DOT] + Join(labels[1..])
  }

  /** Where the first label of a dotted name ends. */
  function FirstLen(name: seq<byte>): (n: nat)
    ensures n <= |name| && (n < |name| ==> name[n] == 46) && forall i | 0 <= i < n :: name[i] != 46
  {
    if name == [] || name[0] == DOT then 0 else 1 + FirstLen(name[1..])
  }

  /** The labels of a dotted name up to the first empty one. */
  ghost function Labels(name: seq<byte>): seq<seq<byte>> {
    var n := FirstLen(name);
    if n == 0 then [] else if n == |name| then [name] else [name[..n]] + Labels(name[n + 1..])
  }

  /** No label of the name is empty. */
  ghost predicate Proper(name: seq<byte>) {
    var n := FirstLen(name);
    n > 0 && (n < |name| ==> Proper(name[n + 1..]))
  }

  /** A name without empty labels, and the name of the root, are the joins of their labels, and no others are. */
  lemma {:induction false} JoinLabels(name: seq<byte>)
    ensures Join(Labels(name)) == name <==> name == [] || Proper(name)
    ensures |Join(Labels(name))| <= |name|
    ensures Labels(name) == [] <==> FirstLen(name) == 0
  {
    var n := FirstLen(name);
    if 0 < n < |name| {
      var rest := name[n + 1..];
      JoinLabels(rest);
      assert name == name[..n] + [DOT] + rest;
      var ls := Labels(name);
      assert ls[1..] == Labels(rest);
      if Labels(rest) != [] {
        assert Join(ls) == name[..n] + [DOT] + Join(Labels(rest));
        assert Join(ls)[n + 1..] == Join(Labels(rest));
        if Join(ls) == name {
          assert Join(Labels(rest)) == rest;
        }
      } else {
        assert |Join(ls)| == n;
      }
    }
  }

  // ----- What a message says -----

  /** label_len & 0xc0 */
  predicate IsPointer(b: byte) {
    b >= 0x40
  }

  /** The offset the pointer bytes stand for. */
  function Target(hi: byte, lo: byte): (offset: nat)
    ensures offset < 0x4000 && (hi as int * 0x100 + lo as int - offset) % 0x4000 == 0
  {
    hi % 0x40 * 0x100 + lo
  }

  /** From offset `j` on, the message spells these labels, following `hops` pointers. */
  ghost predicate Spells(p: seq<byte>, j: nat, labels: seq<seq<byte>>, hops: nat)
    decreases |labels|, hops
  {
    && j < |p|
    && if p[j] == 0 then labels == [] && hops == 0
       else if IsPointer(p[j]) then
         j + 1 < |p| && hops > 0 && Spells(p, Target(p[j], p[j + 1]), labels, hops - 1)
       else
         var n := p[j];
         labels != [] && j + 1 + n <= |p| && labels[0] == p[j + 1..j + 1 + n] && Spells(p, j + 1 + n, labels[1..], hops)
  }

  /** What a message spells has labels of 1 to 63 bytes: a length byte with either of its top bits set is a pointer. */
  lemma {:induction false} LabelsShort(p: seq<byte>, j: nat, labels: seq<seq<byte>>, hops: nat, i: nat)
    requires Spells(p, j, labels, hops) && i < |labels|
    ensures 1 <= |labels[i]| <= 63
    decreases |labels|, hops
  {
    if IsPointer(p[j]) {
      LabelsShort(p, Target(p[j], p[j + 1]), labels, hops - 1, i);
    } else if i > 0 {
      LabelsShort(p, j + 1 + p[j], labels[1..], hops, i - 1);
    }
  }

  /** The name at offset `j` itself takes the bytes up to `e`. */
  ghost predicate Ends(p: seq<byte>, j: nat, e: nat)
    decreases |p| - j
  {
    && j < |p|
    && if p[j] == 0 then e == j + 1
       else if IsPointer(p[j]) then j + 1 < |p| && e == j + 2
       else j + 1 + p[j] <= |p| && Ends(p, j + 1 + p[j], e)
  }

  /** A message cannot spell two different names at one offset. */
  lemma {:induction false} SpellsOne(p: seq<byte>, j: nat, labels: seq<seq<byte>>, hops: nat, labels': seq<seq<byte>>,
                                     hops': nat)
    requires Spells(p, j, labels, hops) && Spells(p, j, labels', hops')
    ensures labels == labels' && hops == hops'
    decreases |labels|, hops
  {
    if p[j] != 0 {
      if IsPointer(p[j]) {
        SpellsOne(p, Target(p[j], p[j + 1]), labels, hops - 1, labels', hops' - 1);
      } else {
        SpellsOne(p, j + 1 + p[j], labels[1..], hops, labels'[1..], hops');
        assert labels == [labels[0]] + labels[1..] && labels' == [labels'[0]] + labels'[1..];
      }
    }
  }

  /** What is spelled stays spelled when the message grows. */
  lemma {:induction false} SpellsGrow(p: seq<byte>, q: seq<byte>, j: nat, labels: seq<seq<byte>>, hops: nat)
    requires Spells(p, j, labels, hops) && |p| <= |q| && q[..|p|] == p
    ensures Spells(q, j, labels, hops)
    decreases |labels|, hops
  {
    assert forall i | 0 <= i < |p| :: q[i] == q[..|p|][i];
    if p[j] != 0 {
      if IsPointer(p[j]) {
        SpellsGrow(p, q, Target(p[j], p[j + 1]), labels, hops - 1);
      } else {
        SpellsGrow(p, q, j + 1 + p[j], labels[1..], hops);
        assert q[j + 1..j + 1 + p[j]] == p[j + 1..j + 1 + p[j]];
      }
    }
  }

  lemma {:induction false} EndsGrow(p: seq<byte>, q: seq<byte>, j: nat, e: nat)
    requires Ends(p, j, e) && |p| <= |q| && q[..|p|] == p
    ensures Ends(q, j, e) && j < e <= |p|
    decreases |p| - j
  {
    assert forall i | 0 <= i < |p| :: q[i] == q[..|p|][i];
    if p[j] != 0 && !IsPointer(p[j]) {
      EndsGrow(p, q, j + 1 + p[j], e);
    }
  }

  // ----- Pointers do not repeat -----

  lemma {:induction false} Bounded(s: set<int>, n: nat)
    requires forall x | x in s :: 0 <= x < n
    ensures |s| <= n
  {
    if n > 0 {
      Bounded(s - {n - 1}, n - 1);
      assert s <= (s - {n - 1}) + {n - 1};
    } else {
      assert forall x :: x !in s;
    }
  }

  /** At this offset a name with at least one and at most so many pointers begins. */
  ghost predicate Ahead(p: seq<byte>, x: int, hops: nat) {
    0 <= x && exists ls, h :: 0 < h <= hops && Spells(p, x, ls, h)
  }

  /** The offsets of the pointers that are followed, all different. */
  lemma {:induction false} Pointers(p: seq<byte>, j: nat, labels: seq<seq<byte>>, hops: nat) returns (s: set<int>)
    requires Spells(p, j, labels, hops)
    ensures |s| == hops && forall x | x in s :: 0 <= x < |p|
    ensures forall x | x in s :: Ahead(p, x, hops)
    decreases |labels|, hops
  {
    if p[j] == 0 {
      s := {};
    } else if IsPointer(p[j]) {
      s := Pointers(p, Target(p[j], p[j + 1]), labels, hops - 1);
      if Ahead(p, j, hops - 1) {
        var ls, h :| 0 < h <= hops - 1 && Spells(p, j, ls, h);
        SpellsOne(p, j, labels, hops, ls, h);
      }
      assert Ahead(p, j, hops);
      s := s + {j};
    } else {
      s := Pointers(p, j + 1 + p[j], labels[1..], hops);
    }
  }

  /** A name follows no more pointers than the message has bytes. */
  lemma HopsBounded(p: seq<byte>, j: nat, labels: seq<seq<byte>>, hops: nat)
    requires Spells(p, j, labels, hops)
    ensures hops <= |p|
  {
    var s := Pointers(p, j, labels, hops);
    Bounded(s, |p|);
  }

  // ----- Decoding -----

  lemma {:induction false} JoinSnoc(labels: seq<seq<byte>>, l: seq<byte>)
    ensures Join(labels + [l]) == if labels == [] then l else Join(labels) + [DOT] + l
  {
    if labels == [] {
      assert labels + [l] == [l];
    } else {
      JoinSnoc(labels[1..], l);
      assert (labels + [l])[1..] == labels[1..] + [l];
      assert Join(labels + [l]) == labels[0] + [DOT] + Join(labels[1..] + [l]);
      if |labels| > 1 {
        assert labels[0] + [DOT] + (Join(labels[1..]) + [DOT] + l)
            == (labels[0] + [DOT] + Join(labels[1..])) + [DOT] + l;
      }
    }
  }

  lemma {:induction false} JoinPrefix(labels: seq<seq<byte>>, all: seq<seq<byte>>)
    requires labels <= all
    ensures |Join(labels)| <= |Join(all)|
  {
    if labels != [] {
      JoinPrefix(labels[1..], all[1..]);
    }
  }

  /** Reading from `start` has given `labels` and followed `hops` pointers, and goes on at `j`. */
  ghost predicate ReadTo(p: seq<byte>, start: nat, labels: seq<seq<byte>>, hops: nat, j: nat) {
    && (forall rest, h: nat {:trigger Spells(p, j, rest, h)} ::
       Spells(p, j, rest, h) ==> Spells(p, start, labels + rest, hops + h))
    && (forall all, h: nat {:trigger Spells(p, start, all, h)} :: Spells(p, start, all, h) ==>
          hops <= h && labels <= all && Spells(p, j, all[|labels|..], h - hops))
  }

  lemma ReadNothing(p: seq<byte>, start: nat)
    ensures ReadTo(p, start, [], 0, start)
  {
    forall rest, h: nat | Spells(p, start, rest, h) ensures Spells(p, start, [] + rest, 0 + h) {
      assert [] + rest == rest;
    }
    forall all, h: nat | Spells(p, start, all, h) ensures Spells(p, start, all[0..], h - 0) {
      assert all[0..] == all;
    }
  }

  lemma ReadPointer(p: seq<byte>, start: nat, labels: seq<seq<byte>>, hops: nat, j: nat)
    requires ReadTo(p, start, labels, hops, j) && j + 1 < |p| && IsPointer(p[j])
    ensures ReadTo(p, start, labels, hops + 1, Target(p[j], p[j + 1]))
  {
    var t := Target(p[j], p[j + 1]);
    forall rest, h: nat | Spells(p, t, rest, h) ensures Spells(p, start, labels + rest, hops + 1 + h) {
      assert Spells(p, j, rest, h + 1);
    }
    forall all, h: nat | Spells(p, start, all, h)
      ensures hops + 1 <= h && labels <= all && Spells(p, t, all[|labels|..], h - (hops + 1))
    {
      assert Spells(p, j, all[|labels|..], h - hops);
    }
  }

  lemma ReadLabel(p: seq<byte>, start: nat, labels: seq<seq<byte>>, hops: nat, j: nat)
    requires ReadTo(p, start, labels, hops, j) && j < |p| && 0 < p[j] < 0x40 && j + 1 + p[j] <= |p|
    ensures ReadTo(p, start, labels + [p[j + 1..j + 1 + p[j]]], hops, j + 1 + p[j])
  {
    var k, l := j + 1 + p[j], p[j + 1..j + 1 + p[j]];
    forall rest, h: nat | Spells(p, k, rest, h) ensures Spells(p, start, labels + [l] + rest, hops + h) {
      assert ([l] + rest)[1..] == rest;
      assert Spells(p, j, [l] + rest, h);
      assert labels + ([l] + rest) == labels + [l] + rest;
    }
    forall all, h: nat | Spells(p, start, all, h)
      ensures hops <= h && labels + [l] <= all && Spells(p, k, all[|labels + [l]|..], h - hops)
    {
      var rest := all[|labels|..];
      assert Spells(p, j, rest, h - hops);
      assert all == labels + rest && rest == [rest[0]] + rest[1..];
      assert rest[1..] == all[|labels + [l]|..];
    }
  }

  /**
   * Where the name at `start` ends, if reading has come to `j` and seen a pointer that ends at `e`, if
   * `e` is not negative.
   */
  ghost predicate EndSeen(p: seq<byte>, start: nat, j: nat, e: int) {
    if e < 0 then forall x {:trigger Ends(p, j, x)} :: Ends(p, j, x) ==> Ends(p, start, x) else Ends(p, start, e)
  }

  /** There is a name here, and it fits. */
  ghost predicate Readable(p: seq<byte>, start: nat, room: nat) {
    exists labels, hops :: Spells(p, start, labels, hops) && |Join(labels)| < room
  }

  ghost predicate NoName(p: seq<byte>, j: nat) {
    forall labels, hops: nat :: !Spells(p, j, labels, hops)
  }

  /** What has been read does not lead to a name, or to one that is too long. */
  lemma NotReadable(p: seq<byte>, start: nat, labels: seq<seq<byte>>, hops: nat, j: nat, room: nat)
    requires ReadTo(p, start, labels, hops, j)
    requires NoName(p, j) || |Join(labels)| >= room || hops > |p|
    ensures !Readable(p, start, room)
  {
    forall all, h: nat | Spells(p, start, all, h) ensures |Join(all)| >= room {
      assert hops <= h && Spells(p, j, all[|labels|..], h - hops);
      HopsBounded(p, start, all, h);
      JoinPrefix(labels, all);
    }
  }

  /** The whole name has been read. */
  lemma ReadAll(p: seq<byte>, start: nat, labels: seq<seq<byte>>, hops: nat, j: nat)
    requires ReadTo(p, start, labels, hops, j) && j < |p| && p[j] == 0
    ensures Spells(p, start, labels, hops)
    ensures forall all, h: nat :: Spells(p, start, all, h) ==> all == labels
  {
    assert Spells(p, j, [], 0);
    assert labels + [] == labels;
    forall all, h: nat | Spells(p, start, all, h) ensures all == labels {
      SpellsOne(p, start, all, h, labels, hops);
    }
  }

  lemma Found(p: seq<byte>, start: nat, labels: seq<seq<byte>>, hops: nat, room: nat)
    requires Spells(p, start, labels, hops) && |Join(labels)| < room
    ensures Readable(p, start, room)
  {
  }

  /** memcpy */
  method Copy(src: array<byte>, from: nat, dst: array<byte>, to: nat, n: nat)
    requires src != dst && from + n <= src.Length && to + n <= dst.Length
    modifies dst
    ensures dst[..] == old(dst[..to]) + src[from..from + n] + old(dst[to + n..])
  {
    forall i | 0 <= i < n {
      dst[to + i] := src[from + i];
    }
  }

  lemma EndAt(p: seq<byte>, start: nat, j: nat, nameEnd: int)
    requires EndSeen(p, start, j, nameEnd) && j < |p|
    ensures p[j] == 0 ==> Ends(p, start, if nameEnd < 0 then j + 1 else nameEnd)
    ensures IsPointer(p[j]) && j + 1 < |p| ==>
              EndSeen(p, start, Target(p[j], p[j + 1]), if nameEnd < 0 then j + 2 else nameEnd)
    ensures 0 < p[j] < 0x40 && j + 1 + p[j] <= |p| ==> EndSeen(p, start, j + 1 + p[j], nameEnd)
  {
    if nameEnd < 0 && 0 < p[j] < 0x40 && j + 1 + p[j] <= |p| {
      forall x | Ends(p, j + 1 + p[j], x) ensures Ends(p, start, x) {
        assert Ends(p, j, x);
      }
    }
    assert p[j] == 0 ==> Ends(p, j, j + 1);
    assert IsPointer(p[j]) && j + 1 < |p| ==> Ends(p, j, j + 2);
  }

  /** What is at an offset: the end of the message, half a pointer, or a label that does not fit in. */
  lemma Nothing(p: seq<byte>, j: nat)
    ensures j >= |p| ==> NoName(p, j)
    ensures j < |p| && IsPointer(p[j]) && j + 1 >= |p| ==> NoName(p, j)
    ensures j < |p| && 0 < p[j] < 0x40 && j + 1 + p[j] > |p| ==> NoName(p, j)
    ensures j + 1 < |p| && IsPointer(p[j]) && NoName(p, Target(p[j], p[j + 1])) ==> NoName(p, j)
  {
  }

  lemma EndAtIf(p: seq<byte>, start: nat, j: nat, nameEnd: int)
    requires EndSeen(p, start, j, nameEnd)
    ensures j < |p| && p[j] == 0 ==> Ends(p, start, if nameEnd < 0 then j + 1 else nameEnd)
    ensures j + 1 < |p| && IsPointer(p[j]) ==>
              EndSeen(p, start, Target(p[j], p[j + 1]), if nameEnd < 0 then j + 2 else nameEnd)
    ensures j < |p| && 0 < p[j] < 0x40 && j + 1 + p[j] <= |p| ==> EndSeen(p, start, j + 1 + p[j], nameEnd)
  {
    if j < |p| {
      EndAt(p, start, j, nameEnd);
    }
  }

  lemma EndNotSeen(p: seq<byte>, start: nat)
    ensures EndSeen(p, start, start, -1)
  {
  }

  lemma NoLabels()
    ensures Join([]) == []
  {
  }

  /** How long the name is with one more label of `n` bytes. */
  function Longer(length: nat, n: nat): nat {
    if length == 0 then n else length + 1 + n
  }

  /** The label at `j` is one too many. */
  lemma NotReadableLabel(p: seq<byte>, start: nat, labels: seq<seq<byte>>, hops: nat, j: nat, room: nat)
    requires ReadTo(p, start, labels, hops, j) && j < |p| && 0 < p[j] < 0x40 && (Join(labels) == [] <==> labels == [])
    requires j + 1 + p[j] > |p| || Longer(|Join(labels)|, p[j]) >= room
    ensures !Readable(p, start, room)
  {
    hide ReadTo, Spells, Join, NoName, Readable;
    if j + 1 + p[j] > |p| {
      Nothing(p, j);
      NotReadable(p, start, labels, hops, j, room);
    } else {
      var l := p[j + 1..j + 1 + p[j]];
      ReadLabel(p, start, labels, hops, j);
      JoinSnoc(labels, l);
      NotReadable(p, start, labels + [l], hops, j + 1 + p[j], room);
    }
  }

  lemma SliceOfTake(q: seq<byte>, m: nat, a: nat, b: nat)
    requires a <= b <= m <= |q|
    ensures q[..m][a..b] == q[a..b]
  {
  }

  /** One label of name_parse, with a dot in front of it if it is not the first. */
  method AddLabel(packet: array<byte>, length: nat, j: nat, nameOut: array<byte>, nameOutLen: nat, cp0: nat,
                  ghost labels: seq<seq<byte>>)
    returns (ok: bool, cp: nat)
    requires packet != nameOut && j < length <= packet.Length && nameOutLen <= nameOut.Length && 0 < packet[j] < 0x40
    requires cp0 == |Join(labels)| && cp0 <= nameOutLen && nameOut[..cp0] == Join(labels)
             && (cp0 == 0 <==> labels == [])
    modifies nameOut
    ensures ok == (j + 1 + packet[j] <= length && Longer(cp0, packet[j]) < nameOutLen)
    ensures ok ==>
              cp == Longer(cp0, packet[j])
              && nameOut[..cp] == Join(labels + [packet[..length][j + 1..j + 1 + packet[j]]])
    ensures nameOut[nameOutLen..] == old(nameOut[nameOutLen..])
  {
    hide Join;
    ghost var out0 := nameOut[..];
    var labelLen := packet[j];
    cp := cp0;
    if cp != 0 {
      if cp + 1 >= nameOutLen {
        return false, cp;
      }
      nameOut[cp] := DOT;
      cp := cp + 1;
    }
    ghost var out1 := nameOut[..];
    if cp + labelLen >= nameOutLen {
      return false, cp;
    }
    if j + 1 + labelLen > length {
      return false, cp;
    }
    Copy(packet, j + 1, nameOut, cp, labelLen);
    ghost var out2 := nameOut[..];
    ghost var l := packet[..length][j + 1..j + 1 + labelLen];
    SliceOfTake(packet[..], length, j + 1, j + 1 + labelLen);
    assert out2 == out1[..cp] + l + out1[cp + |l|..];
    JoinSnoc(labels, l);
    Appended(out0, out1, out2, cp0, l, nameOutLen);
    ok, cp := true, cp + labelLen;
  }

  lemma Appended(out0: seq<byte>, out1: seq<byte>, out2: seq<byte>, cp: nat, l: seq<byte>, end: nat)
    requires cp <= |out0| == |out1| && (if cp == 0 then out1 == out0 else cp < |out0| && out1 == out0[cp := DOT])
    requires Longer(cp, |l|) < end <= |out1| && l != []
    requires var k := if cp == 0 then 0 else cp + 1; out2 == out1[..k] + l + out1[k + |l|..]
    ensures |out2| == |out0| && out2[end..] == out0[end..]
    ensures out2[..Longer(cp, |l|)] == (if cp == 0 then l else out0[..cp] + [DOT] + l)
  {
  }

  /**
   * name_parse, on any bytes: it succeeds if and only if there is a name at `start` and it fits, and
   * then it gives the labels, with dots between them. The loop check never refuses a name. `steps`
   * counts the iterations.
   */
  method NameParse(packet: array<byte>, length: nat, start: nat, nameOut: array<byte>, nameOutLen: nat)
    returns (result: int, idx: nat, ghost steps: nat)
    requires packet != nameOut && length <= packet.Length && nameOutLen <= nameOut.Length
    modifies nameOut
    ensures result == if Readable(packet[..length], start, nameOutLen) then 0 else -1
    ensures result == 0 ==> Ends(packet[..length], start, idx) && start < idx <= length
    ensures result == -1 ==> idx == start
    ensures result == 0 ==>
              forall labels, hops: nat :: Spells(packet[..length], start, labels, hops) ==>
                && |Join(labels)| < nameOutLen && nameOut[..|Join(labels)|] == Join(labels)
                   && nameOut[|Join(labels)|] == 0
    ensures steps <= length + nameOutLen + 2
    ensures nameOut[nameOutLen..] == old(nameOut[nameOutLen..])
  {
    hide ReadTo, Spells, Ends, EndSeen, Readable, Join, NoName;
    ghost var p, labels: seq<seq<byte>> := packet[..length], [];
    ReadNothing(p, start);
    EndNotSeen(p, start);
    NoLabels();
    idx, result, steps := start, -1, 0;
    var nameEnd: int, j: nat, ptrCount: nat, cp: nat := -1, start, 0, 0;
    while true
      invariant result == -1 && idx == start && ptrCount <= length && steps == ptrCount + |labels|
      invariant ReadTo(p, start, labels, ptrCount, j) && EndSeen(p, start, j, nameEnd)
      invariant cp == |Join(labels)| && |labels| <= cp && (cp == 0 <==> labels == []) && cp <= nameOutLen
      invariant nameOut[..cp] == Join(labels) && nameOut[nameOutLen..] == old(nameOut[nameOutLen..])
      decreases length - ptrCount, nameOutLen - cp
    {
      Nothing(p, j);
      EndAtIf(p, start, j, nameEnd);
      steps := steps + 1;
      if j >= length {
        NotReadable(p, start, labels, ptrCount, j, nameOutLen);
        return;
      }
      var labelLen := packet[j];
      if labelLen == 0 {
        break;
      }
      if IsPointer(labelLen) {
        if j + 1 >= length {
          NotReadable(p, start, labels, ptrCount, j, nameOutLen);
          return;
        }
        if nameEnd < 0 {
          nameEnd := j + 2;
        }
        ReadPointer(p, start, labels, ptrCount, j);
        j := Target(labelLen, packet[j + 1]);
        Nothing(p, j);
        ptrCount := ptrCount + 1;
        if j >= length || ptrCount > length {
          NotReadable(p, start, labels, ptrCount, j, nameOutLen);
          return;
        }
      } else {
        var ok;
        ok, cp := AddLabel(packet, length, j, nameOut, nameOutLen, cp, labels);
        if !ok {
          NotReadableLabel(p, start, labels, ptrCount, j, nameOutLen);
          return;
        }
        ReadLabel(p, start, labels, ptrCount, j);
        labels := labels + [p[j + 1..j + 1 + labelLen]];
        j := j + 1 + labelLen;
      }
    }
    ReadAll(p, start, labels, ptrCount, j);
    if cp >= nameOutLen {
      NotReadable(p, start, labels, ptrCount, j, nameOutLen);
      return;
    }
    assert Readable(p, start, nameOutLen) by {
      Found(p, start, labels, ptrCount, nameOutLen);
    }
    nameOut[cp] := 0;
    idx := if nameEnd < 0 then j + 1 else nameEnd;
    assert p[..|p|] == p;
    EndsGrow(p, p, start, idx);
    result := 0;
  }
}
