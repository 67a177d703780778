/**
 * Integers written as a count and as many nibbles, and tags written in groups of seven bits. Both
 * put the least significant part first.
 */
module TagCodec {
  import opened Options

  // -------- integers

  /** The nibbles of a number, least significant first; none for zero. */
  ghost function Nibbles(n: nat): (s: seq<nat>)
    ensures forall x :: x in s ==> x < 16
  {
    if n == 0 then [] else [n % 16] + Nibbles(n / 16)
  }

  /** The number with these nibbles. */
  ghost function Number(s: seq<nat>): nat {
    if s == [] then 0 else s[0] + 16 * Number(s[1..])
  }

  function Pow16(n: nat): (p: nat)
    ensures p > 0
  {
    if n == 0 then 1 else 16 * Pow16(n - 1)
  }

  /** Nibble `k` of some bytes: the high half of a byte comes before its low half. */
  function NibbleAt(data: seq<byte>, k: nat): nat
    requires k / 2 < |data|
  {
    if k % 2 == 0 then data[k / 2] / 16 else data[k / 2] % 16
  }

  /** Nibbles from `from` to below `to`. */
  ghost function Slice(data: seq<byte>, from: nat, to: nat): seq<nat>
    requires from <= to <= 2 * |data|
  {
    seq<nat>(to - from, i requires 0 <= i < to - from => NibbleAt(data, from + i))
  }

  /** The bytes of an encoded integer: their number, the count of nibbles minus one, and the nibbles. */
  ghost predicate IsInt(data: seq<byte>, n: nat) {
    var k := |Nibbles(n)|;
    && |data| == k / 2 + 1
    && NibbleAt(data, 0) == (if k == 0 then 0 else k - 1)
    && Slice(data, 1, k + 1) == Nibbles(n)
    && (k % 2 == 0 ==> NibbleAt(data, k + 1) == 0)
  }

  /** These are all the bytes, so an integer has one encoding. */
  lemma IntUnique(a: seq<byte>, b: seq<byte>, n: nat)
    requires IsInt(a, n) && IsInt(b, n)
    ensures a == b
  {
    var k := |Nibbles(n)|;
    forall j | 0 <= j < |a| ensures a[j] == b[j] {
      NibblesEqual(a, b, n, 2 * j);
      NibblesEqual(a, b, n, 2 * j + 1);
      assert NibbleAt(a, 2 * j) == a[j] / 16 && NibbleAt(b, 2 * j) == b[j] / 16;
      assert NibbleAt(a, 2 * j + 1) == a[j] % 16 && NibbleAt(b, 2 * j + 1) == b[j] % 16;
    }
  }

  lemma NibblesEqual(a: seq<byte>, b: seq<byte>, n: nat, j: nat)
    requires IsInt(a, n) && IsInt(b, n) && j < 2 * |a|
    ensures NibbleAt(a, j) == NibbleAt(b, j)
  {
    var k := |Nibbles(n)|;
    if 1 <= j <= k {
      assert NibbleAt(a, j) == Slice(a, 1, k + 1)[j - 1];
      assert NibbleAt(b, j) == Slice(b, 1, k + 1)[j - 1];
    }
  }

  lemma {:induction false} NumberOfNibbles(n: nat)
    ensures Number(Nibbles(n)) == n
  {
    if n > 0 {
      NumberOfNibbles(n / 16);
      assert Nibbles(n)[1..] == Nibbles(n / 16);
    }
  }

  lemma {:induction false} FewNibbles(n: nat, k: nat)
    requires n < Pow16(k)
    ensures |Nibbles(n)| <= k
  {
    if n > 0 {
      FewNibbles(n / 16, k - 1);
    }
  }

  lemma {:induction false} NumberBound(s: seq<nat>)
    requires forall x :: x in s ==> x < 16
    ensures Number(s) < Pow16(|s|)
  {
    if s != [] {
      forall x | x in s[1..] ensures x < 16 {
        assert x in s;
      }
      NumberBound(s[1..]);
      assert s[0] in s && Pow16(|s|) == 16 * Pow16(|s[1..]|);
    }
  }

  lemma Powers()
    ensures Pow16(8) == 0x1_0000_0000 && Pow16(16) == 0x1_0000_0000_0000_0000
  {
    assert Pow16(4) == 0x1_0000;
    assert Pow16(8) == 16 * (16 * (16 * (16 * Pow16(4))));
    assert Pow16(12) == 16 * (16 * (16 * (16 * Pow16(8))));
    assert Pow16(16) == 16 * (16 * (16 * (16 * Pow16(12))));
  }

  /** What a decoder makes of the start of `s`: the number, and how many bytes it takes. */
  ghost function IntAt(s: seq<byte>, maxNibbles: nat): Option<(nat, nat)> {
    if s == [] then None else
      var k := s[0] / 16 + 1;
      if k > maxNibbles || k / 2 + 1 > |s| then None else Some((Number(Slice(s, 1, k + 1)), k / 2 + 1))
  }

  /** Decoding undoes encoding, whatever follows. */
  lemma IntRoundTrip(data: seq<byte>, n: nat, maxNibbles: nat, rest: seq<byte>)
    requires IsInt(data, n) && n < Pow16(maxNibbles) && 0 < maxNibbles <= 16
    ensures IntAt(data + rest, maxNibbles) == Some((n, |data|))
  {
    hide Number, Pow16, Nibbles;
    var s, k := data + rest, |Nibbles(n)|;
    FewNibbles(n, maxNibbles);
    NumberOfNibbles(n);
    assert s[0] == data[0] && NibbleAt(data, 0) == data[0] / 16;
    if k == 0 {
      assert NibbleAt(data, 1) == data[0] % 16 == 0;
      assert Slice(s, 1, 2) == [0];
      NumberOfZero(n);
    } else {
      SliceOfFirst(data, rest, 1, k + 1);
    }
  }

  lemma NumberOfZero(n: nat)
    ensures Number([0]) == 0 && (Nibbles(n) == [] ==> n == 0)
  {
  }

  lemma SliceOfFirst(data: seq<byte>, rest: seq<byte>, from: nat, to: nat)
    requires from <= to <= 2 * |data|
    ensures Slice(data + rest, from, to) == Slice(data, from, to)
  {
    forall i | from <= i < to ensures NibbleAt(data + rest, i) == NibbleAt(data, i) {
    }
  }

  /** A nibble of a byte replaced: `(b & 0xf0) | x` and `(b & 0x0f) | x << 4`. */
  function WithLow(b: byte, x: nat): byte
    requires x < 16
  {
    b / 16 * 16 + x
  }

  function WithHigh(b: byte, x: nat): byte
    requires x < 16
  {
    b % 16 + x * 16
  }

  /** Nibbles from `off` on are zero, and those from 1 up to it are `s`. */
  ghost predicate Written(data: seq<byte>, off: nat, s: seq<nat>) {
    && off == |s| + 1 <= 2 * |data|
    && Slice(data, 1, off) == s
    && forall j | off <= j < 2 * |data| :: NibbleAt(data, j) == 0
  }

  /** Writing one more nibble. */
  lemma WrittenNext(data: seq<byte>, data': seq<byte>, off: nat, s: seq<nat>, x: nat)
    requires Written(data, off, s) && x < 16 && off < 2 * |data| && |data'| == |data|
    requires data' == data[off / 2 := if off % 2 == 1 then WithLow(data[off / 2], x) else WithHigh(data[off / 2], x)]
    ensures Written(data', off + 1, s + [x])
  {
    forall j | 1 <= j < 2 * |data|
      ensures NibbleAt(data', j) == if j == off then x else NibbleAt(data, j)
    {
      assert j == 2 * (j / 2) + j % 2 && off == 2 * (off / 2) + off % 2;
    }
    var t := Slice(data', 1, off + 1);
    forall i | 0 <= i < |t| ensures t[i] == (s + [x])[i] {
      if i < |s| {
        assert s[i] == Slice(data, 1, off)[i];
      }
    }
  }

  lemma WrittenNone(data: seq<byte>)
    requires data != [] && forall i | 0 <= i < |data| :: data[i] == 0
    ensures Written(data, 1, [])
  {
  }

  /** The count in front of the nibbles completes an integer. */
  lemma WrittenAll(data: seq<byte>, data': seq<byte>, off: nat, n: nat)
    requires Written(data, off, Nibbles(n)) && off <= 17
    requires data' == data[0 := WithHigh(data[0], if off > 2 then off - 2 else 0)]
    ensures IsInt(data'[..(off + 1) / 2], n)
  {
    var d := data'[..(off + 1) / 2];
    forall j | 1 <= j < 2 * |d| ensures NibbleAt(d, j) == NibbleAt(data, j) {
      assert j == 2 * (j / 2) + j % 2;
    }
    var t := Slice(d, 1, off);
    forall i | 0 <= i < |t| ensures t[i] == Nibbles(n)[i] {
      assert Nibbles(n)[i] == Slice(data, 1, off)[i];
    }
    assert t == Nibbles(n);
  }

  ghost function Field(data: array<byte>, base: nat, n: nat): seq<byte>
    requires base + n <= data.Length
    reads data
  {
    data[base..base + n]
  }

  /** Only the `n` bytes from `base` on have changed. */
  ghost predicate Elsewhere(data: array<byte>, base: nat, n: nat, was: seq<byte>)
    requires base + n <= data.Length == |was|
    reads data
  {
    forall i | 0 <= i < |was| && !(base <= i < base + n) :: data[i] == was[i]
  }

  method Clear(data: array<byte>, base: nat, n: nat)
    requires 0 < n && base + n <= data.Length
    modifies data
    ensures Written(Field(data, base, n), 1, [])
    ensures Elsewhere(data, base, n, old(data[..]))
  {
    forall i | base <= i < base + n {
      data[i] := 0;
    }
    FieldLength(data, base, n);
    WrittenNone(Field(data, base, n));
  }

  /** One byte changed. */
  method Put(data: array<byte>, base: nat, i: nat, x: byte, ghost n: nat, ghost was: seq<byte>)
    requires i < n && base + n <= data.Length == |was| && Elsewhere(data, base, n, was)
    modifies data
    ensures |Field(data, base, n)| == n && Field(data, base, n) == old(Field(data, base, n))[i := x]
    ensures Elsewhere(data, base, n, was)
  {
    ghost var f := Field(data, base, n);
    FieldLength(data, base, n);
    data[base + i] := x;
    FieldLength(data, base, n);
    assert forall j | 0 <= j < n :: Field(data, base, n)[j] == f[i := x][j];
  }

  /** The next nibble written. */
  method PutNibble(data: array<byte>, base: nat, off: nat, x: nat, ghost n: nat, ghost s: seq<nat>,
                   ghost was: seq<byte>)
    requires x < 16 && off < 2 * n && base + n <= data.Length == |was| && Elsewhere(data, base, n, was)
    requires Written(Field(data, base, n), off, s)
    modifies data
    ensures Written(Field(data, base, n), off + 1, s + [x]) && Elsewhere(data, base, n, was)
  {
    hide Written, Elsewhere, Field;
    ghost var cells := Field(data, base, n);
    FieldLength(data, base, n);
    var i := off / 2;
    if off % 2 == 1 {
      Put(data, base, i, WithLow(data[base + i], x), n, was);
    } else {
      Put(data, base, i, WithHigh(data[base + i], x), n, was);
    }
    WrittenNext(cells, Field(data, base, n), off, s, x);
  }

  /** The count written, in front of all nibbles. */
  method PutCount(data: array<byte>, base: nat, off: nat, nibbles: nat, ghost n: nat, ghost number: nat,
                  ghost was: seq<byte>)
    requires 1 <= off <= 17 && off <= 2 * n && nibbles == (if off > 2 then off - 2 else 0)
    requires base + n <= data.Length == |was| && Elsewhere(data, base, n, was)
    requires Written(Field(data, base, n), off, Nibbles(number))
    modifies data
    ensures IsInt(Field(data, base, (off + 1) / 2), number) && Elsewhere(data, base, n, was)
  {
    hide Written, Elsewhere, Field, IsInt, Nibbles;
    ghost var cells := Field(data, base, n);
    FieldLength(data, base, n);
    Put(data, base, 0, WithHigh(data[base], nibbles), n, was);
    WrittenAll(cells, Field(data, base, n), off, number);
    FieldOfField(data, base, n, (off + 1) / 2);
  }

  /** encode_int_internal and encode_int64_internal, into `width + 1` bytes from `base` on. */
  method EncodeIntInternal(data: array<byte>, base: nat, width: nat, number: nat) returns (len: nat)
    requires 0 < width <= 8 && base + width + 1 <= data.Length && number < Pow16(2 * width)
    modifies data
    ensures 0 < len <= width + 1 && IsInt(Field(data, base, len), number)
    ensures Elsewhere(data, base, width + 1, old(data[..]))
  {
    hide Written, Nibbles, IsInt, Field, Elsewhere, Left, Pow16;
    ghost var was, m := data[..], width + 1;
    Clear(data, base, width + 1);
    var off, nibbles, n := 1, 0, number;
    FewNibbles(number, 2 * width);
    ghost var s: seq<nat> := [];
    LeftAll(number);
    while n > 0
      invariant Written(Field(data, base, m), off, s) && Left(s, n, number)
      invariant off == |s| + 1 && |Nibbles(number)| <= 2 * width
      invariant Elsewhere(data, base, m, was)
      decreases n
    {
      LeftNext(s, n, number);
      PutNibble(data, base, off, n % 16, m, s, was);
      s := s + [n % 16];
      n := n / 16;
      off := off + 1;
    }
    LeftNone(s, number);
    if off > 2 {
      nibbles := off - 2;
    }
    PutCount(data, base, off, nibbles, m, number, was);
    len := (off + 1) / 2;
  }

  lemma FieldLength(data: array<byte>, base: nat, n: nat)
    requires base + n <= data.Length
    ensures |Field(data, base, n)| == n && forall i | 0 <= i < n :: Field(data, base, n)[i] == data[base + i]
  {
  }

  lemma FieldOfField(data: array<byte>, base: nat, n: nat, m: nat)
    requires m <= n && base + n <= data.Length
    ensures |Field(data, base, n)| == n && Field(data, base, n)[..m] == Field(data, base, m)
  {
  }

  /** The nibbles of `n` are left to write behind those in `s`. */
  ghost predicate Left(s: seq<nat>, n: nat, number: nat) {
    s + Nibbles(n) == Nibbles(number)
  }

  lemma LeftAll(number: nat)
    ensures Left([], number, number)
  {
  }

  lemma LeftNext(s: seq<nat>, n: nat, number: nat)
    requires n > 0 && Left(s, n, number)
    ensures Left(s + [n % 16], n / 16, number) && |s| < |Nibbles(number)|
  {
    assert Nibbles(n) == [n % 16] + Nibbles(n / 16);
    Assoc(s, [n % 16], Nibbles(n / 16));
  }

  lemma LeftNone(s: seq<nat>, number: nat)
    requires Left(s, 0, number)
    ensures s == Nibbles(number)
  {
  }

  /** The loop of DECODE_INT_INTERNAL: the nibbles are put together from the last one down. */
  method DecodeNibbles(data: seq<byte>, count: nat, maxNibbles: nat) returns (number: nat)
    requires 0 < count <= maxNibbles && count / 2 < |data|
    ensures number == Number(Slice(data, 1, count + 1)) < Pow16(maxNibbles)
  {
    hide Slice, Number, Pow16;
    number := 0;
    var nibbles := count;
    SliceNone(data, count + 1);
    while nibbles > 0
      invariant nibbles <= count && number == Number(Slice(data, nibbles + 1, count + 1))
    {
      SliceMore(data, nibbles, count + 1);
      SliceBound(data, nibbles + 1, count + 1);
      ShiftFits(number, count - nibbles, maxNibbles);
      number := number * 16 % Pow16(maxNibbles);
      if nibbles % 2 == 1 {
        number := number + data[nibbles / 2] % 16;
      } else {
        number := number + data[nibbles / 2] / 16;
      }
      nibbles := nibbles - 1;
    }
    SliceBound(data, 1, count + 1);
    PowersGrow(count, maxNibbles);
  }

  /** Four more bits do not go beyond the width of the number. */
  lemma ShiftFits(number: nat, k: nat, maxNibbles: nat)
    requires number < Pow16(k) && k < maxNibbles
    ensures number * 16 % Pow16(maxNibbles) == number * 16
  {
    PowersGrow(k + 1, maxNibbles);
    SmallMod(number * 16, Pow16(maxNibbles));
  }

  lemma SmallMod(x: nat, m: nat)
    requires x < m
    ensures x % m == x
  {
  }

  lemma SliceNone(data: seq<byte>, to: nat)
    requires to <= 2 * |data|
    ensures Number(Slice(data, to, to)) == 0
  {
  }

  lemma SliceMore(data: seq<byte>, from: nat, to: nat)
    requires from < to <= 2 * |data|
    ensures Number(Slice(data, from, to)) == NibbleAt(data, from) + 16 * Number(Slice(data, from + 1, to))
  {
    var s := Slice(data, from, to);
    assert s[1..] == Slice(data, from + 1, to);
    assert s[0] == NibbleAt(data, from);
  }

  lemma SliceBound(data: seq<byte>, from: nat, to: nat)
    requires from <= to <= 2 * |data|
    ensures Number(Slice(data, from, to)) < Pow16(to - from)
  {
    forall x | x in Slice(data, from, to) ensures x < 16 {
      var i :| 0 <= i < to - from && Slice(data, from, to)[i] == x;
      assert x == NibbleAt(data, from + i);
    }
    NumberBound(Slice(data, from, to));
  }

  lemma {:induction false} PowersGrow(a: nat, b: nat)
    requires a <= b
    ensures Pow16(a) <= Pow16(b)
    decreases b
  {
    if a < b {
      PowersGrow(a, b - 1);
    }
  }

  /** Nibble `j` of an encoded integer. */
  ghost function Cell(n: nat, j: nat): nat {
    var k := |Nibbles(n)|;
    if j == 0 then (if k == 0 then 0 else k - 1) else if j <= k then Nibbles(n)[j - 1] else 0
  }

  /** The encoded integer. */
  ghost function IntBytes(n: nat): (s: seq<byte>)
    requires n < Pow16(16)
    ensures |s| == |Nibbles(n)| / 2 + 1 <= 9 && IsInt(s, n)
  {
    FewNibbles(n, 16);
    CellSmall(n);
    var s := seq<byte>(|Nibbles(n)| / 2 + 1,
      j requires 0 <= j < |Nibbles(n)| / 2 + 1 => Cell(n, 2 * j) * 16 + Cell(n, 2 * j + 1));
    CellsAre(s, n);
    s
  }

  lemma CellSmall(n: nat)
    requires |Nibbles(n)| <= 16
    ensures forall j: nat :: Cell(n, j) < 16
  {
    forall j: nat ensures Cell(n, j) < 16 {
      if 0 < j <= |Nibbles(n)| {
        assert Nibbles(n)[j - 1] in Nibbles(n);
      }
    }
  }

  lemma CellIn(b: byte, hi: nat, lo: nat)
    requires hi < 16 && lo < 16 && b == hi * 16 + lo
    ensures b / 16 == hi && b % 16 == lo
  {
  }

  lemma CellsAre(s: seq<byte>, n: nat)
    requires |s| == |Nibbles(n)| / 2 + 1 && forall j: nat :: Cell(n, j) < 16
    requires forall j | 0 <= j < |s| :: s[j] == Cell(n, 2 * j) * 16 + Cell(n, 2 * j + 1)
    ensures IsInt(s, n)
  {
    hide Nibbles;
    forall j: nat | j < 2 * |s| ensures NibbleAt(s, j) == Cell(n, j) {
      CellIn(s[j / 2], Cell(n, 2 * (j / 2)), Cell(n, 2 * (j / 2) + 1));
      assert j == 2 * (j / 2) + j % 2;
    }
    var k := |Nibbles(n)|;
    forall i | 0 <= i < k ensures Slice(s, 1, k + 1)[i] == Nibbles(n)[i] {
      assert Slice(s, 1, k + 1)[i] == NibbleAt(s, i + 1) == Cell(n, i + 1);
    }
    assert Slice(s, 1, k + 1) == Nibbles(n);
  }

  /** Any encoding of the number is this one. */
  lemma IntBytesOnly(data: seq<byte>, n: nat)
    requires n < Pow16(16) && IsInt(data, n)
    ensures data == IntBytes(n)
  {
    IntUnique(data, IntBytes(n), n);
  }

  // -------- tags

  const TWO32: nat := 0x1_0000_0000

  ghost function TagBytes(tag: nat): seq<byte> {
    if tag < 128 then [tag] else [tag % 128 + 128] + TagBytes(tag / 128)
  }

  function Pow128(n: nat): (p: nat)
    ensures p > 0
  {
    if n == 0 then 1 else 128 * Pow128(n - 1)
  }

  /** What a decoder makes of the groups of seven bits from group `i` on: their value, and their number. */
  ghost function TagAt(s: seq<byte>, i: nat): Option<(nat, nat)>
    decreases |s|
  {
    if s == [] || i > 4 || (i == 4 && s[0] % 128 > 15) then None
    else if s[0] < 128 then Some((s[0], 1))
    else match TagAt(s[1..], i + 1)
         case None => None
         case Some((v, c)) => Some((s[0] % 128 + 128 * v, c + 1))
  }

  /** A tag takes between one byte and five. */
  lemma {:induction false} TagLength(s: seq<byte>, i: nat)
    requires TagAt(s, i).Some?
    ensures 1 <= TagAt(s, i).value.1 <= 5 - i && TagAt(s, i).value.1 <= |s|
    decreases |s|
  {
    if s[0] >= 128 {
      TagLength(s[1..], i + 1);
    }
  }

  /** Decoding undoes encoding, from any group on, if the tag has no more bits than are left. */
  lemma {:induction false} TagRoundTrip(tag: nat, i: nat, rest: seq<byte>)
    requires i <= 4 && tag < 16 * Pow128(4 - i)
    ensures TagAt(TagBytes(tag) + rest, i) == Some((tag, |TagBytes(tag)|))
    decreases tag
  {
    var s := TagBytes(tag) + rest;
    if tag >= 128 {
      assert s[0] == tag % 128 + 128 && s[1..] == TagBytes(tag / 128) + rest;
      assert i < 4;
      TagRoundTrip(tag / 128, i + 1, rest);
    }
  }

  lemma TagLimit()
    ensures 16 * Pow128(4) == TWO32 && Pow128(4) == 0x1000_0000
  {
    assert Pow128(2) == 0x4000;
    assert Pow128(4) == 128 * (128 * Pow128(2));
  }

  /** evtag_encode_tag, without adding the bytes to a buffer. */
  method EncodeTag(tag: nat) returns (data: array<byte>, bytes: nat)
    requires tag < TWO32
    ensures fresh(data) && data.Length == 5 && 0 < bytes <= 5 && data[..bytes] == TagBytes(tag)
  {
    hide TagBytes;
    data := new byte[5](i => 0);
    bytes := 0;
    var t: nat := tag;
    var more := true;
    TagLimit();
    while more
      invariant bytes <= 5 && (more ==> bytes < 5 && t < 16 * Pow128(4 - bytes))
      invariant if more then data[..bytes] + TagBytes(t) == TagBytes(tag)
                else bytes > 0 && data[..bytes] == TagBytes(tag)
      decreases 5 - bytes
    {
      var lower := t % 128;
      ghost var t0, before := t, data[..bytes];
      TagSplit(t, 4 - bytes);
      t := t / 128;
      more := t > 0;
      if more {
        lower := lower + 128;
      }
      data[bytes] := lower;
      bytes := bytes + 1;
      assert data[..bytes] == before + [lower];
      Regroup(before, lower, TagBytes(t));
    }
  }

  lemma Regroup(a: seq<byte>, x: byte, b: seq<byte>)
    ensures a + [x] + b == a + ([x] + b)
  {
  }

  lemma TagSplit(t: nat, left: nat)
    requires t < 16 * Pow128(left)
    ensures t / 128 > 0 ==>
              left > 0 && t / 128 < 16 * Pow128(left - 1)
              && TagBytes(t) == [t % 128 + 128] + TagBytes(t / 128)
    ensures t / 128 == 0 ==> TagBytes(t) == [t % 128]
  {
  }

  /** A number read so far, in front of what is still to come. */
  ghost function Joined(number: nat, count: nat, tail: Option<(nat, nat)>): Option<(nat, nat)> {
    match tail
    case None => None
    case Some((v, c)) => Some((number + Pow128(count) * v, count + c))
  }

  /** The first group and the rest, where `count` groups are behind it. */
  lemma TagNext(s: seq<byte>, count: nat)
    requires count < |s| && count <= 4 && (count == 4 ==> s[4] % 128 <= 15)
    ensures TagAt(s[count..], count)
            == if s[count] < 128 then Some((s[count] as nat, 1))
               else match TagAt(s[count + 1..], count + 1)
                    case None => None
                    case Some((v, c)) => Some((s[count] % 128 + 128 * v, c + 1))
  {
    assert s[count..][1..] == s[count + 1..] && s[count..][0] == s[count];
  }

  lemma JoinedNext(s: seq<byte>, number: nat, count: nat)
    requires count < |s| && count <= 4 && (count == 4 ==> s[4] % 128 <= 15)
    ensures var x := number + s[count] % 128 * Pow128(count);
            Joined(number, count, TagAt(s[count..], count))
            == if s[count] < 128 then Some((x, count + 1)) else Joined(x, count + 1, TagAt(s[count + 1..], count + 1))
  {
    hide Pow128, TagAt;
    PowNext(count);
    TagNext(s, count);
    if s[count] >= 128 && TagAt(s[count + 1..], count + 1).Some? {
      var v := TagAt(s[count + 1..], count + 1).value.0;
      Distribute(Pow128(count), s[count] % 128, v);
    }
  }

  lemma PowNext(n: nat)
    ensures Pow128(n + 1) == 128 * Pow128(n)
  {
  }

  lemma Distribute(p: nat, a: nat, v: nat)
    ensures p * (a + 128 * v) == a * p + 128 * p * v
  {
  }

  /** Five bytes fit into a tag and announce another one, and there is one. */
  ghost predicate TooManyGroups(s: seq<byte>) {
    |s| >= 6 && (forall i | 0 <= i < 5 :: s[i] >= 128) && s[4] % 128 <= 15
  }

  /**
   * The loop of decode_tag_internal, on the first bytes of a buffer that holds `len` bytes, `s`. `past`
   * says whether it reads a byte behind those it has been given, whatever is there.
   */
  method DecodeTagBytes(data: seq<byte>, len: nat, ghost s: seq<byte>) returns (result: int, number: nat, past: bool)
    requires len == |s| && data == s[..if len < 5 then len else 5]
    ensures result == if TagAt(s, 0).Some? then TagAt(s, 0).value.1 else -1
    ensures TagAt(s, 0).Some? ==> number == TagAt(s, 0).value.0 < TWO32
    ensures past <==> TooManyGroups(s)
  {
    hide TagAt, Joined;
    var count, shift, done := 0, 0, false;
    number, past := 0, false;
    TagLimit();
    JoinedNone(TagAt(s, 0));
    assert s[0..] == s;
    while count < len && !done
      invariant count <= len && count <= 5 && shift == 7 * count && !past
      invariant forall i | 0 <= i < count :: s[i] < 128 ==> i == count - 1 && done
      invariant done ==> count > 0 && s[count - 1] < 128
      invariant count == 5 ==> s[4] % 128 <= 15
      invariant number < if count < 5 then Pow128(count) else TWO32
      invariant if done then TagAt(s, 0) == Some((number, count))
                else TagAt(s, 0) == Joined(number, count, TagAt(s[count..], count))
      decreases len - count, !done
    {
      past := count >= |data|;
      var lower := if past then 0 else data[count];
      if shift >= 28 {
        if shift > 28 {
          NoTag(s[count..], number, count);
          return -1, 0, past;
        }
        assert lower == s[count];
        if lower % 128 > 15 {
          NoTag(s[count..], number, count);
          return -1, 0, past;
        }
      }
      assert lower == s[count];
      JoinedNext(s, number, count);
      Fits(number, lower % 128, count);
      number := number + lower % 128 * Pow128(count);
      shift := shift + 7;
      count := count + 1;
      done := lower < 128;
    }
    if !done {
      NoTag(s[count..], number, count);
      return -1, 0, past;
    }
    result := count;
  }

  lemma JoinedNone(o: Option<(nat, nat)>)
    ensures Joined(0, 0, o) == o
  {
  }

  lemma NoTag(s: seq<byte>, number: nat, count: nat)
    requires s == [] || count > 4 || (count == 4 && s[0] % 128 > 15)
    ensures Joined(number, count, TagAt(s, count)) == None
  {
  }

  /** Seven more bits do not touch those below, nor go beyond 32 bits. */
  lemma Fits(number: nat, x: nat, count: nat)
    requires count <= 4 && number < Pow128(count) && x < 128 && (count == 4 ==> x <= 15)
    ensures number + x * Pow128(count) < if count < 4 then Pow128(count + 1) else TWO32
  {
    var p := Pow128(count);
    assert x * p + p == (x + 1) * p;
    if count == 4 {
      TagLimit();
    } else {
      assert (x + 1) * p <= 128 * p;
    }
  }

  // -------- the order of digits: the least significant one comes first

  /** Nibble `k` behind the count is digit `k` of the number in base 16. */
  lemma IntDigits(data: seq<byte>, n: nat, k: nat)
    requires IsInt(data, n) && k < |Nibbles(n)|
    ensures NibbleAt(data, k + 1) == n / Pow16(k) % 16
  {
    NibbleDigit(n, k);
    assert NibbleAt(data, k + 1) == Slice(data, 1, |Nibbles(n)| + 1)[k];
  }

  /** The count in front of them is the least that will do, and the bytes are as many as it says. */
  lemma IntSize(data: seq<byte>, n: nat)
    requires IsInt(data, n)
    ensures var c := NibbleAt(data, 0); n < Pow16(c + 1) && (c > 0 ==> n >= Pow16(c)) && |data| == (c + 1) / 2 + 1
  {
    NibblesNeeded(n);
  }

  lemma {:induction false} NibblesNeeded(n: nat)
    ensures n < Pow16(|Nibbles(n)|) && (n > 0 ==> |Nibbles(n)| > 0 && n >= Pow16(|Nibbles(n)| - 1))
  {
    if n > 0 {
      NibblesNeeded(n / 16);
      assert n == n / 16 * 16 + n % 16;
    }
  }

  lemma {:induction false} NibbleDigit(n: nat, k: nat)
    requires k < |Nibbles(n)|
    ensures Nibbles(n)[k] == n / Pow16(k) % 16
    decreases k
  {
    if k > 0 {
      NibbleDigit(n / 16, k - 1);
      DivTwice(n, 16, Pow16(k - 1));
    }
  }

  /** Byte `k` of a tag is its digit `k` in base 128, with the high bit on all bytes but the last. */
  lemma {:induction false} TagDigits(tag: nat, k: nat)
    requires k < |TagBytes(tag)|
    ensures TagBytes(tag)[k] == tag / Pow128(k) % 128 + if k < |TagBytes(tag)| - 1 then 128 else 0
    decreases k
  {
    if k > 0 {
      TagDigits(tag / 128, k - 1);
      assert TagBytes(tag)[k] == TagBytes(tag / 128)[k - 1];
      DivTwice(tag, 128, Pow128(k - 1));
    }
  }

  /** Dividing twice is dividing by the product. */
  lemma DivTwice(n: nat, a: nat, b: nat)
    requires a > 0 && b > 0
    ensures a * b > 0 && n / a / b == n / (a * b)
  {
    var x := n / a;
    var q, s, t := x / b, x % b, n % a;
    Parts(n, a, b, x, t, q, s);
    Quotient(n, q, s * a + t, a * b);
  }

  lemma Parts(n: nat, a: nat, b: nat, x: nat, t: nat, q: nat, s: nat)
    requires n == x * a + t && x == q * b + s && t < a && s < b
    ensures n == q * (a * b) + (s * a + t) && 0 <= s * a + t < a * b
  {
    Spread(q * b, s, a);
    Associate(q, a, b);
    LessTimes(s, b, a);
  }

  lemma Spread(x: int, y: int, z: int)
    ensures (x + y) * z == x * z + y * z
  {
  }

  lemma Associate(q: int, a: int, b: int)
    ensures q * b * a == q * (a * b)
  {
  }

  lemma LessTimes(s: nat, b: nat, a: nat)
    requires s < b
    ensures 0 <= s * a && s * a + a <= a * b
  {
    Spread(s, b - s, a);
    Spread(b - s - 1, 1, a);
    Positive(b - s - 1, a);
  }

  lemma Positive(x: nat, y: nat)
    ensures x * y >= 0
  {
  }

  lemma Quotient(n: nat, q: nat, r: nat, m: nat)
    requires r < m && n == q * m + r
    ensures n / m == q
  {
    var k := n / m - q;
    assert n == n / m * m + n % m;
    assert k * m == n / m * m - q * m;
    assert k >= 1 ==> k * m >= m;
    assert k <= -1 ==> k * m <= -1 * m;
  }
}
