/**
 * What an evbuffer's list of chains looks like when the pointers are forgotten: a list of
 * segments, each holding some bytes somewhere inside a fixed amount of memory.
 */
module Segments {
  import opened Options

  /** EVBUFFER_CHAIN_MAX and EVBUFFER_CHAIN_SIZE of a 64-bit build. */
  const CHAIN_MAX: nat := 0x7fff_ffff_ffff_ffff
  const CHAIN_SIZE: nat := 48

  /** The most memory a chain can have. */
  const MAX_CAP: nat := CHAIN_MAX - CHAIN_SIZE

  /** A chain without its `next` pointer: `misalign` unused bytes, then `data`, then free space. */
  datatype Seg = Seg(data: seq<byte>, misalign: nat, cap: nat, immutable: bool) {
    /**
     * Data lies inside the memory; a read-only chain has no free space behind its data, and no
     * memory at all if it has no data. Other chains have some memory.
     */
    ghost predicate Good() {
      && misalign + |data| <= cap <= MAX_CAP
      && (immutable || 0 < cap)
      && (immutable ==> misalign + |data| == cap && (data == [] ==> cap == 0))
    }

    /** CHAIN_SPACE_LEN */
    function Space(): int {
      if immutable then 0 else cap - (misalign + |data|)
    }
  }

  /** The bytes of all segments, in order. */
  ghost function Flat(cs: seq<Seg>): seq<byte> {
    if cs == [] then [] else cs[0].data + Flat(cs[1..])
  }

  /** Every segment from position `k` on is empty. */
  ghost predicate EmptyFrom(cs: seq<Seg>, k: int) {
    forall i {:trigger cs[i]} | 0 <= i < |cs| && k <= i :: cs[i].data == []
  }

  /**
   * `lwd` is the last segment with data; the first one if all are empty, and 0 if there is
   * none.
   */
  ghost predicate Marked(cs: seq<Seg>, lwd: nat) {
    && (if cs == [] then lwd == 0 else lwd < |cs| && (cs[lwd].data == [] ==> lwd == 0))
    && EmptyFrom(cs, lwd + 1)
  }

  lemma MarkInside(cs: seq<Seg>, lwd: nat)
    requires Marked(cs, lwd)
    ensures lwd < |cs| || (cs == [] && lwd == 0)
  {
  }

  lemma {:induction false} FlatPlus(a: seq<Seg>, b: seq<Seg>)
    ensures Flat(a + b) == Flat(a) + Flat(b)
  {
    if a == [] {
      assert a + b == b;
    } else {
      FlatPlus(a[1..], b);
      assert (a + b)[1..] == a[1..] + b;
      Assoc(a[0].data, Flat(a[1..]), Flat(b));
    }
  }

  lemma {:induction false} FlatEmpty(cs: seq<Seg>)
    requires EmptyFrom(cs, 0)
    ensures Flat(cs) == []
  {
    if cs != [] {
      FlatEmpty(cs[1..]);
    }
  }

  lemma FlatOne(c: Seg)
    ensures Flat([c]) == c.data
  {
    assert Flat([c]) == c.data + Flat([]);
  }

  lemma FlatSplit(cs: seq<Seg>, k: nat)
    requires k <= |cs|
    ensures Flat(cs) == Flat(cs[..k]) + Flat(cs[k..])
  {
    assert cs == cs[..k] + cs[k..];
    FlatPlus(cs[..k], cs[k..]);
  }

  lemma FlatNext(cs: seq<Seg>, k: nat)
    requires k < |cs|
    ensures Flat(cs[..k + 1]) == Flat(cs[..k]) + cs[k].data
    ensures Flat(cs[k..]) == cs[k].data + Flat(cs[k + 1..])
  {
    assert cs[..k + 1] == cs[..k] + [cs[k]];
    FlatPlus(cs[..k], [cs[k]]);
    FlatOne(cs[k]);
    assert cs[k..][1..] == cs[k + 1..];
  }

  lemma FlatAround(cs: seq<Seg>, k: nat)
    requires k < |cs|
    ensures Flat(cs) == Flat(cs[..k]) + cs[k].data + Flat(cs[k + 1..])
  {
    FlatSplit(cs, k);
    FlatNext(cs, k);
    Assoc(Flat(cs[..k]), cs[k].data, Flat(cs[k + 1..]));
  }

  /** Cutting off trailing empty segments keeps the bytes. */
  lemma FlatTrim(cs: seq<Seg>, k: nat)
    requires k <= |cs| && EmptyFrom(cs, k)
    ensures Flat(cs[..k]) == Flat(cs)
  {
    FlatSplit(cs, k);
    FlatEmpty(cs[k..]);
  }

  lemma FlatSet(cs: seq<Seg>, k: nat, v: Seg)
    requires k < |cs|
    ensures Flat(cs[k := v]) == Flat(cs[..k]) + v.data + Flat(cs[k + 1..])
  {
    FlatAround(cs[k := v], k);
    assert cs[k := v][..k] == cs[..k] && cs[k := v][k + 1..] == cs[k + 1..];
  }

  /** Bytes added behind the last segment with data are bytes added at the end. */
  lemma FillAt(cs: seq<Seg>, lwd: nat, v: Seg, x: seq<byte>)
    requires lwd < |cs| && EmptyFrom(cs, lwd + 1) && v.data == cs[lwd].data + x
    ensures Flat(cs[lwd := v]) == Flat(cs) + x
    ensures Marked(cs, lwd) ==> Marked(cs[lwd := v], lwd)
  {
    FlatSet(cs, lwd, v);
    FlatAround(cs, lwd);
    FlatEmpty(cs[lwd + 1..]);
  }

  /** Bytes added in front of the first segment are bytes added at the front. */
  lemma FillFirst(cs: seq<Seg>, lwd: nat, v: Seg, x: seq<byte>)
    requires cs != [] && Marked(cs, lwd) && v.data == x + cs[0].data
    ensures Flat(cs[0 := v]) == x + Flat(cs)
    ensures Marked(cs[0 := v], lwd)
  {
    assert cs[0 := v][1..] == cs[1..];
    Assoc(x, cs[0].data, Flat(cs[1..]));
  }

  /** A nonempty segment put in front. */
  lemma PushFirst(cs: seq<Seg>, lwd: nat, v: Seg)
    requires Marked(cs, lwd) && v.data != []
    ensures Flat([v] + cs) == v.data + Flat(cs)
    ensures Marked([v] + cs, if cs == [] || cs[lwd].data == [] then 0 else lwd + 1)
  {
    FlatPlus([v], cs);
    FlatOne(v);
  }

  /** Walking from the front: what is passed so far, and that data is left while `n` is too small. */
  lemma WalkStep(cs: seq<Seg>, lwd: nat, j: nat, n: nat)
    requires Marked(cs, lwd) && cs != [] && j <= lwd && n < |Flat(cs)|
    requires n >= |Flat(cs[..j])|
    ensures |Flat(cs[..j + 1])| == |Flat(cs[..j])| + |cs[j].data|
    ensures n >= |Flat(cs[..j + 1])| ==> j < lwd
  {
    hide Flat, EmptyFrom;
    FlatNext(cs, j);
    if j == lwd {
      FlatTrim(cs, lwd + 1);
    }
  }

  lemma NoSegments()
    ensures Flat([]) == [] && Marked([], 0)
  {
  }

  lemma MarkBelow(cs: seq<Seg>, lwd: nat)
    requires Marked(cs, lwd) && cs != []
    ensures lwd < |cs|
  {
  }

  /** Dropping `n` bytes from the front: whole segments `..j` and `d` bytes of the next one. */
  lemma DropFirst(cs: seq<Seg>, lwd: nat, j: nat, d: nat, v: Seg)
    requires Marked(cs, lwd) && j <= lwd < |cs| && d < |cs[j].data| && v.data == cs[j].data[d..]
    ensures |Flat(cs[..j])| + d <= |Flat(cs)|
    ensures Flat(cs[j..][0 := v]) == Flat(cs)[|Flat(cs[..j])| + d..]
    ensures Flat(cs)[..|Flat(cs[..j])| + d] == Flat(cs[..j]) + cs[j].data[..d]
    ensures Marked(cs[j..][0 := v], lwd - j)
  {
    hide Flat, Marked;
    FlatSplit(cs, j);
    FlatNext(cs, j);
    FlatSet(cs[j..], 0, v);
    assert cs[j..][..0] == [];
    assert cs[j..][1..] == cs[j + 1..];
    MarkedDrop(cs, lwd, j, v);
    NoSegments();
  }

  lemma MarkedDrop(cs: seq<Seg>, lwd: nat, j: nat, v: Seg)
    requires Marked(cs, lwd) && j <= lwd < |cs| && (j == lwd ==> v.data != [])
    ensures Marked(cs[j..][0 := v], lwd - j)
  {
  }

  /** How many chains are left when evbuffer_free_trailing_empty_chains is done. */
  ghost function Keep(cs: seq<Seg>, lwd: nat): (k: nat)
    requires Marked(cs, lwd)
    ensures k <= |cs| && (k == 0 || k == lwd + 1)
    ensures k < |cs| ==> cs[k].data == []
    ensures k == 0 ==> lwd == 0
  {
    if cs == [] || cs[lwd].data == [] then 0 else lwd + 1
  }

  lemma KeepFlat(cs: seq<Seg>, lwd: nat)
    requires Marked(cs, lwd)
    ensures Flat(cs[..Keep(cs, lwd)]) == Flat(cs)
    ensures Marked(cs[..Keep(cs, lwd)], lwd)
  {
    FlatTrim(cs, Keep(cs, lwd));
  }

  /** Appending one segment behind the kept ones. */
  lemma InsertFlat(cs: seq<Seg>, lwd: nat, v: Seg)
    requires Marked(cs, lwd)
    ensures
      var k := Keep(cs, lwd);
      && Flat(cs[..k] + [v]) == Flat(cs) + v.data
      && Marked(cs[..k] + [v], if v.data != [] || k == 0 then k else lwd)
  {
    var k := Keep(cs, lwd);
    KeepFlat(cs, lwd);
    FlatPlus(cs[..k], [v]);
    FlatOne(v);
  }

  lemma NonemptyMark(cs: seq<Seg>, lwd: nat)
    requires Marked(cs, lwd)
    ensures Flat(cs) == [] <==> cs == [] || cs[lwd].data == []
  {
    if cs != [] {
      FlatAround(cs, lwd);
      if cs[lwd].data == [] {
        FlatEmpty(cs);
      }
    }
  }

  /** A list with data put behind another one. */
  lemma MarkedJoin(a: seq<Seg>, b: seq<Seg>, lwd: nat)
    requires Marked(b, lwd) && Flat(b) != []
    ensures Marked(a + b, |a| + lwd) && Flat(a + b) == Flat(a) + Flat(b)
  {
    NonemptyMark(b, lwd);
    FlatPlus(a, b);
  }
}
