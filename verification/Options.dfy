/** What several modules share. */
module Options {

  /** A value that may be missing: a null pointer of the C code. */
  datatype Option<T> = None | Some(value: T)

  type byte = x: int | 0 <= x < 0x100

  const INT_MAX: nat := 0x7fff_ffff

  lemma Assoc<T>(a: seq<T>, b: seq<T>, c: seq<T>)
    ensures (a + b) + c == a + (b + c)
  {
  }

  /** A condition as a number. */
  function One(b: bool): nat {
    if b then 1 else 0
  }

  /** A list without the first occurrence of `e`: TAILQ_REMOVE and LIST_REMOVE. */
  function Without<T(==)>(l: seq<T>, e: T): seq<T> {
    if l == [] then [] else if l[0] == e then l[1..] else [l[0]] + Without(l[1..], e)
  }

  lemma TakeDrop<T>(l: seq<T>, j: nat)
    requires j < |l| - 1
    ensures l[..j + 1] == [l[0]] + l[1..][..j] && l[j + 2..] == l[1..][j + 1..]
  {
  }

  lemma {:induction false} WithoutAt<T>(l: seq<T>, e: T) returns (k: nat)
    requires e in l
    ensures k < |l| && l[k] == e && Without(l, e) == l[..k] + l[k + 1..] && e !in l[..k]
  {
    if l[0] == e {
      k := 0;
    } else {
      var j := WithoutAt(l[1..], e);
      k := j + 1;
      TakeDrop(l, j);
    }
  }

  lemma {:induction false} WithoutAbsent<T>(l: seq<T>, e: T)
    requires e !in l
    ensures Without(l, e) == l
  {
    if l != [] {
      WithoutAbsent(l[1..], e);
    }
  }
}
