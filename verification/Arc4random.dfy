/** Random numbers below a bound, without favouring any of them. */
module Arc4random {
  import opened Options

  const TWO32: nat := 0x1_0000_0000

  /** Arithmetic on 32-bit unsigned numbers. */
  function U32(x: int): nat {
    x % TWO32
  }

  /** The smallest number that is not rejected, computed in 32 bits. */
  function Least(upperBound: nat): nat
    requires 0 < upperBound < TWO32
  {
    if upperBound > 0x8000_0000 then U32(1 + (0xffff_ffff - upperBound))
    else U32(U32(0xffff_ffff - U32(upperBound * 2)) + 1) % upperBound
  }

  /** Quotient and remainder are what fits. */
  lemma DivMod(x: int, q: int, r: int, m: int)
    requires 0 <= r < m && x == q * m + r
    ensures x / m == q && x % m == r
  {
    var k := x / m - q;
    assert x == x / m * m + x % m;
    assert k * m == x / m * m - q * m;
    Multiple(k, m);
  }

  lemma Multiple(k: int, m: int)
    requires m > 0
    ensures k >= 1 ==> k * m >= m
    ensures k <= -1 ==> k * m <= -m
  {
  }

  lemma Fits(x: nat)
    requires x < TWO32
    ensures U32(x) == x
  {
  }

  lemma Overflow()
    ensures U32(TWO32) == 0
  {
  }

  lemma TwoLess(x: nat, m: nat)
    requires m > 0
    ensures (x + m * 2) % m == x % m
  {
    var q := x / m;
    assert x == q * m + x % m && (q + 2) * m == q * m + m * 2;
    DivMod(x + m * 2, q + 2, x % m, m);
  }

  /** It is the remainder of 2^32, though 2^32 itself does not fit. */
  lemma LeastIsRemainder(upperBound: nat)
    requires 2 <= upperBound < TWO32
    ensures Least(upperBound) == TWO32 % upperBound < upperBound
  {
    hide U32;
    Overflow();
    if upperBound > 0x8000_0000 {
      Fits(1 + (0xffff_ffff - upperBound));
      DivMod(TWO32, 1, TWO32 - upperBound, upperBound);
    } else if upperBound == 0x8000_0000 {
      Fits(0xffff_ffff);
      assert U32(upperBound * 2) == 0;
      assert Least(upperBound) == 0 % upperBound;
      DivMod(TWO32, 2, 0, upperBound);
    } else {
      Fits(upperBound * 2);
      Fits(0xffff_ffff - upperBound * 2);
      Fits(TWO32 - upperBound * 2);
      TwoLess(TWO32 - upperBound * 2, upperBound);
    }
  }

  /** More than half of all numbers are accepted. */
  lemma MostAreAccepted(upperBound: nat)
    requires 2 <= upperBound < TWO32
    ensures TWO32 - Least(upperBound) > TWO32 / 2
  {
    LeastIsRemainder(upperBound);
  }

  /** The numbers from `a` to below `b` with remainder `r`. */
  ghost function Class(a: nat, b: nat, m: nat, r: nat): set<nat>
    requires m > 0
  {
    set x: nat | a <= x < b && x % m == r
  }

  lemma NextWith(b: nat, q: nat, s: nat, m: nat, r: nat) returns (x: nat, k: nat)
    requires b == q * m + s && s < m && r < m
    ensures b <= x < b + m && x == k * m + r
  {
    k := if s <= r then q else q + 1;
    assert (q + 1) * m == q * m + m;
    x := k * m + r;
  }

  /** Of `m` numbers in a row one has remainder `r`. */
  lemma OneInARow(b: nat, m: nat, r: nat) returns (x: nat)
    requires r < m
    ensures b <= x < b + m && x % m == r
    ensures forall y: nat | b <= y < b + m && y % m == r :: y == x
  {
    var k;
    x, k := NextWith(b, b / m, b % m, m, r);
    DivMod(x, k, r, m);
    forall y: nat | b <= y < b + m && y % m == r ensures y == x {
      Apart(x, y, m);
    }
  }

  lemma Apart(x: nat, y: nat, m: nat)
    requires m > 0 && x % m == y % m && x < y + m && y < x + m
    ensures x == y
  {
    var k := x / m - y / m;
    assert x == x / m * m + x % m && y == y / m * m + y % m;
    assert k * m == x / m * m - y / m * m;
    Multiple(k, m);
  }

  /** Of `q * m` numbers in a row `q` have remainder `r`. */
  lemma {:induction false} ManyInARow(a: nat, q: nat, m: nat, r: nat)
    requires r < m
    ensures |Class(a, a + q * m, m, r)| == q
    decreases q
  {
    if q > 0 {
      ManyInARow(a, q - 1, m, r);
      var b := a + (q - 1) * m;
      assert b + m == a + q * m;
      var x := OneInARow(b, m, r);
      assert Class(a, a + q * m, m, r) == Class(a, b, m, r) + {x};
    } else {
      assert Class(a, a, m, r) == {};
    }
  }

  /** Each result comes from equally many of the accepted numbers. */
  lemma Uniformity(upperBound: nat, r: nat)
    requires 2 <= upperBound < TWO32 && r < upperBound
    ensures |Class(Least(upperBound), TWO32, upperBound, r)| == (TWO32 - Least(upperBound)) / upperBound > 0
  {
    hide Least, Class;
    LeastIsRemainder(upperBound);
    Blocks(TWO32, upperBound);
    ManyInARow(Least(upperBound), TWO32 / upperBound, upperBound, r);
  }

  /** Without the remainder, a number is a multiple. */
  lemma Blocks(n: nat, m: nat)
    requires 0 < m <= n
    ensures n == n % m + n / m * m && (n - n % m) / m == n / m > 0
  {
    DivMod(n / m * m, n / m, 0, m);
  }

  /** The generator: what it will give, and how much of it has been used. */
  class Generator {
    const numbers: seq<nat>
    var next: nat

    constructor (numbers: seq<nat>)
      ensures this.numbers == numbers && next == 0
    {
      this.numbers, next := numbers, 0;
    }

    /** arc4random */
    method Random() returns (r: nat)
      requires next < |numbers|
      modifies this
      ensures r == numbers[old(next)] && next == old(next) + 1
    {
      r := numbers[next];
      next := next + 1;
    }

    /** arc4random_uniform: the first number that is not rejected decides; None if there is none to come. */
    method Uniform(upperBound: nat) returns (r: Option<nat>)
      requires upperBound < TWO32 && next <= |numbers|
      modifies this
      ensures old(next) <= next <= |numbers|
      ensures upperBound < 2 ==> r == Some(0) && next == old(next)
      ensures upperBound >= 2 ==>
                var least := TWO32 % upperBound;
                && (forall i | old(next) <= i < next - 1 :: numbers[i] < least)
                && match r
                   case Some(x) => old(next) < next && numbers[next - 1] >= least && x == numbers[next - 1] % upperBound
                   case None => next == |numbers| && forall i | old(next) <= i < next :: numbers[i] < least
    {
      if upperBound < 2 {
        return Some(0);
      }
      var least := Least(upperBound);
      LeastIsRemainder(upperBound);
      while next < |numbers|
        invariant old(next) <= next <= |numbers|
        invariant forall i | old(next) <= i < next :: numbers[i] < least
      {
        var x := Random();
        if x >= least {
          return Some(x % upperBound);
        }
      }
      r := None;
    }
  }
}
