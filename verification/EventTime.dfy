/**
 * Times as seconds and microseconds. The microseconds field of a common timeout also holds a magic
 * number and the index of its list, in the bits that a valid number of microseconds does not use.
 */
module EventTime {

  const MILLION: nat := 1000000
  /** COMMON_TIMEOUT_MICROSECONDS_MASK + 1, and the weights of the other two parts. */
  const MICROS_SPAN: nat := 0x10_0000
  const INDEX_SPAN: nat := 0x100
  const MAGIC_UNIT: nat := 0x1000_0000
  const COMMON_TIMEOUT_MAGIC: nat := 5
  const MAX_COMMON_TIMEOUTS: nat := 256

  datatype Timeval = Timeval(sec: int, usec: nat) {
    /** tv_usec & MICROSECONDS_MASK */
    function Micros(): nat {
      usec % MICROS_SPAN
    }

    /** tv_usec & ~MICROSECONDS_MASK */
    function Tag(): nat {
      usec - usec % MICROS_SPAN
    }

    /** COMMON_TIMEOUT_IDX */
    function Index(): nat {
      usec / MICROS_SPAN % INDEX_SPAN
    }

    /** is_common_timeout, in a base with `n` common timeouts. */
    predicate IsCommon(n: nat) {
      usec / MAGIC_UNIT == COMMON_TIMEOUT_MAGIC && Index() < n
    }

    /** A time without any magic. */
    predicate Plain() {
      usec < MILLION
    }

    function Masked(): Timeval {
      this.(usec := Micros())
    }

    /** The time in microseconds. */
    function Us(): int {
      sec * MILLION + Micros()
    }

    /** What a caller may pass: a valid time, or one made by event_base_init_common_timeout. */
    ghost predicate WellFormed(n: nat) {
      Micros() < MILLION && (Plain() || IsCommon(n))
    }
  }

  const ZERO := Timeval(0, 0)

  /** evutil_timercmp with <= */
  predicate AtMost(a: Timeval, b: Timeval) {
    if a.sec == b.sec then a.usec <= b.usec else a.sec <= b.sec
  }

  /** evutil_timeradd */
  function TimerAdd(a: Timeval, b: Timeval): Timeval {
    var u := a.usec + b.usec;
    if u >= MILLION then Timeval(a.sec + b.sec + 1, u - MILLION) else Timeval(a.sec + b.sec, u)
  }

  /** evutil_timersub */
  function TimerSub(a: Timeval, b: Timeval): Timeval
    requires b.usec <= MILLION
  {
    if a.usec < b.usec then Timeval(a.sec - b.sec - 1, a.usec + MILLION - b.usec)
    else Timeval(a.sec - b.sec, a.usec - b.usec)
  }

  /** tv_usec |= tag, where the tag bits of the time are not set. */
  function Tagged(a: Timeval, tag: nat): Timeval {
    a.(usec := a.usec + tag)
  }

  lemma PlainTime(a: Timeval)
    requires a.Plain()
    ensures a.Micros() == a.usec && a.Tag() == 0 && !a.IsCommon(MAX_COMMON_TIMEOUTS) && a.Masked() == a
    ensures forall n :: !a.IsCommon(n)
  {
  }

  lemma PlainWellFormed(a: Timeval, n: nat)
    requires a.Plain()
    ensures a.WellFormed(n) && a.Tag() == 0
  {
  }

  lemma NotCommon(a: Timeval, n: nat)
    ensures a.Plain() ==> !a.IsCommon(n)
  {
  }

  lemma PlainOrCommon(a: Timeval, n: nat)
    requires a.WellFormed(n)
    ensures a.Plain() <==> !a.IsCommon(n)
  {
  }

  lemma MaskedTime(a: Timeval)
    requires a.Micros() < MILLION
    ensures a.Masked().Plain() && a.Masked().Us() == a.Us()
  {
  }

  /** Setting the tag changes the tag, and nothing else. */
  lemma TaggedTime(a: Timeval, b: Timeval)
    requires a.Plain()
    ensures
      var c := Tagged(a, b.Tag());
      && c.Micros() == a.usec && c.Tag() == b.Tag() && c.Us() == a.Us() && c.Masked() == a
      && c.Index() == b.Index() && forall n :: c.IsCommon(n) == b.IsCommon(n)
  {
    var c := Tagged(a, b.Tag());
    assert c.usec == a.usec + MICROS_SPAN * (b.usec / MICROS_SPAN);
    assert c.usec / MICROS_SPAN == b.usec / MICROS_SPAN;
    assert b.usec / MAGIC_UNIT == b.usec / MICROS_SPAN / INDEX_SPAN;
    assert c.usec / MAGIC_UNIT == c.usec / MICROS_SPAN / INDEX_SPAN;
  }

  /** The comparison works on common timeouts too, if they belong to the same list. */
  lemma Ordered(a: Timeval, b: Timeval)
    requires a.Tag() == b.Tag() && a.Micros() < MILLION && b.Micros() < MILLION
    ensures AtMost(a, b) <==> a.Us() <= b.Us()
  {
  }

  lemma SameList(a: Timeval, b: Timeval, n: nat)
    requires a.IsCommon(n) && b.IsCommon(n) && a.Index() == b.Index()
    ensures a.Tag() == b.Tag()
  {
    assert a.usec / MICROS_SPAN == a.usec / MAGIC_UNIT * INDEX_SPAN + a.Index();
    assert b.usec / MICROS_SPAN == b.usec / MAGIC_UNIT * INDEX_SPAN + b.Index();
  }

  lemma AddUs(a: Timeval, b: Timeval)
    requires a.Plain() && b.Plain()
    ensures TimerAdd(a, b).Plain() && TimerAdd(a, b).Us() == a.Us() + b.Us()
  {
  }

  lemma SubUs(a: Timeval, b: Timeval)
    requires a.Plain() && b.Plain()
    ensures b.usec < MILLION
    ensures TimerSub(a, b).Plain() && TimerSub(a, b).Us() == a.Us() - b.Us()
    ensures a.Us() >= b.Us() ==> TimerSub(a, b).sec >= 0
  {
  }

  /** The time event_base_init_common_timeout makes for list `i`. */
  function CommonTime(d: Timeval, i: nat): Timeval {
    Timeval(d.sec, d.usec + COMMON_TIMEOUT_MAGIC * MAGIC_UNIT + i * MICROS_SPAN)
  }

  lemma CommonTimeOf(d: Timeval, i: nat)
    requires d.usec <= MILLION && i < MAX_COMMON_TIMEOUTS
    ensures var c := CommonTime(d, i); c.Index() == i && c.IsCommon(i + 1) && c.Masked() == d && c.Us() == d.Us()
    ensures CommonTime(d, i).Micros() == d.usec
  {
    var c := CommonTime(d, i);
    assert c.usec / MICROS_SPAN == COMMON_TIMEOUT_MAGIC * INDEX_SPAN + i;
    assert c.usec / MAGIC_UNIT == c.usec / MICROS_SPAN / INDEX_SPAN;
  }

  /** When a timeout runs out: `tv` itself if it is a time, else `tv` from now on. */
  function Deadline(tv: Timeval, absolute: bool, now: Timeval, n: nat): Timeval {
    if absolute then tv
    else if tv.IsCommon(n) then Tagged(TimerAdd(now, tv.Masked()), tv.Tag())
    else TimerAdd(now, tv)
  }

  lemma DeadlineFacts(tv: Timeval, absolute: bool, now: Timeval, n: nat)
    requires tv.WellFormed(n) && now.Plain()
    ensures
      var d := Deadline(tv, absolute, now, n);
      && d.WellFormed(n) && d.Tag() == tv.Tag() && d.Index() == tv.Index()
      && (d.Plain() <==> tv.Plain()) && d.IsCommon(n) == tv.IsCommon(n)
      && d.Us() == if absolute then tv.Us() else now.Us() + tv.Us()
  {
    PlainOrCommon(tv, n);
    if !absolute {
      if tv.IsCommon(n) {
        MaskedTime(tv);
        AddUs(now, tv.Masked());
        TaggedTime(TimerAdd(now, tv.Masked()), tv);
        NotCommon(Deadline(tv, absolute, now, n), n);
      } else {
        AddUs(now, tv);
        PlainTime(tv);
        PlainTime(TimerAdd(now, tv));
      }
    }
  }

  /** Two times with the same tag are both common, or both plain. */
  lemma SameTag(a: Timeval, b: Timeval, n: nat)
    requires a.WellFormed(n) && b.WellFormed(n) && a.Tag() == b.Tag()
    ensures a.Plain() <==> b.Plain()
    ensures a.IsCommon(n) <==> b.IsCommon(n)
  {
    PlainOrCommon(a, n);
    PlainOrCommon(b, n);
    if a.Plain() {
      assert b.usec < MICROS_SPAN;
    }
    if b.Plain() {
      assert a.usec < MICROS_SPAN;
    }
  }
}
