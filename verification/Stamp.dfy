/**
  Time stamps of libcore/arch/linux/builtin-modules/on-access/stamp.h: seconds
  and nanoseconds, compared and subtracted field by field with a borrow.
 */
module Stamp {

  const ONE_SECOND := 1_000_000_000
  const ONE_MILLISECOND := 1_000_000

  datatype Timespec = Timespec(sec: int, nsec: int)

  predicate Normalised(s: Timespec) {
    0 <= s.nsec < ONE_SECOND
  }

  /** The instant a stamp denotes. */
  function Nanoseconds(s: Timespec): int {
    s.sec * ONE_SECOND + s.nsec
  }

  function Compare(s1: Timespec, s2: Timespec): int {
    if s1.sec < s2.sec then -1
    else if s1.sec > s2.sec then 1
    else if s1.nsec < s2.nsec then -1
    else if s1.nsec > s2.nsec then 1
    else 0
  }

  function Add(dst: Timespec, src: Timespec): Timespec {
    var nsec := dst.nsec + src.nsec;
    if nsec >= ONE_SECOND then Timespec(dst.sec + 1 + src.sec, nsec - ONE_SECOND)
    else Timespec(dst.sec + src.sec, nsec)
  }

  function Sub(dst: Timespec, src: Timespec): Timespec {
    var nsec := dst.nsec - src.nsec;
    if nsec < 0 then Timespec(dst.sec - 1 - src.sec, nsec + ONE_SECOND)
    else Timespec(dst.sec - src.sec, nsec)
  }

  /** On normalised stamps, comparison and arithmetic are those of the instants, and stay normalised. */
  lemma StampArithmetic(a: Timespec, b: Timespec)
    requires Normalised(a) && Normalised(b)
    ensures Compare(a, b) <= 0 <==> Nanoseconds(a) <= Nanoseconds(b)
    ensures Compare(a, b) == 0 <==> a == b
    ensures Normalised(Add(a, b)) && Nanoseconds(Add(a, b)) == Nanoseconds(a) + Nanoseconds(b)
    ensures Normalised(Sub(a, b)) && Nanoseconds(Sub(a, b)) == Nanoseconds(a) - Nanoseconds(b)
  {
  }

  // A stamp updated in place.
  class StampCell {
    var tv_sec: int
    var tv_nsec: int

    ghost function Value(): Timespec
      reads this
    {
      Timespec(tv_sec, tv_nsec)
    }

    constructor (s: Timespec)
      ensures Value() == s
    {
      tv_sec, tv_nsec := s.sec, s.nsec;
    }

    method StampAdd(src: Timespec)
      modifies this
      ensures Value() == Add(old(Value()), src)
    {
      tv_nsec := tv_nsec + src.nsec;
      if tv_nsec >= ONE_SECOND {
        tv_nsec := tv_nsec - ONE_SECOND;
        tv_sec := tv_sec + 1;
      }
      tv_sec := tv_sec + src.sec;
    }

    method StampSub(src: Timespec)
      modifies this
      ensures Value() == Sub(old(Value()), src)
    {
      tv_nsec := tv_nsec - src.nsec;
      if tv_nsec < 0 {
        tv_nsec := tv_nsec + ONE_SECOND;
        tv_sec := tv_sec - 1;
      }
      tv_sec := tv_sec - src.sec;
    }
  }

}
