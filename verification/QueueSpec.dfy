/**
  The queue of pending permission events as a sequence, most recent first, and
  the meaning of its two removals.
 */
module QueueSpec {
  import opened Wrappers
  import opened Stamp

  datatype Entry = Entry(fd: int, timestamp: Timespec)

  /** The position of the most recently pushed entry with this descriptor, or the length. */
  function FdIndex(q: seq<Entry>, fd: int): (i: nat)
    ensures i <= |q|
    ensures i < |q| ==> q[i].fd == fd
    ensures forall j :: 0 <= j < i ==> q[j].fd != fd
  {
    if q == [] || q[0].fd == fd then 0 else 1 + FdIndex(q[1..], fd)
  }

  function Without<T>(q: seq<T>, i: nat): seq<T>
    requires i < |q|
  {
    q[..i] + q[i + 1..]
  }

  predicate Expired(e: Entry, before: Timespec) {
    Compare(e.timestamp, before) <= 0
  }

  /**
    One pass from the tail (the oldest entry): at most n expired entries are
    taken, in the order met; the others stay where they are.
   */
  function TakeExpired(q: seq<Entry>, before: Timespec, n: nat): (r: (seq<Entry>, seq<Entry>))
    ensures |r.0| <= n && |r.0| + |r.1| == |q|
    decreases |q|
  {
    if q == [] || n == 0 then ([], q)
    else
      var last, init := q[|q| - 1], q[..|q| - 1];
      if Expired(last, before) then
        var r := TakeExpired(init, before, n - 1);
        ([last] + r.0, r.1)
      else
        var r := TakeExpired(init, before, n);
        (r.0, r.1 + [last])
  }

  function Reverse<T>(s: seq<T>): (r: seq<T>)
    ensures |r| == |s|
    ensures forall i :: 0 <= i < |s| ==> r[i] == s[|s| - 1 - i]
  {
    if s == [] then [] else [s[|s| - 1]] + Reverse(s[..|s| - 1])
  }

  /** The expired entries of q, in order. */
  function ExpiredOf(q: seq<Entry>, before: Timespec): seq<Entry> {
    if q == [] then []
    else ExpiredOf(q[..|q| - 1], before) + (if Expired(q[|q| - 1], before) then [q[|q| - 1]] else [])
  }

  function LiveOf(q: seq<Entry>, before: Timespec): seq<Entry> {
    if q == [] then []
    else LiveOf(q[..|q| - 1], before) + (if Expired(q[|q| - 1], before) then [] else [q[|q| - 1]])
  }

  function Min(a: nat, b: nat): nat {
    if a < b then a else b
  }

  lemma {:induction false} TakenIsOldest(q: seq<Entry>, before: Timespec, n: nat)
    ensures var e := ExpiredOf(q, before);
            var k := Min(n, |e|);
            TakeExpired(q, before, n).0 == Reverse(e[|e| - k..])
    decreases |q|
  {
    var e := ExpiredOf(q, before);
    if q == [] || n == 0 {
      assert e[|e|..] == [];
    } else {
      var last, init := q[|q| - 1], q[..|q| - 1];
      var e0 := ExpiredOf(init, before);
      if Expired(last, before) {
        TakenIsOldest(init, before, n - 1);
        ReverseTail(e0, last, Min(n - 1, |e0|));
      } else {
        TakenIsOldest(init, before, n);
        assert e == e0;
      }
    }
  }

  lemma ReverseTail<T>(s: seq<T>, x: T, k: int)
    requires 0 <= k <= |s|
    ensures Reverse((s + [x])[|s| - k..]) == [x] + Reverse(s[|s| - k..])
  {
    assert (s + [x])[|s| - k..] == s[|s| - k..] + [x];
    ReverseAppend(s[|s| - k..], x);
  }

  lemma ExpiredAppend(q: seq<Entry>, x: Entry, before: Timespec)
    ensures ExpiredOf(q + [x], before) == ExpiredOf(q, before) + (if Expired(x, before) then [x] else [])
    ensures LiveOf(q + [x], before) == LiveOf(q, before) + (if Expired(x, before) then [] else [x])
  {
    assert (q + [x])[..|q|] == q;
  }

  lemma {:induction false} KeptExpiredIsYoungest(q: seq<Entry>, before: Timespec, n: nat)
    ensures var e := ExpiredOf(q, before);
            var k := Min(n, |e|);
            ExpiredOf(TakeExpired(q, before, n).1, before) == e[..|e| - k]
    decreases |q|
  {
    var e := ExpiredOf(q, before);
    if q == [] || n == 0 {
      assert e[..|e|] == e;
    } else {
      var last, init := q[|q| - 1], q[..|q| - 1];
      var e0 := ExpiredOf(init, before);
      if Expired(last, before) {
        KeptExpiredIsYoungest(init, before, n - 1);
        var k := Min(n - 1, |e0|);
        assert e[..|e| - (k + 1)] == e0[..|e0| - k];
      } else {
        KeptExpiredIsYoungest(init, before, n);
        ExpiredAppend(TakeExpired(init, before, n).1, last, before);
        assert e == e0;
      }
    }
  }

  lemma {:induction false} KeptLiveUnchanged(q: seq<Entry>, before: Timespec, n: nat)
    ensures LiveOf(TakeExpired(q, before, n).1, before) == LiveOf(q, before)
    decreases |q|
  {
    if q != [] && n > 0 {
      var last, init := q[|q| - 1], q[..|q| - 1];
      if Expired(last, before) {
        KeptLiveUnchanged(init, before, n - 1);
      } else {
        KeptLiveUnchanged(init, before, n);
        ExpiredAppend(TakeExpired(init, before, n).1, last, before);
      }
    }
  }

  lemma {:induction false} NothingLost(q: seq<Entry>, before: Timespec, n: nat)
    ensures multiset(TakeExpired(q, before, n).0) + multiset(TakeExpired(q, before, n).1) == multiset(q)
    decreases |q|
  {
    if q != [] && n > 0 {
      var last, init := q[|q| - 1], q[..|q| - 1];
      assert q == init + [last];
      NothingLost(init, before, if Expired(last, before) then n - 1 else n);
    }
  }

  /**
    The pass takes exactly the oldest n expired entries (all of them if there
    are fewer), oldest first.  It keeps the unexpired entries, in their order,
    and the youngest expired ones, in theirs; no entry is lost or repeated.
   */
  lemma TakesOldestExpired(q: seq<Entry>, before: Timespec, n: nat)
    ensures var r := TakeExpired(q, before, n);
            var e := ExpiredOf(q, before);
            var k := Min(n, |e|);
            && r.0 == Reverse(e[|e| - k..])
            && ExpiredOf(r.1, before) == e[..|e| - k]
            && LiveOf(r.1, before) == LiveOf(q, before)
            && multiset(r.0) + multiset(r.1) == multiset(q)
  {
    TakenIsOldest(q, before, n);
    KeptExpiredIsYoungest(q, before, n);
    KeptLiveUnchanged(q, before, n);
    NothingLost(q, before, n);
  }

  lemma ReverseAppend<T>(s: seq<T>, x: T)
    ensures Reverse(s + [x]) == [x] + Reverse(s)
  {
    assert (s + [x])[..|s|] == s;
  }

  lemma {:induction false} NoExpired(q: seq<Entry>, before: Timespec)
    ensures ExpiredOf(q, before) == [] <==> forall e :: e in q ==> !Expired(e, before)
  {
    if q != [] {
      var last, init := q[|q| - 1], q[..|q| - 1];
      assert q == init + [last];
      NoExpired(init, before);
    }
  }

  lemma {:induction false} ExpiredOfExpired(q: seq<Entry>, before: Timespec)
    ensures forall e :: e in ExpiredOf(q, before) ==> e in q && Expired(e, before)
  {
    if q != [] {
      ExpiredOfExpired(q[..|q| - 1], before);
    }
  }

  lemma ExpiredIsOld(e: Entry, now: Timespec, age: Timespec)
    requires Normalised(now) && Normalised(age) && Normalised(e.timestamp)
    ensures Expired(e, Sub(now, age)) <==> Nanoseconds(now) - Nanoseconds(e.timestamp) >= Nanoseconds(age)
  {
    StampArithmetic(now, age);
    StampArithmetic(e.timestamp, Sub(now, age));
  }

  lemma {:induction false} TakenExpired(q: seq<Entry>, before: Timespec, n: nat)
    ensures var r := TakeExpired(q, before, n);
            && (forall e :: e in r.0 ==> e in q && Expired(e, before))
            && (|r.0| < n ==> forall e :: e in r.1 ==> e in q && !Expired(e, before))
    decreases |q|
  {
    if q != [] && n > 0 {
      var last, init := q[|q| - 1], q[..|q| - 1];
      TakenExpired(init, before, if Expired(last, before) then n - 1 else n);
    }
  }

  /**
    A pass that looks for entries at least age old at time now only takes
    entries that old, and one that takes fewer than n leaves none of them.
   */
  lemma PassRespectsAge(q: seq<Entry>, now: Timespec, age: Timespec, n: nat)
    requires Normalised(now) && Normalised(age)
    requires forall e :: e in q ==> Normalised(e.timestamp)
    ensures var r := TakeExpired(q, Sub(now, age), n);
            && (forall e :: e in r.0 ==> Nanoseconds(now) - Nanoseconds(e.timestamp) >= Nanoseconds(age))
            && (|r.0| < n ==> forall e :: e in r.1 ==> Nanoseconds(now) - Nanoseconds(e.timestamp) < Nanoseconds(age))
  {
    TakenExpired(q, Sub(now, age), n);
    forall e | e in q
      ensures Expired(e, Sub(now, age)) <==> Nanoseconds(now) - Nanoseconds(e.timestamp) >= Nanoseconds(age)
    {
      ExpiredIsOld(e, now, age);
    }
  }

  /** Entries pushed with a clock that never goes back. */
  ghost predicate Monotone(q: seq<Entry>) {
    forall i, j :: 0 <= i < j < |q| ==> Nanoseconds(q[j].timestamp) <= Nanoseconds(q[i].timestamp)
  }

  lemma YoungerIsLive(q: seq<Entry>, before: Timespec, i: nat, j: nat)
    requires Monotone(q) && Normalised(before) && i <= j < |q| && !Expired(q[j], before)
    requires Normalised(q[i].timestamp) && Normalised(q[j].timestamp)
    ensures !Expired(q[i], before)
  {
    StampArithmetic(q[i].timestamp, before);
    StampArithmetic(q[j].timestamp, before);
  }

  /** With monotone pushes the pass cuts the queue: it keeps a prefix and returns the rest, oldest first. */
  lemma {:induction false} MonotonePassIsSuffix(q: seq<Entry>, before: Timespec, n: nat)
    requires Monotone(q) && Normalised(before)
    requires forall i :: 0 <= i < |q| ==> Normalised(q[i].timestamp)
    ensures var r := TakeExpired(q, before, n);
            r.1 == q[..|r.1|] && r.0 == Reverse(q[|r.1|..])
    decreases |q|
  {
    if q == [] || n == 0 {
      assert q[|q|..] == [];
    } else {
      var last, init := q[|q| - 1], q[..|q| - 1];
      if Expired(last, before) {
        MonotonePassIsSuffix(init, before, n - 1);
        CutOneMore(q, TakeExpired(init, before, n - 1));
      } else {
        forall e | e in q
          ensures !Expired(e, before)
        {
          var i :| 0 <= i < |q| && q[i] == e;
          YoungerIsLive(q, before, i, |q| - 1);
        }
        NothingExpired(q, before, n);
        assert q[|q|..] == [];
      }
    }
  }

  lemma CutOneMore(q: seq<Entry>, r: (seq<Entry>, seq<Entry>))
    requires q != [] && |r.1| < |q|
    requires var init := q[..|q| - 1]; r.1 == init[..|r.1|] && r.0 == Reverse(init[|r.1|..])
    ensures r.1 == q[..|r.1|] && [q[|q| - 1]] + r.0 == Reverse(q[|r.1|..])
  {
    var init := q[..|q| - 1];
    assert q[|r.1|..] == init[|r.1|..] + [q[|q| - 1]];
    ReverseAppend(init[|r.1|..], q[|q| - 1]);
  }

  lemma {:induction false} NothingExpired(q: seq<Entry>, before: Timespec, n: nat)
    requires forall e :: e in q ==> !Expired(e, before)
    ensures TakeExpired(q, before, n) == ([], q)
    decreases |q|
  {
    if q != [] && n > 0 {
      assert q == q[..|q| - 1] + [q[|q| - 1]];
      NothingExpired(q[..|q| - 1], before, n);
    }
  }

}
