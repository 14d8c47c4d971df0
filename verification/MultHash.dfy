/**
  The integer hash of librpc/jrpc/hash.c: multiplication by an odd constant
  modulo 2^64, reduced modulo a table size that is always 64 times a power of two.
 */
module MultHash {
  import opened ProbeTable
  import opened Rehash
  import opened TableRuns

  const MULTIPLIER := 11400712997709160919
  const WORD := 0x1_0000_0000_0000_0000

  function Himult64(key: nat): (h: nat)
    ensures h < WORD
  {
    (key * MULTIPLIER) % WORD
  }

  /** The hash is the product with the multiplier of the source, cut to 64 bits. */
  lemma HashIsLowWord(key: nat)
    ensures exists q: int :: key * 11400712997709160919 == q * 0x1_0000_0000_0000_0000 + Himult64(key)
    ensures 0 <= Himult64(key) < 0x1_0000_0000_0000_0000
  {
    var p: int := key * 11400712997709160919;
    assert p == (p / 0x1_0000_0000_0000_0000) * 0x1_0000_0000_0000_0000 + Himult64(key);
  }

  function Pow2(r: nat): (p: nat)
    ensures p > 0
  {
    if r == 0 then 1 else 2 * Pow2(r - 1)
  }

  ghost predicate Divides(d: nat, x: int) {
    exists q: int :: x == q * d
  }

  lemma {:induction false} OddCancels(r: nat, x: int, m: int)
    requires m % 2 == 1 && Divides(Pow2(r), x * m)
    ensures Divides(Pow2(r), x)
  {
    if r == 0 {
      assert x == x * 1;
    } else {
      var q: int :| x * m == q * Pow2(r);
      var half := Pow2(r - 1);
      assert q * Pow2(r) == 2 * (q * half);
      EvenFactor(x, m, q * half);
      var y := x / 2;
      assert x == 2 * y;
      assert x * m == 2 * (y * m);
      assert y * m == q * half;
      OddCancels(r - 1, y, m);
      var p: int :| y == p * half;
      assert x == p * Pow2(r);
    }
  }

  lemma EvenFactor(x: int, m: int, e: int)
    requires m % 2 == 1 && x * m == 2 * e
    ensures x % 2 == 0
  {
    var k := m / 2;
    assert m == 2 * k + 1;
    assert x * m == 2 * (x * k) + x;
  }

  lemma {:induction false} PowDividesPow(r: nat, s: nat)
    requires r <= s
    ensures Divides(Pow2(r), Pow2(s))
  {
    if r == s {
      assert Pow2(s) == 1 * Pow2(r);
    } else {
      PowDividesPow(r, s - 1);
      var q: int :| Pow2(s - 1) == q * Pow2(r);
      assert Pow2(s) == (2 * q) * Pow2(r);
    }
  }

  lemma ModEqual(a: int, b: int, d: nat)
    requires d > 0
    ensures a % d == b % d <==> Divides(d, a - b)
  {
    if a % d == b % d {
      assert a == (a / d) * d + a % d && b == (b / d) * d + b % d;
      assert a - b == (a / d - b / d) * d;
    }
    if Divides(d, a - b) {
      var q: int :| a - b == q * d;
      SameRemainder(a, b, q, d);
    }
  }

  lemma SameRemainder(a: int, b: int, q: int, d: nat)
    requires d > 0 && a - b == q * d
    ensures a % d == b % d
  {
    var qa, qb := a / d, b / d;
    var ra, rb := a % d, b % d;
    assert a == qa * d + ra && b == qb * d + rb;
    assert ra - rb == (q - qa + qb) * d;
    SmallMultiple(ra - rb, q - qa + qb, d);
  }

  lemma SmallMultiple(x: int, q: int, d: int)
    requires d > 0 && x == q * d && -d < x < d
    ensures x == 0
  {
    if q >= 1 {
      MulGrows(q, d);
    } else if q <= -1 {
      MulGrows(-q, d);
    }
  }

  lemma MulGrows(q: int, d: int)
    requires q >= 1 && d > 0
    ensures q * d >= d
  {
  }

  /** Reduction modulo a divisor of w is not disturbed by a reduction modulo w. */
  lemma ReduceTwice(x: nat, w: nat, d: nat)
    requires w > 0 && d > 0 && Divides(d, w)
    ensures (x % w) % d == x % d
  {
    var q: int :| w == q * d;
    var k := x / w;
    assert x - x % w == k * w;
    Associate(k, q, d);
    SameRemainder(x, x % w, k * q, d);
  }

  lemma Associate(a: int, b: int, c: int)
    ensures a * (b * c) == (a * b) * c
  {
  }

  lemma WordIsPow2()
    ensures Pow2(64) == WORD
  {
    assert Pow2(8) == 256;
    assert Pow2(16) == 65536;
    assert Pow2(24) == 0x100_0000;
    assert Pow2(32) == 0x1_0000_0000;
    assert Pow2(40) == 0x100_0000_0000;
    assert Pow2(48) == 0x1_0000_0000_0000;
    assert Pow2(56) == 0x100_0000_0000_0000;
  }

  /** An odd factor neither creates nor removes divisibility by a power of two. */
  lemma OddFactor(r: nat, x: int, m: int)
    requires m % 2 == 1
    ensures Divides(Pow2(r), x * m) <==> Divides(Pow2(r), x)
  {
    if Divides(Pow2(r), x * m) {
      OddCancels(r, x, m);
    }
    if Divides(Pow2(r), x) {
      var q: int :| x == q * Pow2(r);
      Rearrange(q, Pow2(r), m);
      assert x * m == (q * m) * Pow2(r);
    }
  }

  lemma Rearrange(a: int, b: int, c: int)
    ensures (a * b) * c == (a * c) * b
  {
  }

  /** Two keys have the same home in a table of 2^r slots just when they are equal modulo 2^r. */
  lemma HomesCollide(a: nat, b: nat, r: nat)
    requires r <= 64
    ensures Home(Himult64, a, Pow2(r)) == Home(Himult64, b, Pow2(r)) <==> a % Pow2(r) == b % Pow2(r)
  {
    HomeIsReduced(a, r);
    HomeIsReduced(b, r);
    ModEqual(a * MULTIPLIER, b * MULTIPLIER, Pow2(r));
    ModEqual(a, b, Pow2(r));
    assert a * MULTIPLIER - b * MULTIPLIER == (a - b) * MULTIPLIER;
    OddFactor(r, a - b, MULTIPLIER);
  }

  lemma HomeIsReduced(a: nat, r: nat)
    requires r <= 64
    ensures Home(Himult64, a, Pow2(r)) == (a * MULTIPLIER) % Pow2(r)
  {
    WordIsPow2();
    PowDividesPow(r, 64);
    ReduceTwice(a * MULTIPLIER, WORD, Pow2(r));
  }

  /** As many consecutive identifiers as the table has slots have pairwise distinct homes. */
  lemma ConsecutiveHomesDistinct(first: nat, i: nat, j: nat, r: nat)
    requires r <= 64 && i < j < Pow2(r)
    ensures Home(Himult64, first + i, Pow2(r)) != Home(Himult64, first + j, Pow2(r))
  {
    var d := Pow2(r);
    HomesCollide(first + i, first + j, r);
    if (first + i) % d == (first + j) % d {
      ModEqual(first + i, first + j, d);
      var q: int :| (first + i) - (first + j) == q * d;
      SmallMultiple((first + i) - (first + j), q, d);
    }
  }

  /** Every table size reached from a new table is 2^(6 + number of rehashes). */
  lemma {:induction false} RunSize<V>(hash: nat -> nat, st: State<V>, ops: seq<Op<V>>, r: nat)
      returns (r': nat)
    requires Inv(hash, st) && ClientRun(ops) && |st.slots| == Pow2(r)
    ensures r <= r' <= r + |ops|
    ensures |Run(hash, st, ops).0.slots| == Pow2(r')
    decreases |ops|
  {
    if ops == [] {
      r' := r;
    } else {
      var s := Step(hash, st, ops[0]).0;
      if ops[0].OpInsert? && MustRehash(st) {
        assert |s.slots| == Pow2(r + 1);
        r' := RunSize(hash, s, ops[1..], r + 1);
      } else {
        r' := RunSize(hash, s, ops[1..], r);
      }
    }
  }

  lemma NewSize()
    ensures DEFAULT_SIZE == Pow2(6)
  {
  }

  lemma {:induction false} Pow2Grows(r: nat, s: nat)
    requires r < s
    ensures Pow2(r) < Pow2(s)
  {
    if r + 1 < s {
      Pow2Grows(r, s - 1);
    }
  }

  /**
    In every run from a new table, as long as its size fits in a word, as many
    consecutive identifiers as the table has slots have pairwise distinct homes.
   */
  lemma RunHomesDistinct<V>(ops: seq<Op<V>>, first: nat, i: nat, j: nat)
    requires Inv(Himult64, NewState<V>()) && ClientRun(ops)
    requires var n := |Run(Himult64, NewState<V>(), ops).0.slots|; n <= WORD && i < j < n
    ensures var n := |Run(Himult64, NewState<V>(), ops).0.slots|;
            Home(Himult64, first + i, n) != Home(Himult64, first + j, n)
  {
    NewSize();
    var r := RunSize(Himult64, NewState<V>(), ops, 6);
    WordIsPow2();
    if r > 64 {
      Pow2Grows(64, r);
    }
    ConsecutiveHomesDistinct(first, i, j, r);
  }

}
