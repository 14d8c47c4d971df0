/**
  A run from a new table in which a live key is inserted again behind the slot
  of a removed one (librpc/jrpc/hash.c).
 */
module Tombstone {
  import opened Wrappers
  import opened ProbeTable
  import opened TableRuns
  import opened MultHash

  /** Where the probe of insert ends when it meets a free slot at home, or right after another key. */
  lemma InsertNearHome<V>(hash: nat -> nat, t: seq<Slot<V>>, key: nat, i: nat)
    requires |t| == DEFAULT_SIZE && i <= 1
    requires var h := Home(hash, key, |t|);
             && t[At(h, i, |t|)].state != Occupied
             && (i == 1 ==> t[h].state == Occupied && t[h].key != key)
    ensures InsertSlot(hash, t, key) == i
  {
    var h := Home(hash, key, |t|);
    assert At(h, 0, |t|) == h;
    assert InsertProbe(t, h, key, i) == i;
  }

  /** Where lookup finds a key that is at home, or right after a removed slot. */
  lemma LookupNearHome<V>(hash: nat -> nat, t: seq<Slot<V>>, key: nat, i: nat)
    requires |t| == DEFAULT_SIZE && i <= 1
    requires var h := Home(hash, key, |t|);
             Holds(t, At(h, i, |t|), key) && (i == 1 ==> t[h].state == Removed)
    ensures Lookup(hash, t, key) == Some(At(Home(hash, key, |t|), i, |t|))
  {
    var h := Home(hash, key, |t|);
    assert At(h, 0, |t|) == h;
    assert LookupProbe(t, h, key, i) == Some(At(h, i, |t|));
  }

  // A table of the first size that is nearly empty.
  ghost predicate Early<V>(hash: nat -> nat, st: State<V>) {
    Inv(hash, st) && |st.slots| == DEFAULT_SIZE && st.keyCount <= 40
  }

  lemma StepInsert<V>(hash: nat -> nat, st: State<V>, key: nat, value: Option<V>, i: nat) returns (next: State<V>)
    requires Early(hash, st) && key != 0 && i <= 1
    requires var h := Home(hash, key, |st.slots|);
             && st.slots[At(h, i, |st.slots|)].state != Occupied
             && (i == 1 ==> st.slots[h].state == Occupied && st.slots[h].key != key)
    ensures Step(hash, st, OpInsert(key, value)) == (next, Inserted) && Inv(hash, next)
    ensures next.slots == st.slots[At(Home(hash, key, |st.slots|), i, |st.slots|) := Slot(key, value, Occupied)]
    ensures next.keyCount == st.keyCount + 1
  {
    InsertNearHome(hash, st.slots, key, i);
    next := Step(hash, st, OpInsert(key, value)).0;
  }

  lemma StepRemove<V>(hash: nat -> nat, st: State<V>, key: nat) returns (next: State<V>)
    requires Early(hash, st) && key != 0 && Holds(st.slots, Home(hash, key, |st.slots|), key)
    ensures Step(hash, st, OpRemove(key)) == (next, Erased(true)) && Inv(hash, next)
    ensures next.slots == st.slots[Home(hash, key, |st.slots|) := Slot(0, None, Removed)]
    ensures next.keyCount == st.keyCount - 1
  {
    LookupNearHome(hash, st.slots, key, 0);
    next := Step(hash, st, OpRemove(key)).0;
  }

  lemma RunFirst<V>(hash: nat -> nat, st: State<V>, o: Op<V>, ops: seq<Op<V>>)
    requires Inv(hash, st) && ClientOp(o) && ClientRun(ops)
    ensures ClientRun([o] + ops)
    ensures var s := Step(hash, st, o);
            Run(hash, st, [o] + ops) == (Run(hash, s.0, ops).0, [s.1] + Run(hash, s.0, ops).1)
  {
    assert ([o] + ops)[1..] == ops;
  }

  /** A key right after a removed slot is inserted again, removed, and searched. */
  lemma BehindTombstone<V>(hash: nat -> nat, st: State<V>, b: nat, v: Option<V>, w: Option<V>)
    requires Early(hash, st) && b != 0 && st.keyCount < 40
    requires var h := Home(hash, b, DEFAULT_SIZE);
             st.slots[h].state == Removed && st.slots[At(h, 1, DEFAULT_SIZE)] == Slot(b, v, Occupied)
    ensures var ops := [OpInsert(b, w)] + ([OpRemove(b)] + [OpSearch(b)]);
            ClientRun(ops) && Run(hash, st, ops).1 == [Inserted] + ([Erased(true)] + [Found(v)])
  {
    var s4 := StepInsert(hash, st, b, w, 0);
    var s5 := StepRemove(hash, s4, b);
    LookupNearHome(hash, s5.slots, b, 1);
    var last: seq<Op<V>> := [OpSearch(b)];
    assert last[1..] == [] && Run(hash, s5, last).1 == [Found(v)];
    RunFirst(hash, s4, OpRemove(b), last);
    RunFirst(hash, st, OpInsert(b, w), [OpRemove(b)] + last);
  }

  /**
    For every hash function and every two keys of the same home in a new table:
    insert a and b, remove a, insert b again, remove b.  Then b is still found,
    with the value it was first inserted with.
   */
  lemma RemovedKeyIsFound<V>(hash: nat -> nat, a: nat, b: nat, u: Option<V>, v: Option<V>, w: Option<V>)
    requires a != 0 && b != 0 && a != b && Home(hash, a, DEFAULT_SIZE) == Home(hash, b, DEFAULT_SIZE)
    ensures Inv(hash, NewState<V>())
    ensures var ops := [OpInsert(a, u)] + ([OpInsert(b, v)] + ([OpRemove(a)] + ([OpInsert(b, w)] + ([OpRemove(b)] + [OpSearch(b)]))));
            && ClientRun(ops)
            && Run(hash, NewState(), ops).1
               == [Inserted] + ([Inserted] + ([Erased(true)] + ([Inserted] + ([Erased(true)] + [Found(v)]))))
  {
    NewInv<V>(hash);
    var s0 := NewState<V>();
    var s1 := StepInsert(hash, s0, a, u, 0);
    var s2 := StepInsert(hash, s1, b, v, 1);
    var s3 := StepRemove(hash, s2, a);
    BehindTombstone(hash, s3, b, v, w);
    var rest := [OpInsert(b, w)] + ([OpRemove(b)] + [OpSearch(b)]);
    RunFirst(hash, s2, OpRemove(a), rest);
    RunFirst(hash, s1, OpInsert(b, v), [OpRemove(a)] + rest);
    RunFirst(hash, s0, OpInsert(a, u), [OpInsert(b, v)] + ([OpRemove(a)] + rest));
  }

  /** With the hash of integer keys, 1 and 65 are such keys. */
  lemma TombstoneHidesKey(u: Option<int>, v: Option<int>, w: Option<int>)
    ensures Inv(Himult64, NewState<int>())
    ensures var ops := [OpInsert(1, u)] + ([OpInsert(65, v)] + ([OpRemove(1)] + ([OpInsert(65, w)] + ([OpRemove(65)] + [OpSearch(65)]))));
            && ClientRun(ops)
            && Run(Himult64, NewState(), ops).1
               == [Inserted] + ([Inserted] + ([Erased(true)] + ([Inserted] + ([Erased(true)] + [Found(v)]))))
  {
    NewSize();
    HomesCollide(1, 65, 6);
    assert 1 % Pow2(6) == 65 % Pow2(6);
    RemovedKeyIsFound(Himult64, 1, 65, u, v, w);
  }

}
