/**
  Whole runs of insert, search and remove.  The invariant bounds the occupied
  slots, so the probe of insert always ends at a usable slot; and as long as an
  insert never places a second copy of a live key, the table is a finite map.
 */
module TableRuns {
  import opened Wrappers
  import opened ProbeTable
  import opened Rehash

  function NewState<V>(): (st: State<V>) {
    State(seq(DEFAULT_SIZE, _ => EmptySlot()), 0, [])
  }

  predicate MustRehash<V>(st: State<V>) {
    23 * st.keyCount > 16 * |st.slots|
  }

  function CheckOverflow<V>(hash: nat -> nat, st: State<V>): (r: State<V>)
    requires |st.slots| > 0
    ensures |r.slots| > 0
  {
    if MustRehash(st) then st.(slots := Doubled(hash, st.slots)) else st
  }

  function Released<V>(v: Option<V>): seq<V> {
    match v
    case Some(x) => [x]
    case None => []
  }

  /** The write of insert in a table that has room for the key. */
  function Placed<V>(hash: nat -> nat, st: State<V>, key: nat, value: Option<V>): State<V>
    requires |st.slots| > 0 && InsertSlot(hash, st.slots, key) < |st.slots|
  {
    var w := At(Home(hash, key, |st.slots|), InsertSlot(hash, st.slots, key), |st.slots|);
    State(Put(hash, st.slots, key, value), st.keyCount + 1, st.freed + Released(st.slots[w].value))
  }

  function Insert<V>(hash: nat -> nat, st: State<V>, key: nat, value: Option<V>): State<V>
    requires Inv(hash, st)
  {
    RoomAfterCheck(hash, st, key);
    Placed(hash, CheckOverflow(hash, st), key, value)
  }

  function Remove<V>(hash: nat -> nat, st: State<V>, key: nat): (State<V>, bool)
    requires |st.slots| > 0
  {
    match Lookup(hash, st.slots, key)
    case None => (st, false)
    case Some(w) =>
      if w < |st.slots| then
        (State(st.slots[w := Slot(0, None, Removed)], st.keyCount - 1, st.freed + Released(st.slots[w].value)), true)
      else (st, false)
  }

  // ---------------------------------------------------------------------
  // The invariant
  // ---------------------------------------------------------------------

  /**
    The counter is at least the number of live keys, exceeds the rehash
    threshold by at most one insertion, and misses at most 7/46 of the occupied
    slots: those left by a rehash that entered empty and removed slots.
   */
  ghost predicate Inv<V>(hash: nat -> nat, st: State<V>) {
    && |st.slots| >= DEFAULT_SIZE
    && ProbeOK(hash, st.slots)
    && Clean(st.slots)
    && |LiveSlots(st.slots)| <= st.keyCount
    && 23 * st.keyCount <= 16 * |st.slots| + 23
    && 46 * (|OccupiedSlots(st.slots)| - st.keyCount) <= 7 * |st.slots|
  }

  lemma NewInv<V>(hash: nat -> nat)
    ensures Inv(hash, NewState<V>())
  {
    var st := NewState<V>();
    assert OccupiedSlots(st.slots) == {} && LiveSlots(st.slots) == {};
  }

  lemma {:induction false} EnteredLive<V>(hash: nat -> nat, old_slots: seq<Slot<V>>, n: nat, j: nat)
    requires j <= |old_slots| < n && Clean(old_slots)
    ensures |LiveSlots(Entered(hash, old_slots, n, j))| == |LiveSlots(old_slots[..j])|
  {
    if j == 0 {
      assert LiveSlots(Entered(hash, old_slots, n, 0)) == {} == LiveSlots(old_slots[..0]);
    } else {
      EnteredLive(hash, old_slots, n, j - 1);
      EnteredStep(hash, old_slots, n, j - 1);
      LiveAfterEntry(Entered(hash, old_slots, n, j - 1), EntrySlot(hash, old_slots, n, j - 1), old_slots, j - 1);
    }
  }

  lemma LiveAfterEntry<V>(t: seq<Slot<V>>, e: nat, from: seq<Slot<V>>, j: nat)
    requires e < |t| && t[e] == EmptySlot() && j < |from| && Clean(from)
    requires |LiveSlots(t)| == |LiveSlots(from[..j])|
    ensures |LiveSlots(t[e := Slot(from[j].key, from[j].value, Occupied)])| == |LiveSlots(from[..j + 1])|
  {
    var t' := t[e := Slot(from[j].key, from[j].value, Occupied)];
    if from[j].key == 0 {
      assert LiveSlots(t') == LiveSlots(t);
      assert LiveSlots(from[..j + 1]) == LiveSlots(from[..j]);
    } else {
      assert LiveSlots(t') == LiveSlots(t) + {e as int};
      assert LiveSlots(from[..j + 1]) == LiveSlots(from[..j]) + {j as int};
    }
  }

  /** After the overflow check no rehash is due and at most 39/46 of the slots are occupied. */
  lemma CheckOverflowInv<V>(hash: nat -> nat, st: State<V>)
    requires Inv(hash, st)
    ensures var r := CheckOverflow(hash, st);
            Inv(hash, r) && !MustRehash(r) && 46 * |OccupiedSlots(r.slots)| <= 39 * |r.slots|
  {
    if MustRehash(st) {
      EnteredProbeOK(hash, st.slots, 2 * |st.slots|, |st.slots|);
      EnteredClean(hash, st.slots, 2 * |st.slots|, |st.slots|);
      EnteredLive(hash, st.slots, 2 * |st.slots|, |st.slots|);
      assert st.slots[..|st.slots|] == st.slots;
    }
  }

  /** The assertion in insert never fails: the probe stops before it has gone round the table. */
  lemma RoomAfterCheck<V>(hash: nat -> nat, st: State<V>, key: nat)
    requires Inv(hash, st)
    ensures var r := CheckOverflow(hash, st); InsertSlot(hash, r.slots, key) < |r.slots|
  {
    CheckOverflowInv(hash, st);
    RoomForInsert(hash, CheckOverflow(hash, st).slots, key);
  }

  lemma InsertInv<V>(hash: nat -> nat, st: State<V>, key: nat, value: Option<V>)
    requires Inv(hash, st) && key != 0
    ensures Inv(hash, Insert(hash, st, key, value))
  {
    var r := CheckOverflow(hash, st);
    CheckOverflowInv(hash, st);
    RoomAfterCheck(hash, st, key);
    PutKeepsProbe(hash, r.slots, key, value);
    CountAfterPut(hash, r.slots, key, value);
  }

  lemma RemoveInv<V>(hash: nat -> nat, st: State<V>, key: nat)
    requires Inv(hash, st) && key != 0
    ensures Inv(hash, Remove(hash, st, key).0)
  {
    if Lookup(hash, st.slots, key).Some? {
      var w := Lookup(hash, st.slots, key).value;
      WriteKeepsPaths(hash, st.slots, w, Slot(0, None, Removed));
      CountAfterErase(st.slots, w);
    }
  }

  // ---------------------------------------------------------------------
  // The table as a map
  // ---------------------------------------------------------------------

  ghost predicate Refines<V(!new)>(t: seq<Slot<V>>, m: map<nat, Option<V>>) {
    && Unique(t)
    && 0 !in m
    && forall k, v :: k != 0 ==> (Maps(t, k, v) <==> k in m && m[k] == v)
  }

  lemma RefinesLookup<V(!new)>(hash: nat -> nat, t: seq<Slot<V>>, m: map<nat, Option<V>>, key: nat)
    requires |t| > 0 && ProbeOK(hash, t) && Clean(t) && Refines(t, m)
    ensures key != 0 ==> (Lookup(hash, t, key).Some? <==> key in m)
    ensures Search(hash, t, key) == if key in m then m[key] else None
  {
    LookupIsFirst(hash, t, key);
    match Lookup(hash, t, key)
    case Some(w) =>
      assert Holds(t, w, key);
      assert key != 0 ==> Maps(t, key, t[w].value);
    case None =>
      assert key in m ==> Maps(t, key, m[key]);
  }

  lemma RefinesDoubled<V(!new)>(hash: nat -> nat, t: seq<Slot<V>>, m: map<nat, Option<V>>)
    requires |t| > 0 && Clean(t) && Refines(t, m)
    ensures Refines(Doubled(hash, t), m)
  {
    EnteredUnique(hash, t, 2 * |t|, |t|);
    assert t[..|t|] == t;
    forall k, v | k != 0
      ensures Maps(Doubled(hash, t), k, v) <==> k in m && m[k] == v
    {
      EnteredMaps(hash, t, 2 * |t|, |t|, k, v);
    }
  }

  /** No tombstone (nor empty slot) lies between the home of key and slot w. */
  predicate NoGapBefore<V>(hash: nat -> nat, t: seq<Slot<V>>, key: nat, w: nat)
    requires w < |t|
  {
    forall j :: 0 <= j < Dist(Home(hash, key, |t|), w, |t|) ==>
      t[At(Home(hash, key, |t|), j, |t|)].state == Occupied
  }

  /**
    When an insert is a map update: the key is absent, or its slot is not hidden
    from the insert probe by a tombstone.
   */
  predicate InsertIsUpdate<V>(hash: nat -> nat, t: seq<Slot<V>>, key: nat)
    requires |t| > 0
  {
    match Lookup(hash, t, key)
    case None => true
    case Some(w) => w < |t| && NoGapBefore(hash, t, key, w)
  }

  /** InsertIsUpdate says that the insert probe stops at the key whenever the key is there. */
  lemma InsertSlotOfKey<V>(hash: nat -> nat, t: seq<Slot<V>>, key: nat)
    requires |t| > 0 && InsertSlot(hash, t, key) < |t| && Lookup(hash, t, key).Some? && ProbeOK(hash, t)
    ensures InsertIsUpdate(hash, t, key)
       <==> Lookup(hash, t, key).value == At(Home(hash, key, |t|), InsertSlot(hash, t, key), |t|)
  {
    var h := Home(hash, key, |t|);
    var r := InsertSlot(hash, t, key);
    var w := Lookup(hash, t, key).value;
    LookupIsFirst(hash, t, key);
    DistAt(h, r, |t|);
    assert At(h, Dist(h, w, |t|), |t|) == w;
    assert r <= Dist(h, w, |t|);
    if r < Dist(h, w, |t|) {
      assert !Holds(t, At(h, r, |t|), key);
      assert t[At(h, r, |t|)].state != Occupied;
    }
  }

  /** Without duplicates, an insert introduces one just when it is not a map update. */
  lemma PutKeepsUnique<V>(hash: nat -> nat, t: seq<Slot<V>>, key: nat, value: Option<V>)
    requires |t| > 0 && ProbeOK(hash, t) && Unique(t) && key != 0 && InsertSlot(hash, t, key) < |t|
    ensures Unique(Put(hash, t, key, value)) <==> InsertIsUpdate(hash, t, key)
  {
    var t' := Put(hash, t, key, value);
    var w := At(Home(hash, key, |t|), InsertSlot(hash, t, key), |t|);
    LookupIsFirst(hash, t, key);
    assert Holds(t', w, key);
    if Lookup(hash, t, key).Some? {
      var u := Lookup(hash, t, key).value;
      InsertSlotOfKey(hash, t, key);
      assert Holds(t, u, key);
      if w != u {
        assert Holds(t', u, key);
      }
    }
    if InsertIsUpdate(hash, t, key) {
      forall a, b, k | k != 0 && Holds(t', a, k) && Holds(t', b, k)
        ensures a == b
      {
        assert a != w ==> Holds(t, a, k);
        assert b != w ==> Holds(t, b, k);
      }
    }
  }

  lemma RefinesPut<V(!new)>(hash: nat -> nat, t: seq<Slot<V>>, m: map<nat, Option<V>>, key: nat, value: Option<V>)
    requires |t| > 0 && ProbeOK(hash, t) && Clean(t) && Refines(t, m) && key != 0
    requires InsertSlot(hash, t, key) < |t| && InsertIsUpdate(hash, t, key)
    ensures Refines(Put(hash, t, key, value), m[key := value])
  {
    var t' := Put(hash, t, key, value);
    var w := At(Home(hash, key, |t|), InsertSlot(hash, t, key), |t|);
    PutKeepsUnique(hash, t, key, value);
    assert Holds(t', w, key);
    forall k, v | k != 0
      ensures Maps(t', k, v) <==> k in m[key := value] && m[key := value][k] == v
    {
      if k != key {
        OtherKeyKept(t, w, Slot(key, value, Occupied), k, v);
      }
    }
  }

  lemma OtherKeyKept<V>(t: seq<Slot<V>>, w: nat, s: Slot<V>, k: nat, v: Option<V>)
    requires w < |t| && !Holds(t, w, k) && (s.state == Occupied ==> s.key != k)
    ensures Maps(t[w := s], k, v) <==> Maps(t, k, v)
  {
    if Maps(t, k, v) {
      var u :| Holds(t, u, k) && t[u].value == v;
      assert Holds(t[w := s], u, k);
    }
    if Maps(t[w := s], k, v) {
      var u :| Holds(t[w := s], u, k) && t[w := s][u].value == v;
      assert Holds(t, u, k);
    }
  }

  lemma RefinesRemove<V(!new)>(hash: nat -> nat, st: State<V>, m: map<nat, Option<V>>, key: nat)
    requires Inv(hash, st) && Refines(st.slots, m) && key != 0
    ensures Refines(Remove(hash, st, key).0.slots, m - {key})
    ensures Remove(hash, st, key).1 == (key in m)
  {
    var t := st.slots;
    RefinesLookup(hash, t, m, key);
    if Lookup(hash, t, key).Some? {
      var w := Lookup(hash, t, key).value;
      var t' := t[w := Slot(0, None, Removed)];
      forall a, k | Holds(t', a, k)
        ensures Holds(t, a, k) && k != key
      {
        assert Holds(t, a, k) && Holds(t, w, key);
      }
      forall k, v | k != 0
        ensures Maps(t', k, v) <==> k in m - {key} && (m - {key})[k] == v
      {
        if k != key {
          OtherKeyKept(t, w, Slot(0, None, Removed), k, v);
        }
      }
    } else {
      assert m - {key} == m;
    }
  }

  // ---------------------------------------------------------------------
  // Runs
  // ---------------------------------------------------------------------

  datatype Op<V> =
    | OpInsert(key: nat, value: Option<V>)
    | OpSearch(key: nat)
    | OpRemove(key: nat)

  datatype Reply<V> = Inserted | Found(value: Option<V>) | Erased(was: bool)

  /** Clients insert and remove non-NULL keys. */
  predicate ClientOp<V>(op: Op<V>) {
    op.OpSearch? || op.key != 0
  }

  predicate ClientRun<V>(ops: seq<Op<V>>) {
    forall i :: 0 <= i < |ops| ==> ClientOp(ops[i])
  }

  function Step<V>(hash: nat -> nat, st: State<V>, op: Op<V>): (r: (State<V>, Reply<V>))
    requires Inv(hash, st) && ClientOp(op)
    ensures Inv(hash, r.0)
  {
    StepInv(hash, st, op);
    match op
    case OpInsert(k, v) => (Insert(hash, st, k, v), Inserted)
    case OpSearch(k) => (st, Found(Search(hash, st.slots, k)))
    case OpRemove(k) => (Remove(hash, st, k).0, Erased(Remove(hash, st, k).1))
  }

  lemma StepInv<V>(hash: nat -> nat, st: State<V>, op: Op<V>)
    requires Inv(hash, st) && ClientOp(op)
    ensures op.OpInsert? ==> Inv(hash, Insert(hash, st, op.key, op.value))
    ensures op.OpRemove? ==> Inv(hash, Remove(hash, st, op.key).0)
  {
    match op
    case OpInsert(k, v) => InsertInv(hash, st, k, v);
    case OpSearch(_) =>
    case OpRemove(k) => RemoveInv(hash, st, k);
  }

  function Run<V>(hash: nat -> nat, st: State<V>, ops: seq<Op<V>>): (r: (State<V>, seq<Reply<V>>))
    requires Inv(hash, st) && ClientRun(ops)
    ensures Inv(hash, r.0)
    decreases |ops|
  {
    if ops == [] then (st, [])
    else
      var s := Step(hash, st, ops[0]);
      var rest := Run(hash, s.0, ops[1..]);
      (rest.0, [s.1] + rest.1)
  }

  // ---------------------------------------------------------------------
  // Sizes and counts
  // ---------------------------------------------------------------------

  /** The table doubles exactly when 23 times the key count exceeds 16 times its size. */
  lemma CheckOverflowExactly<V>(hash: nat -> nat, st: State<V>)
    requires |st.slots| > 0
    ensures var r := CheckOverflow(hash, st);
            && r.keyCount == st.keyCount && r.freed == st.freed
            && (23 * st.keyCount > 16 * |st.slots| ==> |r.slots| == 2 * |st.slots|)
            && (23 * st.keyCount <= 16 * |st.slots| ==> r == st)
    ensures |NewState<V>().slots| == 64 && forall i :: 0 <= i < 64 ==> NewState<V>().slots[i].state == Empty
  {
  }

  /** The inserts of a run, and its removes that found their key. */
  function Changes<V>(ops: seq<Op<V>>, replies: seq<Reply<V>>): int
    requires |ops| == |replies|
    decreases |ops|
  {
    if ops == [] then 0
    else (if ops[0].OpInsert? then 1 else if replies[0] == Erased(true) then -1 else 0) + Changes(ops[1..], replies[1..])
  }

  /** The key count is that of the inserts, overwrites too, less that of the removes that found their key. */
  lemma {:induction false} RunCounts<V>(hash: nat -> nat, st: State<V>, ops: seq<Op<V>>)
    requires Inv(hash, st) && ClientRun(ops)
    ensures var r := Run(hash, st, ops);
            && |r.1| == |ops| && r.0.keyCount == st.keyCount + Changes(ops, r.1)
            && forall i :: 0 <= i < |ops| ==> match ops[i]
                                             case OpInsert(_, _) => r.1[i] == Inserted
                                             case OpSearch(_) => r.1[i].Found?
                                             case OpRemove(_) => r.1[i].Erased?
    decreases |ops|
  {
    if ops != [] {
      var s := Step(hash, st, ops[0]);
      var rest := Run(hash, s.0, ops[1..]);
      RunCounts(hash, s.0, ops[1..]);
      assert ([s.1] + rest.1)[1..] == rest.1;
      assert forall i :: 1 <= i < |ops| ==> ops[i] == ops[1..][i - 1];
    }
  }

  /** In any run with non-NULL keys, the probe of any further insert has a place. */
  lemma RunNeverFillsUp<V>(hash: nat -> nat, st: State<V>, ops: seq<Op<V>>, key: nat)
    requires Inv(hash, st) && ClientRun(ops)
    ensures var end := Run(hash, st, ops).0;
            var r := CheckOverflow(hash, end);
            && InsertSlot(hash, r.slots, key) < |r.slots|
            && 46 * |OccupiedSlots(r.slots)| <= 39 * |r.slots|
            && end.keyCount >= |LiveSlots(end.slots)|
  {
    var end := Run(hash, st, ops).0;
    CheckOverflowInv(hash, end);
    RoomAfterCheck(hash, end, key);
  }

  /** Every insert of the run is a map update. */
  predicate UpdateRun<V>(hash: nat -> nat, st: State<V>, ops: seq<Op<V>>)
    requires Inv(hash, st) && ClientRun(ops)
    decreases |ops|
  {
    if ops == [] then true
    else
      && (ops[0].OpInsert? ==> InsertIsUpdate(hash, CheckOverflow(hash, st).slots, ops[0].key))
      && UpdateRun(hash, Step(hash, st, ops[0]).0, ops[1..])
  }

  function MapStep<V>(m: map<nat, Option<V>>, op: Op<V>): (map<nat, Option<V>>, Reply<V>) {
    match op
    case OpInsert(k, v) => (m[k := v], Inserted)
    case OpSearch(k) => (m, Found(if k in m then m[k] else None))
    case OpRemove(k) => (m - {k}, Erased(k in m))
  }

  function MapRun<V>(m: map<nat, Option<V>>, ops: seq<Op<V>>): (map<nat, Option<V>>, seq<Reply<V>>)
    decreases |ops|
  {
    if ops == [] then (m, [])
    else
      var s := MapStep(m, ops[0]);
      var rest := MapRun(s.0, ops[1..]);
      (rest.0, [s.1] + rest.1)
  }

  lemma StepRefines<V(!new)>(hash: nat -> nat, st: State<V>, m: map<nat, Option<V>>, op: Op<V>)
    requires Inv(hash, st) && Refines(st.slots, m) && ClientOp(op)
    requires op.OpInsert? ==> InsertIsUpdate(hash, CheckOverflow(hash, st).slots, op.key)
    ensures Refines(Step(hash, st, op).0.slots, MapStep(m, op).0)
    ensures Step(hash, st, op).1 == MapStep(m, op).1
  {
    match op
    case OpInsert(k, v) =>
      var r := CheckOverflow(hash, st);
      CheckOverflowInv(hash, st);
      RoomAfterCheck(hash, st, k);
      if MustRehash(st) {
        RefinesDoubled(hash, st.slots, m);
      }
      RefinesPut(hash, r.slots, m, k, v);
    case OpSearch(k) => RefinesLookup(hash, st.slots, m, k);
    case OpRemove(k) => RefinesRemove(hash, st, m, k);
  }

  /** Over every such run, across any number of rehashes, the table answers as a finite map does. */
  lemma {:induction false} RunRefines<V(!new)>(hash: nat -> nat, st: State<V>, m: map<nat, Option<V>>, ops: seq<Op<V>>)
    requires Inv(hash, st) && Refines(st.slots, m)
    requires ClientRun(ops)
    requires UpdateRun(hash, st, ops)
    ensures Run(hash, st, ops).1 == MapRun(m, ops).1
    ensures Refines(Run(hash, st, ops).0.slots, MapRun(m, ops).0)
    decreases |ops|
  {
    if ops != [] {
      StepRefines(hash, st, m, ops[0]);
      RunRefines(hash, Step(hash, st, ops[0]).0, MapStep(m, ops[0]).0, ops[1..]);
    }
  }

  /** A run that only inserts keys that are not live is such a run. */
  predicate FreshRun<V>(m: map<nat, Option<V>>, ops: seq<Op<V>>)
    decreases |ops|
  {
    ops == [] || ((ops[0].OpInsert? ==> ops[0].key !in m) && FreshRun(MapStep(m, ops[0]).0, ops[1..]))
  }

  lemma FreshInsertIsUpdate<V(!new)>(hash: nat -> nat, st: State<V>, m: map<nat, Option<V>>, key: nat)
    requires Inv(hash, st) && Refines(st.slots, m) && key != 0 && key !in m
    ensures InsertIsUpdate(hash, CheckOverflow(hash, st).slots, key)
  {
    CheckOverflowInv(hash, st);
    if MustRehash(st) {
      RefinesDoubled(hash, st.slots, m);
    }
    RefinesLookup(hash, CheckOverflow(hash, st).slots, m, key);
  }

  lemma {:induction false} FreshRunIsUpdateRun<V(!new)>(hash: nat -> nat, st: State<V>, m: map<nat, Option<V>>, ops: seq<Op<V>>)
    requires Inv(hash, st) && Refines(st.slots, m)
    requires ClientRun(ops)
    requires FreshRun(m, ops)
    ensures UpdateRun(hash, st, ops)
    decreases |ops|
  {
    if ops != [] {
      if ops[0].OpInsert? {
        FreshInsertIsUpdate(hash, st, m, ops[0].key);
      }
      StepRefines(hash, st, m, ops[0]);
      FreshRunIsUpdateRun(hash, Step(hash, st, ops[0]).0, MapStep(m, ops[0]).0, ops[1..]);
    }
  }

  lemma NewRefines<V(!new)>()
    ensures Refines(NewState<V>().slots, map[])
  {
  }

  /**
    The exact condition.  In a table without duplicates, inserting a key and
    removing it makes the key absent if and only if the insert was a map update
    of the table after its overflow check; otherwise the previous value of the
    key is back.
   */
  lemma InsertThenRemove<V>(hash: nat -> nat, st: State<V>, key: nat, value: Option<V>)
    requires Inv(hash, st) && Unique(st.slots) && key != 0
    ensures var t, st' := CheckOverflow(hash, st).slots, Remove(hash, Insert(hash, st, key, value), key).0;
            && (Lookup(hash, st'.slots, key) == None <==> InsertIsUpdate(hash, t, key))
            && (!InsertIsUpdate(hash, t, key) ==> Search(hash, st'.slots, key) == Search(hash, st.slots, key))
  {
    var r := CheckOverflow(hash, st);
    CheckOverflowInv(hash, st);
    if MustRehash(st) {
      assert st.slots[..|st.slots|] == st.slots;
      EnteredUnique(hash, st.slots, 2 * |st.slots|, |st.slots|);
      DoubledSearch(hash, st.slots, key);
    }
    InsertThenRemoveInPlace(hash, r, key, value);
  }

  lemma InsertThenRemoveInPlace<V>(hash: nat -> nat, st: State<V>, key: nat, value: Option<V>)
    requires Inv(hash, st) && !MustRehash(st) && Unique(st.slots) && key != 0
    ensures var st' := Remove(hash, Insert(hash, st, key, value), key).0;
            && (Lookup(hash, st'.slots, key) == None <==> InsertIsUpdate(hash, st.slots, key))
            && (!InsertIsUpdate(hash, st.slots, key) ==>
                  Search(hash, st'.slots, key) == Search(hash, st.slots, key))
  {
    var t := st.slots;
    RoomAfterCheck(hash, st, key);
    var ins := Insert(hash, st, key, value);
    var w := At(Home(hash, key, |t|), InsertSlot(hash, t, key), |t|);
    InsertInv(hash, st, key, value);
    PutIsFirst(hash, t, key, value);
    LookupIsFirst(hash, ins.slots, key);
    FirstIsUnique(hash, ins.slots, key, w, Lookup(hash, ins.slots, key).value);
    RemoveInv(hash, ins, key);
    var st' := Remove(hash, ins, key).0;
    assert st'.slots == t[w := Slot(0, None, Removed)];
    LookupIsFirst(hash, t, key);
    LookupIsFirst(hash, st'.slots, key);
    if Lookup(hash, t, key).Some? {
      InsertSlotOfKey(hash, t, key);
      var u := Lookup(hash, t, key).value;
      assert Holds(t, u, key);
      if u != w {
        assert Holds(st'.slots, u, key);
        var x := Lookup(hash, st'.slots, key).value;
        assert Holds(t, x, key);
      }
    }
    if Lookup(hash, st'.slots, key).Some? {
      var x := Lookup(hash, st'.slots, key).value;
      assert Holds(st'.slots, x, key) && x != w;
      assert Holds(t, x, key);
    }
  }

  // ---------------------------------------------------------------------
  // Values are neither lost nor released twice
  // ---------------------------------------------------------------------

  ghost function Ledger<V>(st: State<V>): multiset<V> {
    Owned(st.slots) + multiset(st.freed)
  }

  ghost function Given<V>(ops: seq<Op<V>>): multiset<V> {
    if ops == [] then multiset{}
    else (if ops[0].OpInsert? then One(ops[0].value) else multiset{}) + Given(ops[1..])
  }

  lemma ReleasedOne<V>(freed: seq<V>, v: Option<V>)
    ensures multiset(freed + Released(v)) == multiset(freed) + One(v)
  {
  }

  lemma FreeOneMore<V>(all: seq<V>, freed: seq<V>, t: seq<Slot<V>>, i: nat)
    requires i < |t| && Clean(t)
    requires multiset(all) == multiset(freed) + Owned(t[..i])
    ensures multiset(all + Released(t[i].value)) == multiset(freed) + Owned(t[..i + 1])
    ensures t[i].state != Occupied ==> multiset(all) == multiset(freed) + Owned(t[..i + 1])
  {
    ReleasedOne(all, t[i].value);
    OwnedOneMore(t, i);
    assert (multiset(freed) + Owned(t[..i])) + One(t[i].value) == multiset(freed) + (Owned(t[..i]) + One(t[i].value));
  }

  lemma WriteLedger<V>(st: State<V>, w: nat, s: Slot<V>, kc: int)
    requires w < |st.slots|
    ensures Ledger(State(st.slots[w := s], kc, st.freed + Released(st.slots[w].value)))
         == Ledger(st) + One(s.value)
  {
    var a, b := Owned(st.slots[w := s]), Owned(st.slots);
    var x, y := One(st.slots[w].value), One(s.value);
    OwnedAfterWrite(st.slots, w, s);
    ReleasedOne(st.freed, st.slots[w].value);
    AddToBoth(a, x, b, y, multiset(st.freed));
    assert a + (multiset(st.freed) + x) == (a + multiset(st.freed)) + x;
  }

  lemma InsertLedger<V>(hash: nat -> nat, st: State<V>, k: nat, v: Option<V>)
    requires Inv(hash, st) && ClientOp(OpInsert(k, v))
    ensures Ledger(Step(hash, st, OpInsert(k, v)).0) == Ledger(st) + One(v)
  {
    var r := CheckOverflow(hash, st);
    RoomAfterCheck(hash, st, k);
    assert st.slots[..|st.slots|] == st.slots;
    if MustRehash(st) {
      EnteredOwned(hash, st.slots, 2 * |st.slots|, |st.slots|);
    }
    var w := At(Home(hash, k, |r.slots|), InsertSlot(hash, r.slots, k), |r.slots|);
    WriteLedger(r, w, Slot(k, v, Occupied), r.keyCount + 1);
  }

  lemma StepLedger<V>(hash: nat -> nat, st: State<V>, op: Op<V>)
    requires Inv(hash, st) && ClientOp(op)
    ensures Ledger(Step(hash, st, op).0)
         == Ledger(st) + (if op.OpInsert? then One(op.value) else multiset{})
  {
    match op
    case OpInsert(k, v) => InsertLedger(hash, st, k, v);
    case OpSearch(_) =>
    case OpRemove(k) =>
      if Lookup(hash, st.slots, k).Some? {
        WriteLedger(st, Lookup(hash, st.slots, k).value, Slot(0, None, Removed), st.keyCount - 1);
      }
  }

  /**
    Over every run with non-NULL keys, duplicates or not, the values still in
    the table together with the values released are exactly the values inserted.
   */
  lemma {:induction false} RunLedger<V>(hash: nat -> nat, st: State<V>, ops: seq<Op<V>>)
    requires Inv(hash, st) && ClientRun(ops)
    ensures Ledger(Run(hash, st, ops).0) == Ledger(st) + Given(ops)
    decreases |ops|
  {
    if ops != [] {
      StepLedger(hash, st, ops[0]);
      RunLedger(hash, Step(hash, st, ops[0]).0, ops[1..]);
    }
  }

}
