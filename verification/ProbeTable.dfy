/**
  The open-addressing table of librpc/jrpc/hash.c as a mathematical object:
  a sequence of slots searched by linear probing, with tombstones, and the
  effect of each operation on it.  The class in HashTable.dfy runs the loops
  and is proved against the functions of this module.
 */
module ProbeTable {
  import opened Wrappers

  datatype SlotState = Empty | Removed | Occupied

  // Key 0 is the NULL pointer, value None the NULL pointer.
  datatype Slot<V> = Slot(key: nat, value: Option<V>, state: SlotState)

  // The state of a table: slots, key counter, and the values handed so far to
  // the value destructor.
  datatype State<V> = State(slots: seq<Slot<V>>, keyCount: int, freed: seq<V>)

  const DEFAULT_SIZE := 64

  function EmptySlot<V>(): Slot<V> {
    Slot(0, None, Empty)
  }

  // ---------------------------------------------------------------------
  // Probe positions
  // ---------------------------------------------------------------------

  function Home(hash: nat -> nat, key: nat, n: nat): (h: nat)
    requires n > 0
    ensures h < n
  {
    hash(key) % n
  }

  /** The slot reached after i steps from h, around a table of n slots. */
  function At(h: nat, i: nat, n: nat): (w: nat)
    requires h < n && i < n
    ensures w < n
  {
    if h + i < n then h + i else h + i - n
  }

  lemma AtIsModular(h: nat, i: nat, n: nat)
    requires h < n && i < n
    ensures At(h, i, n) == (h + i) % n
  {
    if h + i >= n {
      assert h + i == n + (h + i - n);
      ModAddsBack(h + i - n, n);
    }
  }

  lemma ModAddsBack(r: nat, n: nat)
    requires r < n
    ensures (n + r) % n == r
  {
  }

  /** The number of steps from h to slot w. */
  function Dist(h: nat, w: nat, n: nat): (d: nat)
    requires h < n && w < n
    ensures d < n && At(h, d, n) == w
  {
    if h <= w then w - h else w + n - h
  }

  // ---------------------------------------------------------------------
  // The two probe loops
  // ---------------------------------------------------------------------

  /** The probe of insert: stops at a slot that is not occupied, or that holds the key. */
  function InsertProbe<V>(t: seq<Slot<V>>, h: nat, key: nat, i: nat): (r: nat)
    requires h < |t| && i <= |t|
    ensures i <= r <= |t|
    ensures forall j :: i <= j < r ==> t[At(h, j, |t|)].state == Occupied && t[At(h, j, |t|)].key != key
    ensures r < |t| ==> t[At(h, r, |t|)].state != Occupied || t[At(h, r, |t|)].key == key
    decreases |t| - i
  {
    if i == |t| then i
    else if t[At(h, i, |t|)].state != Occupied || t[At(h, i, |t|)].key == key then i
    else InsertProbe(t, h, key, i + 1)
  }

  /** The probe of rehash: stops at an empty slot. */
  function EmptyProbe<V>(t: seq<Slot<V>>, h: nat, i: nat): (r: nat)
    requires h < |t| && i <= |t|
    ensures i <= r <= |t|
    ensures forall j :: i <= j < r ==> t[At(h, j, |t|)].state != Empty
    ensures r < |t| ==> t[At(h, r, |t|)].state == Empty
    decreases |t| - i
  {
    if i == |t| then i
    else if t[At(h, i, |t|)].state == Empty then i
    else EmptyProbe(t, h, i + 1)
  }

  ghost predicate Holds<V>(t: seq<Slot<V>>, w: int, key: nat) {
    0 <= w < |t| && t[w].state == Occupied && t[w].key == key
  }

  /** The probe of lookup: stops at an empty slot, passes over removed ones. */
  function LookupProbe<V>(t: seq<Slot<V>>, h: nat, key: nat, i: nat): (r: Option<nat>)
    requires h < |t| && i <= |t|
    ensures r.Some? ==> Holds(t, r.value, key) && i <= Dist(h, r.value, |t|)
    decreases |t| - i
  {
    if i == |t| then None
    else
      var s := t[At(h, i, |t|)];
      if s.state == Empty then None
      else if s.state == Occupied && s.key == key then
        Some(At(h, i, |t|))
      else LookupProbe(t, h, key, i + 1)
  }

  function Lookup<V>(hash: nat -> nat, t: seq<Slot<V>>, key: nat): Option<nat>
    requires |t| > 0
  {
    LookupProbe(t, Home(hash, key, |t|), key, 0)
  }

  function Search<V>(hash: nat -> nat, t: seq<Slot<V>>, key: nat): Option<V>
    requires |t| > 0
  {
    match Lookup(hash, t, key)
    case Some(w) => if w < |t| then t[w].value else None
    case None => None
  }

  // ---------------------------------------------------------------------
  // The probe invariant
  // ---------------------------------------------------------------------

  /** No empty slot lies between the home of key and slot w. */
  ghost predicate PathFull<V>(t: seq<Slot<V>>, h: nat, w: nat)
    requires h < |t| && w < |t|
  {
    forall j :: 0 <= j < Dist(h, w, |t|) ==> t[At(h, j, |t|)].state != Empty
  }

  /** Every occupied slot can be reached from the home of its key. */
  ghost predicate ProbeOK<V>(hash: nat -> nat, t: seq<Slot<V>>)
    requires |t| > 0
  {
    forall w :: 0 <= w < |t| && t[w].state == Occupied ==> PathFull(t, Home(hash, t[w].key, |t|), w)
  }

  /** Unoccupied slots are wiped, and a NULL key never carries a value. */
  ghost predicate Clean<V>(t: seq<Slot<V>>) {
    forall w :: 0 <= w < |t| ==>
      (t[w].state != Occupied ==> t[w].key == 0) && (t[w].key == 0 ==> t[w].value == None)
  }

  /** Slot w is the occurrence of key nearest to its home. */
  ghost predicate First<V>(hash: nat -> nat, t: seq<Slot<V>>, key: nat, w: int)
    requires |t| > 0
  {
    && Holds(t, w, key)
    && forall u :: Holds(t, u, key) ==>
         Dist(Home(hash, key, |t|), w, |t|) <= Dist(Home(hash, key, |t|), u, |t|)
  }

  lemma {:induction false} LookupProbeFinds<V>(t: seq<Slot<V>>, h: nat, key: nat, i: nat, w: nat)
    requires h < |t| && i <= |t|
    requires Holds(t, w, key) && PathFull(t, h, w) && i <= Dist(h, w, |t|)
    ensures var r := LookupProbe(t, h, key, i); r.Some? && Dist(h, r.value, |t|) <= Dist(h, w, |t|)
    decreases |t| - i
  {
    if i < Dist(h, w, |t|) {
      assert t[At(h, i, |t|)].state != Empty;
      if !(t[At(h, i, |t|)].state == Occupied && t[At(h, i, |t|)].key == key) {
        LookupProbeFinds(t, h, key, i + 1, w);
      }
    }
  }

  /** In a table that satisfies the probe invariant, lookup finds exactly the nearest occurrence. */
  lemma LookupIsFirst<V>(hash: nat -> nat, t: seq<Slot<V>>, key: nat)
    requires |t| > 0 && ProbeOK(hash, t)
    ensures Lookup(hash, t, key) == None ==> forall w :: !Holds(t, w, key)
    ensures Lookup(hash, t, key).Some? ==> First(hash, t, key, Lookup(hash, t, key).value)
  {
    var h := Home(hash, key, |t|);
    forall u | Holds(t, u, key)
      ensures var r := Lookup(hash, t, key); r.Some? && Dist(h, r.value, |t|) <= Dist(h, u, |t|)
    {
      LookupProbeFinds(t, h, key, 0, u);
    }
  }

  lemma FirstIsUnique<V>(hash: nat -> nat, t: seq<Slot<V>>, key: nat, w: nat, u: nat)
    requires |t| > 0 && First(hash, t, key, w) && First(hash, t, key, u)
    ensures w == u
  {
    var h := Home(hash, key, |t|);
    assert At(h, Dist(h, w, |t|), |t|) == w && At(h, Dist(h, u, |t|), |t|) == u;
  }

  /** Two tables with the same occurrences of a key give the same answer for it. */
  lemma SameOccurrencesSameSearch<V>(hash: nat -> nat, t: seq<Slot<V>>, t': seq<Slot<V>>, key: nat)
    requires |t| == |t'| > 0 && ProbeOK(hash, t) && ProbeOK(hash, t')
    requires forall w :: Holds(t, w, key) <==> Holds(t', w, key)
    requires forall w :: Holds(t, w, key) ==> t[w].value == t'[w].value
    ensures Lookup(hash, t', key) == Lookup(hash, t, key)
    ensures Search(hash, t', key) == Search(hash, t, key)
  {
    LookupIsFirst(hash, t, key);
    LookupIsFirst(hash, t', key);
    if Lookup(hash, t, key).Some? {
      var w := Lookup(hash, t, key).value;
      assert Holds(t', w, key);
      var u := Lookup(hash, t', key).value;
      FirstIsUnique(hash, t, key, w, u);
    }
  }

  // ---------------------------------------------------------------------
  // Writing one slot
  // ---------------------------------------------------------------------

  /** Writing a non-empty slot keeps the path of every other slot full. */
  lemma WriteKeepsPaths<V>(hash: nat -> nat, t: seq<Slot<V>>, w: nat, s: Slot<V>)
    requires w < |t| && ProbeOK(hash, t) && s.state != Empty
    requires s.state == Occupied ==> PathFull(t, Home(hash, s.key, |t|), w)
    ensures ProbeOK(hash, t[w := s])
  {
    var t' := t[w := s];
    forall u | 0 <= u < |t'| && t'[u].state == Occupied
      ensures PathFull(t', Home(hash, t'[u].key, |t'|), u)
    {
      var h := Home(hash, t'[u].key, |t'|);
      assert PathFull(t, h, u);
      forall j | 0 <= j < Dist(h, u, |t'|)
        ensures t'[At(h, j, |t'|)].state != Empty
      {
        assert t[At(h, j, |t|)].state != Empty;
      }
    }
  }

  function InsertSlot<V>(hash: nat -> nat, t: seq<Slot<V>>, key: nat): (r: nat)
    requires |t| > 0
    ensures r <= |t|
  {
    InsertProbe(t, Home(hash, key, |t|), key, 0)
  }

  /** The slot write of insert, once the probe has found a place. */
  function Put<V>(hash: nat -> nat, t: seq<Slot<V>>, key: nat, value: Option<V>): (t': seq<Slot<V>>)
    requires |t| > 0 && InsertSlot(hash, t, key) < |t|
    ensures |t'| == |t|
  {
    t[At(Home(hash, key, |t|), InsertSlot(hash, t, key), |t|) := Slot(key, value, Occupied)]
  }

  lemma PutKeepsProbe<V>(hash: nat -> nat, t: seq<Slot<V>>, key: nat, value: Option<V>)
    requires |t| > 0 && ProbeOK(hash, t) && key != 0 && Clean(t)
    requires InsertSlot(hash, t, key) < |t|
    ensures ProbeOK(hash, Put(hash, t, key, value)) && Clean(Put(hash, t, key, value))
  {
    var h := Home(hash, key, |t|);
    var r := InsertSlot(hash, t, key);
    DistAt(h, r, |t|);
    WriteKeepsPaths(hash, t, At(h, r, |t|), Slot(key, value, Occupied));
  }

  lemma PutIsFirst<V>(hash: nat -> nat, t: seq<Slot<V>>, key: nat, value: Option<V>)
    requires |t| > 0 && InsertSlot(hash, t, key) < |t|
    ensures First(hash, Put(hash, t, key, value), key, At(Home(hash, key, |t|), InsertSlot(hash, t, key), |t|))
  {
    var h := Home(hash, key, |t|);
    var r := InsertSlot(hash, t, key);
    var w := At(h, r, |t|);
    var t' := Put(hash, t, key, value);
    DistAt(h, r, |t|);
    forall u | Holds(t', u, key)
      ensures Dist(h, w, |t|) <= Dist(h, u, |t|)
    {
      assert At(h, Dist(h, u, |t|), |t|) == u;
      assert u == w || r <= Dist(h, u, |t|);
    }
  }

  /**
    From any table that satisfies the probe invariant, even one that holds
    duplicate keys and tombstones, writing (key, value) makes the search of key
    give value and leaves the search of every other key unchanged.
   */
  lemma PutThenSearch<V>(hash: nat -> nat, t: seq<Slot<V>>, key: nat, value: Option<V>, other: nat)
    requires |t| > 0 && ProbeOK(hash, t) && key != 0 && Clean(t)
    requires InsertSlot(hash, t, key) < |t|
    ensures Search(hash, Put(hash, t, key, value), key) == value
    ensures other != key ==> Search(hash, Put(hash, t, key, value), other) == Search(hash, t, other)
  {
    var t' := Put(hash, t, key, value);
    PutKeepsProbe(hash, t, key, value);
    PutIsFirst(hash, t, key, value);
    LookupIsFirst(hash, t', key);
    var w := At(Home(hash, key, |t|), InsertSlot(hash, t, key), |t|);
    FirstIsUnique(hash, t', key, w, Lookup(hash, t', key).value);
    if other != key {
      SameOccurrencesSameSearch(hash, t, t', other);
    }
  }

  lemma DistAt(h: nat, i: nat, n: nat)
    requires h < n && i < n
    ensures Dist(h, At(h, i, n), n) == i
  {
  }

  // ---------------------------------------------------------------------
  // Counting slots
  // ---------------------------------------------------------------------

  ghost function OccupiedSlots<V>(t: seq<Slot<V>>): set<int> {
    set w | 0 <= w < |t| && t[w].state == Occupied
  }

  ghost function LiveSlots<V>(t: seq<Slot<V>>): set<int> {
    set w | 0 <= w < |t| && t[w].state == Occupied && t[w].key != 0
  }

  ghost function Indices(n: nat): (s: set<int>)
    ensures forall w :: w in s <==> 0 <= w < n
    ensures |s| == n
  {
    if n == 0 then {} else Indices(n - 1) + {n - 1}
  }

  lemma SubsetCount(a: set<int>, b: set<int>)
    requires a <= b
    ensures |a| <= |b|
    ensures a != b ==> |a| < |b|
  {
    assert b == a + (b - a);
    if a != b {
      assert b - a != {};
    }
  }

  /** A table that is not full of occupied slots gives every insert a place. */
  lemma RoomForInsert<V>(hash: nat -> nat, t: seq<Slot<V>>, key: nat)
    requires |t| > 0 && |OccupiedSlots(t)| < |t|
    ensures InsertSlot(hash, t, key) < |t|
  {
    if InsertSlot(hash, t, key) == |t| {
      var h := Home(hash, key, |t|);
      forall w | w in Indices(|t|)
        ensures w in OccupiedSlots(t)
      {
        assert t[At(h, Dist(h, w, |t|), |t|)].state == Occupied;
      }
      SubsetCount(Indices(|t|), OccupiedSlots(t));
    }
  }

  lemma CountAfterPut<V>(hash: nat -> nat, t: seq<Slot<V>>, key: nat, value: Option<V>)
    requires |t| > 0 && key != 0 && InsertSlot(hash, t, key) < |t|
    ensures |OccupiedSlots(Put(hash, t, key, value))| <= |OccupiedSlots(t)| + 1
    ensures |LiveSlots(Put(hash, t, key, value))| <= |LiveSlots(t)| + 1
  {
    var w := At(Home(hash, key, |t|), InsertSlot(hash, t, key), |t|);
    var t' := Put(hash, t, key, value);
    assert OccupiedSlots(t') == OccupiedSlots(t) + {w};
    assert LiveSlots(t') == LiveSlots(t) + {w};
  }

  lemma CountAfterErase<V>(t: seq<Slot<V>>, w: nat)
    requires w < |t| && t[w].state == Occupied && t[w].key != 0
    ensures |OccupiedSlots(t[w := Slot(0, None, Removed)])| == |OccupiedSlots(t)| - 1
    ensures |LiveSlots(t[w := Slot(0, None, Removed)])| == |LiveSlots(t)| - 1
  {
    var t' := t[w := Slot(0, None, Removed)];
    assert OccupiedSlots(t) == OccupiedSlots(t') + {w};
    assert LiveSlots(t) == LiveSlots(t') + {w};
  }

  // ---------------------------------------------------------------------
  // The values a table owns
  // ---------------------------------------------------------------------

  ghost function One<V>(v: Option<V>): multiset<V> {
    match v
    case Some(x) => multiset{x}
    case None => multiset{}
  }

  /** The multiset of the non-NULL values held in the slots. */
  ghost function Owned<V>(t: seq<Slot<V>>): multiset<V> {
    if t == [] then multiset{} else Owned(t[..|t| - 1]) + One(t[|t| - 1].value)
  }

  lemma AddToBoth<V>(a: multiset<V>, x: multiset<V>, b: multiset<V>, y: multiset<V>, z: multiset<V>)
    requires a + x == b + y
    ensures (a + z) + x == (b + z) + y
  {
    assert (a + z) + x == (a + x) + z;
    assert (b + z) + y == (b + y) + z;
  }

  lemma {:induction false} OwnedAfterWrite<V>(t: seq<Slot<V>>, w: nat, s: Slot<V>)
    requires w < |t|
    ensures Owned(t[w := s]) + One(t[w].value) == Owned(t) + One(s.value)
  {
    var n := |t| - 1;
    if w == n {
      assert t[w := s][..n] == t[..n];
    } else {
      OwnedAfterWrite(t[..n], w, s);
      assert t[w := s][..n] == t[..n][w := s];
      AddToBoth(Owned(t[..n][w := s]), One(t[w].value), Owned(t[..n]), One(s.value), One(t[n].value));
    }
  }

}
