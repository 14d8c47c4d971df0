/**
  Doubling the table.  Every old slot is entered again as OCCUPIED, including
  the empty and removed ones, whose key is NULL: a rehash fills half of the new
  table whatever the number of keys.
 */
module Rehash {
  import opened Wrappers
  import opened ProbeTable

  ghost predicate EmptyOrOccupied<V>(t: seq<Slot<V>>) {
    forall w :: 0 <= w < |t| ==> t[w] == EmptySlot() || t[w].state == Occupied
  }

  lemma RoomForEntry<V>(t: seq<Slot<V>>, h: nat)
    requires h < |t| && |OccupiedSlots(t)| < |t| && EmptyOrOccupied(t)
    ensures EmptyProbe(t, h, 0) < |t|
  {
    if EmptyProbe(t, h, 0) == |t| {
      forall w | w in Indices(|t|)
        ensures w in OccupiedSlots(t)
      {
        assert t[At(h, Dist(h, w, |t|), |t|)].state != Empty;
      }
      SubsetCount(Indices(|t|), OccupiedSlots(t));
    }
  }

  /** The new table after the slots old[..j] have been entered into it. */
  function Entered<V>(hash: nat -> nat, old_slots: seq<Slot<V>>, n: nat, j: nat): (t: seq<Slot<V>>)
    requires j <= |old_slots| < n
    ensures |t| == n && EmptyOrOccupied(t) && |OccupiedSlots(t)| == j
  {
    if j == 0 then
      var t: seq<Slot<V>> := seq(n, _ => EmptySlot());
      assert OccupiedSlots(t) == {};
      t
    else
      var t := Entered(hash, old_slots, n, j - 1);
      var s := old_slots[j - 1];
      RoomForEntry(t, Home(hash, s.key, n));
      var w := At(Home(hash, s.key, n), EmptyProbe(t, Home(hash, s.key, n), 0), n);
      assert OccupiedSlots(t[w := Slot(s.key, s.value, Occupied)]) == OccupiedSlots(t) + {w};
      t[w := Slot(s.key, s.value, Occupied)]
  }

  /** The slot that receives old[j]. */
  function EntrySlot<V>(hash: nat -> nat, old_slots: seq<Slot<V>>, n: nat, j: nat): (w: nat)
    requires j < |old_slots| < n
    ensures w < n && Entered(hash, old_slots, n, j)[w] == EmptySlot()
  {
    var t := Entered(hash, old_slots, n, j);
    var h := Home(hash, old_slots[j].key, n);
    RoomForEntry(t, h);
    At(h, EmptyProbe(t, h, 0), n)
  }

  lemma EnteredStep<V>(hash: nat -> nat, old_slots: seq<Slot<V>>, n: nat, j: nat)
    requires j < |old_slots| < n
    ensures Entered(hash, old_slots, n, j + 1)
         == Entered(hash, old_slots, n, j)[EntrySlot(hash, old_slots, n, j)
              := Slot(old_slots[j].key, old_slots[j].value, Occupied)]
  {
  }

  function Doubled<V>(hash: nat -> nat, t: seq<Slot<V>>): (t': seq<Slot<V>>)
    requires |t| > 0
    ensures |t'| == 2 * |t| && |OccupiedSlots(t')| == |t|
  {
    Entered(hash, t, 2 * |t|, |t|)
  }

  // ---------------------------------------------------------------------
  // What a rehash keeps
  // ---------------------------------------------------------------------

  lemma {:induction false} EnteredProbeOK<V>(hash: nat -> nat, old_slots: seq<Slot<V>>, n: nat, j: nat)
    requires j <= |old_slots| < n
    ensures ProbeOK(hash, Entered(hash, old_slots, n, j))
  {
    if j > 0 {
      EnteredProbeOK(hash, old_slots, n, j - 1);
      EnteredStep(hash, old_slots, n, j - 1);
      var t := Entered(hash, old_slots, n, j - 1);
      var s := old_slots[j - 1];
      var h := Home(hash, s.key, n);
      RoomForEntry(t, h);
      DistAt(h, EmptyProbe(t, h, 0), n);
      WriteKeepsPaths(hash, t, EntrySlot(hash, old_slots, n, j - 1), Slot(s.key, s.value, Occupied));
    }
  }

  lemma {:induction false} EnteredClean<V>(hash: nat -> nat, old_slots: seq<Slot<V>>, n: nat, j: nat)
    requires j <= |old_slots| < n && Clean(old_slots)
    ensures Clean(Entered(hash, old_slots, n, j))
  {
    if j > 0 {
      EnteredClean(hash, old_slots, n, j - 1);
      EnteredStep(hash, old_slots, n, j - 1);
    }
  }

  lemma {:induction false} EnteredOwned<V>(hash: nat -> nat, old_slots: seq<Slot<V>>, n: nat, j: nat)
    requires j <= |old_slots| < n
    ensures Owned(Entered(hash, old_slots, n, j)) == Owned(old_slots[..j])
  {
    if j == 0 {
      NothingOwned(Entered(hash, old_slots, n, 0));
    } else {
      var i: nat := j - 1;
      EnteredOwned(hash, old_slots, n, i);
      EnteredStep(hash, old_slots, n, i);
      OwnedAfterEntry(Entered(hash, old_slots, n, i), EntrySlot(hash, old_slots, n, i), old_slots, i);
      assert old_slots[..i + 1] == old_slots[..j];
    }
  }

  lemma OwnedAfterEntry<V>(t: seq<Slot<V>>, e: nat, from: seq<Slot<V>>, j: nat)
    requires e < |t| && t[e] == EmptySlot() && j < |from|
    requires Owned(t) == Owned(from[..j])
    ensures Owned(t[e := Slot(from[j].key, from[j].value, Occupied)]) == Owned(from[..j + 1])
  {
    OwnedAfterWrite(t, e, Slot(from[j].key, from[j].value, Occupied));
    OwnedOneMore(from, j);
  }

  lemma OwnedOneMore<V>(t: seq<Slot<V>>, j: nat)
    requires j < |t|
    ensures Owned(t[..j + 1]) == Owned(t[..j]) + One(t[j].value)
  {
    assert t[..j + 1][..j] == t[..j];
  }

  lemma {:induction false} NothingOwned<V>(t: seq<Slot<V>>)
    requires forall w :: 0 <= w < |t| ==> t[w] == EmptySlot()
    ensures Owned(t) == multiset{}
  {
    if t != [] {
      NothingOwned(t[..|t| - 1]);
    }
  }

  /** A slot with a non-NULL key, at whatever position, carrying the given value. */
  ghost predicate Maps<V>(t: seq<Slot<V>>, key: nat, value: Option<V>) {
    exists w :: Holds(t, w, key) && t[w].value == value
  }

  lemma MapsAfterEntry<V>(t: seq<Slot<V>>, e: nat, s: Slot<V>, key: nat, value: Option<V>)
    requires e < |t| && t[e] == EmptySlot() && key != 0
    ensures Maps(t[e := Slot(s.key, s.value, Occupied)], key, value)
       <==> Maps(t, key, value) || (s.key == key && s.value == value)
  {
    var t' := t[e := Slot(s.key, s.value, Occupied)];
    if s.key == key && s.value == value {
      assert Holds(t', e, key);
    }
    if Maps(t, key, value) {
      var w :| Holds(t, w, key) && t[w].value == value;
      assert Holds(t', w, key);
    }
    if Maps(t', key, value) {
      var w :| Holds(t', w, key) && t'[w].value == value;
      assert w != e ==> Holds(t, w, key);
    }
  }

  lemma MapsOneMore<V>(t: seq<Slot<V>>, j: nat, key: nat, value: Option<V>)
    requires j < |t| && Clean(t) && key != 0
    ensures Maps(t[..j + 1], key, value)
       <==> Maps(t[..j], key, value) || (t[j].key == key && t[j].value == value)
  {
    if t[j].key == key && t[j].value == value {
      assert Holds(t[..j + 1], j, key);
    }
    if Maps(t[..j], key, value) {
      var w :| Holds(t[..j], w, key) && t[..j][w].value == value;
      assert Holds(t[..j + 1], w, key);
    }
    if Maps(t[..j + 1], key, value) {
      var w :| Holds(t[..j + 1], w, key) && t[..j + 1][w].value == value;
      assert w != j ==> Holds(t[..j], w, key);
    }
  }

  /** The new table holds a non-NULL key with a value just when some entered slot did. */
  lemma {:induction false} EnteredMaps<V>(hash: nat -> nat, old_slots: seq<Slot<V>>, n: nat, j: nat, key: nat, value: Option<V>)
    requires j <= |old_slots| < n && Clean(old_slots) && key != 0
    ensures Maps(Entered(hash, old_slots, n, j), key, value) <==> Maps(old_slots[..j], key, value)
  {
    if j == 0 {
      assert forall w :: !Holds(Entered(hash, old_slots, n, 0), w, key);
    } else {
      EnteredMaps(hash, old_slots, n, j - 1, key, value);
      EnteredStep(hash, old_slots, n, j - 1);
      MapsNext(Entered(hash, old_slots, n, j - 1), EntrySlot(hash, old_slots, n, j - 1), old_slots, j - 1, key, value);
    }
  }

  lemma MapsNext<V>(t: seq<Slot<V>>, e: nat, from: seq<Slot<V>>, j: nat, key: nat, value: Option<V>)
    requires e < |t| && t[e] == EmptySlot() && j < |from| && Clean(from) && key != 0
    requires Maps(t, key, value) <==> Maps(from[..j], key, value)
    ensures Maps(t[e := Slot(from[j].key, from[j].value, Occupied)], key, value) <==> Maps(from[..j + 1], key, value)
  {
    MapsAfterEntry(t, e, from[j], key, value);
    MapsOneMore(from, j, key, value);
  }

  /** No non-NULL key occupies two slots. */
  ghost predicate Unique<V>(t: seq<Slot<V>>) {
    forall w, u, key :: key != 0 && Holds(t, w, key) && Holds(t, u, key) ==> w == u
  }

  lemma {:induction false} EnteredUnique<V>(hash: nat -> nat, old_slots: seq<Slot<V>>, n: nat, j: nat)
    requires j <= |old_slots| < n && Clean(old_slots) && Unique(old_slots)
    ensures Unique(Entered(hash, old_slots, n, j))
  {
    if j > 0 {
      EnteredUnique(hash, old_slots, n, j - 1);
      EnteredStep(hash, old_slots, n, j - 1);
      var t0 := Entered(hash, old_slots, n, j - 1);
      var t := Entered(hash, old_slots, n, j);
      var e := EntrySlot(hash, old_slots, n, j - 1);
      var k := old_slots[j - 1].key;
      forall w | k != 0 && Holds(t0, w, k)
        ensures false
      {
        EnteredMaps(hash, old_slots, n, j - 1, k, t0[w].value);
        var u :| Holds(old_slots[..j - 1], u, k);
        assert Holds(old_slots, u, k) && Holds(old_slots, j - 1, k);
      }
      forall w, u, key | key != 0 && Holds(t, w, key) && Holds(t, u, key)
        ensures w == u
      {
        assert w != e ==> Holds(t0, w, key);
        assert u != e ==> Holds(t0, u, key);
      }
    }
  }

  /** Without duplicate keys, a rehash changes the answer of no search. */
  lemma DoubledSearch<V>(hash: nat -> nat, t: seq<Slot<V>>, key: nat)
    requires |t| > 0 && ProbeOK(hash, t) && Clean(t) && Unique(t)
    ensures Search(hash, Doubled(hash, t), key) == Search(hash, t, key)
  {
    var t' := Doubled(hash, t);
    EnteredProbeOK(hash, t, 2 * |t|, |t|);
    EnteredClean(hash, t, 2 * |t|, |t|);
    EnteredUnique(hash, t, 2 * |t|, |t|);
    LookupIsFirst(hash, t, key);
    LookupIsFirst(hash, t', key);
    assert t[..|t|] == t;
    if key != 0 {
      if Lookup(hash, t, key).Some? {
        var w := Lookup(hash, t, key).value;
        EnteredMaps(hash, t, 2 * |t|, |t|, key, t[w].value);
        assert Holds(t, w, key);
        var u :| Holds(t', u, key) && t'[u].value == t[w].value;
        assert Holds(t', Lookup(hash, t', key).value, key);
      } else if Lookup(hash, t', key).Some? {
        var u := Lookup(hash, t', key).value;
        EnteredMaps(hash, t, 2 * |t|, |t|, key, t'[u].value);
      }
    }
  }

}
