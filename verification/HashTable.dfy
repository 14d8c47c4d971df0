/**
  The hash table object of librpc/jrpc/hash.c, for integer and pointer keys:
  the slot array, its size and the key counter, updated in place.
 */
module HashTable {
  import opened Wrappers
  import opened ProbeTable
  import opened Rehash
  import opened TableRuns

  class HashTable<V(0)> {
    const hash: nat -> nat
    var size: nat
    var table: array<Slot<V>>
    var keyCount: int
    // the values passed to the value destructor, in order
    var freed: seq<V>

    ghost function Abs(): State<V>
      reads this, table
    {
      State(table[..], keyCount, freed)
    }

    ghost predicate Valid()
      reads this, table
    {
      size == table.Length && Inv(hash, Abs())
    }

    constructor (hash: nat -> nat)
      ensures Valid() && fresh(table)
      ensures this.hash == hash
      ensures Abs() == NewState()
    {
      this.hash := hash;
      size := DEFAULT_SIZE;
      table := new Slot<V>[DEFAULT_SIZE](_ => EmptySlot());
      keyCount := 0;
      freed := [];
      new;
      assert table[..] == NewState<V>().slots;
      NewInv<V>(hash);
    }

    /** The probe loop of rehash. */
    method FindEmpty(key: nat) returns (w: nat)
      requires size == table.Length > 0
      requires EmptyProbe(table[..], Home(hash, key, size), 0) < size
      ensures w == At(Home(hash, key, size), EmptyProbe(table[..], Home(hash, key, size), 0), size)
    {
      ghost var t := table[..];
      var h := hash(key) % size;
      var i := 0;
      w := h;
      while i < size
        invariant 0 <= i <= EmptyProbe(t, h, 0)
        invariant EmptyProbe(t, h, i) == EmptyProbe(t, h, 0)
      {
        AtIsModular(h, i, size);
        w := (h + i) % size;
        if table[w].state == Empty {
          break;
        }
        i := i + 1;
      }
      AtIsModular(h, i, size);
    }

    method Rehash()
      requires size == table.Length > 0
      modifies this`size, this`table
      ensures fresh(table) && size == table.Length
      ensures table[..] == Doubled(hash, old(table[..]))
    {
      var oldSize := size;
      var oldTable := table;
      ghost var from := table[..];
      size := 2 * oldSize;
      table := new Slot<V>[size](_ => EmptySlot());
      assert table[..] == Entered(hash, from, size, 0);
      var j := 0;
      while j < oldSize
        invariant 0 <= j <= oldSize && oldSize == oldTable.Length == |from|
        invariant fresh(table) && size == table.Length == 2 * oldSize && table != oldTable
        invariant oldTable[..] == from
        invariant table[..] == Entered(hash, from, size, j)
      {
        RoomForEntry(table[..], Home(hash, from[j].key, size));
        EnteredStep(hash, from, size, j);
        var w := FindEmpty(oldTable[j].key);
        table[w] := Slot(oldTable[j].key, oldTable[j].value, Occupied);
        j := j + 1;
      }
    }

    method CheckOverflow()
      requires Valid()
      modifies this`size, this`table
      ensures table == old(table) || fresh(table)
      ensures Valid() && Abs() == TableRuns.CheckOverflow(hash, old(Abs()))
    {
      CheckOverflowInv(hash, Abs());
      if 23 * keyCount > 16 * size {
        Rehash();
      }
    }

    /** The probe loop of insert; i is the number of steps made. */
    method FindInsertSlot(key: nat) returns (i: nat, w: nat)
      requires size == table.Length > 0
      requires InsertSlot(hash, table[..], key) < size
      ensures i == InsertSlot(hash, table[..], key)
      ensures w == At(Home(hash, key, size), i, size)
    {
      ghost var t := table[..];
      var h := hash(key) % size;
      i := 0;
      w := h;
      while i < size
        invariant 0 <= i <= InsertSlot(hash, t, key)
        invariant InsertProbe(t, h, key, i) == InsertSlot(hash, t, key)
      {
        AtIsModular(h, i, size);
        w := (h + i) % size;
        if table[w].state != Occupied {
          break;
        }
        if table[w].key == key {
          break;
        }
        i := i + 1;
      }
      AtIsModular(h, i, size);
    }

    method Insert(key: nat, value: Option<V>)
      requires Valid() && key != 0
      modifies this, table
      ensures table == old(table) || fresh(table)
      ensures Valid() && Abs() == TableRuns.Insert(hash, old(Abs()), key, value)
    {
      RoomAfterCheck(hash, Abs(), key);
      InsertInv(hash, Abs(), key, value);
      CheckOverflow();
      var i, w := FindInsertSlot(key);
      // the assertion of hash_table_insert
      assert i != size;
      Store(w, Slot(key, value, Occupied), keyCount + 1);
    }

    /** Releases the value of slot w and overwrites the slot. */
    method Store(w: nat, s: Slot<V>, count: int)
      requires w < table.Length
      modifies this`keyCount, this`freed, table
      ensures Abs() == State(old(table[..])[w := s], count, old(freed) + Released(old(table[w].value)))
    {
      if table[w].value.Some? {
        freed := freed + [table[w].value.value];
      }
      table[w] := s;
      keyCount := count;
    }

    method LookupEntry(key: nat) returns (entry: Option<nat>)
      requires Valid()
      ensures entry == Lookup(hash, table[..], key)
      ensures entry.Some? ==> entry.value < table.Length
    {
      var h := hash(key) % size;
      var i := 0;
      while i < size
        invariant 0 <= i <= size
        invariant LookupProbe(table[..], h, key, i) == Lookup(hash, table[..], key)
      {
        AtIsModular(h, i, size);
        var w := (h + i) % size;
        if table[w].state == Empty {
          return None;
        }
        if table[w].state != Removed && table[w].key == key {
          return Some(w);
        }
        i := i + 1;
      }
      return None;
    }

    method Search(key: nat) returns (value: Option<V>)
      requires Valid()
      ensures value == ProbeTable.Search(hash, table[..], key)
    {
      var p := LookupEntry(key);
      match p
      case Some(w) => value := table[w].value;
      case None => value := None;
    }

    method Remove(key: nat) returns (was: bool)
      requires Valid() && key != 0
      modifies this`keyCount, this`freed, table
      ensures table == old(table)
      ensures Valid() && (Abs(), was) == TableRuns.Remove(hash, old(Abs()), key)
    {
      RemoveInv(hash, Abs(), key);
      var p := LookupEntry(key);
      if p == None {
        return false;
      }
      Store(p.value, Slot(0, None, Removed), keyCount - 1);
      return true;
    }

    /** Frees the table: every value still owned goes to the value destructor. */
    method Free() returns (all: seq<V>)
      requires Valid()
      ensures multiset(all) == Ledger(Abs())
    {
      ghost var t := table[..];
      assert Clean(t);
      all := freed;
      var i := 0;
      while i < size
        invariant 0 <= i <= size
        invariant multiset(all) == multiset(freed) + Owned(t[..i])
      {
        FreeOneMore(all, freed, t, i);
        if table[i].state == Occupied && table[i].value.Some? {
          all := all + [table[i].value.value];
        }
        i := i + 1;
      }
      assert t[..size] == t;
    }
  }

}
