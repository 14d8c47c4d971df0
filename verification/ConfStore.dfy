/**
  The configuration store of libcore/conf.c: sections in order of first use,
  keys in order of addition, and the definitions the parser delivers to it.
 */
module ConfStore {
  import opened Wrappers
  import opened ConfScan
  import opened ConfGrammar

  datatype Value =
    | VVoid
    | VInt(i: int)
    | VString(s: string)
    | VList(elements: seq<string>)

  datatype KeyEntry = KeyEntry(key: string, value: Value)

  datatype SectionEntry = SectionEntry(name: string, keys: seq<KeyEntry>)

  datatype Definition = Definition(section: string, key: string, value: Value)

  const INT_MIN := -0x8000_0000
  const INT_MAX := 0x7fff_ffff
  const LONG_MAX := 0x7fff_ffff_ffff_ffff

  // ---------------------------------------------------------------------
  // From trees to definitions
  // ---------------------------------------------------------------------

  /** What strdup copies: the characters before the first NUL. */
  function CString(s: string): (r: string)
    ensures |r| <= |s|
    ensures '\0' !in s ==> r == s
  {
    if s == "" || s[0] == '\0' then ""
    else
      var r := CString(s[1..]);
      assert s == [s[0]] + s[1..];
      [s[0]] + r
  }

  function Digit(c: char): nat
    requires IsDigit(c)
  {
    c as int - '0' as int
  }

  function DigitsValue(s: string): (n: nat)
    requires forall i :: 0 <= i < |s| ==> IsDigit(s[i])
  {
    if s == "" then 0
    else 10 * DigitsValue(s[..|s| - 1]) + Digit(s[|s| - 1])
  }

  /** Conversion to a 32-bit int of a long, keeping the low bits. */
  function ToInt(n: nat): (i: int)
    ensures INT_MIN <= i <= INT_MAX
    ensures n <= INT_MAX ==> i == n
  {
    var low := n % 0x1_0000_0000;
    if low <= INT_MAX then low else low - 0x1_0000_0000
  }

  /** atoi on a string of digits, as strtol with saturation followed by truncation. */
  function Atoi(s: string): (i: int)
    ensures INT_MIN <= i <= INT_MAX
  {
    if forall i :: 0 <= i < |s| ==> IsDigit(s[i]) then
      var n := DigitsValue(s);
      ToInt(if n > LONG_MAX then LONG_MAX else n)
    else 0
  }

  function Strings(more: seq<(Separator, string)>): (r: seq<string>)
    ensures |r| == |more|
    ensures forall i :: 0 <= i < |r| ==> r[i] == CString(more[i].1)
  {
    if more == [] then [] else [CString(more[0].1)] + Strings(more[1..])
  }

  function ValueOf(v: ValueTree): Value {
    match v
    case IntTree(d) => VInt(Atoi(d))
    case StringTree(first, more) =>
      if more == [] then VString(CString(first)) else VList([CString(first)] + Strings(more))
  }

  function DeliveredIn(section: string, ds: seq<DefinitionTree>): seq<Definition> {
    if ds == [] then []
    else [Definition(CString(section), CString(ds[0].key), ValueOf(ds[0].value))] + DeliveredIn(section, ds[1..])
  }

  /** The definitions delivered to the callback, in order. */
  function Delivered(ss: seq<SectionTree>): seq<Definition> {
    if ss == [] then [] else DeliveredIn(ss[0].name, ss[0].definitions) + Delivered(ss[1..])
  }

  lemma {:induction false} ConsDefinition(section: string, d: DefinitionTree, r: seq<DefinitionTree>)
    ensures DeliveredIn(section, [d] + r)
         == [Definition(CString(section), CString(d.key), ValueOf(d.value))] + DeliveredIn(section, r)
  {
    assert ([d] + r)[1..] == r;
  }

  lemma {:induction false} ConsSection(s: SectionTree, r: seq<SectionTree>)
    ensures Delivered([s] + r) == DeliveredIn(s.name, s.definitions) + Delivered(r)
  {
    assert ([s] + r)[1..] == r;
  }

  // ---------------------------------------------------------------------
  // Searching and adding
  // ---------------------------------------------------------------------

  function SectionIndex(st: seq<SectionEntry>, name: string): (r: nat)
    ensures r <= |st|
    ensures forall i :: 0 <= i < r ==> st[i].name != name
    ensures r < |st| ==> st[r].name == name
  {
    IndexOf(st, (s: SectionEntry) => s.name == name)
  }

  function KeyIndex(keys: seq<KeyEntry>, key: string): (r: nat)
    ensures r <= |keys|
    ensures forall i :: 0 <= i < r ==> keys[i].key != key
    ensures r < |keys| ==> keys[r].key == key
  {
    IndexOf(keys, (k: KeyEntry) => k.key == key)
  }

  function Lookup(st: seq<SectionEntry>, section: string, key: string): Option<Value> {
    var i := SectionIndex(st, section);
    if i == |st| then None
    else
      var j := KeyIndex(st[i].keys, key);
      if j == |st[i].keys| then None else Some(st[i].keys[j].value)
  }

  /** Adds a definition; a key that the section already holds is refused. */
  function Add(st: seq<SectionEntry>, d: Definition): (r: (seq<SectionEntry>, bool)) {
    var i := SectionIndex(st, d.section);
    if i == |st| then (st + [SectionEntry(d.section, [KeyEntry(d.key, d.value)])], true)
    else if KeyIndex(st[i].keys, d.key) < |st[i].keys| then (st, false)
    else (st[i := SectionEntry(d.section, st[i].keys + [KeyEntry(d.key, d.value)])], true)
  }

  /** Adds definitions until one is refused; also the number added. */
  function AddAll(st: seq<SectionEntry>, ds: seq<Definition>): (r: (seq<SectionEntry>, nat))
    ensures r.1 <= |ds|
    decreases |ds|
  {
    if ds == [] then (st, 0)
    else
      var a := Add(st, ds[0]);
      if !a.1 then (st, 0)
      else
        var r := AddAll(a.0, ds[1..]);
        (r.0, r.1 + 1)
  }

  lemma SectionIndexAt(st: seq<SectionEntry>, name: string, i: nat)
    requires i < |st| && st[i].name == name && forall j :: 0 <= j < i ==> st[j].name != name
    ensures SectionIndex(st, name) == i
  {
  }

  lemma KeyIndexAt(keys: seq<KeyEntry>, key: string, i: nat)
    requires i < |keys| && keys[i].key == key && forall j :: 0 <= j < i ==> keys[j].key != key
    ensures KeyIndex(keys, key) == i
  {
  }

  /** Add is refused exactly for a key that is present; otherwise it defines that key and no other. */
  lemma AddMeaning(st: seq<SectionEntry>, d: Definition, section: string, key: string)
    ensures Add(st, d).1 <==> Lookup(st, d.section, d.key) == None
    ensures !Add(st, d).1 ==> Add(st, d).0 == st
    ensures Add(st, d).1 ==>
              Lookup(Add(st, d).0, section, key)
              == (if section == d.section && key == d.key then Some(d.value) else Lookup(st, section, key))
  {
    var i := SectionIndex(st, d.section);
    var st' := Add(st, d).0;
    if Add(st, d).1 {
      if section == d.section {
        SectionIndexAt(st', section, i);
        if i < |st| {
          var keys := st[i].keys;
          var j := KeyIndex(keys, key);
          if j < |keys| {
            KeyIndexAt(st'[i].keys, key, j);
          } else if key == d.key {
            KeyIndexAt(st'[i].keys, key, |keys|);
          }
        }
      } else {
        var j := SectionIndex(st, section);
        if j < |st| {
          SectionIndexAt(st', section, j);
        } else {
          assert forall k :: 0 <= k < |st'| ==> st'[k].name != section;
        }
      }
    }
  }

  /** The value given to (section, key) by the first definition that names it. */
  function FirstDefinition(ds: seq<Definition>, section: string, key: string): Option<Value> {
    if ds == [] then None
    else if ds[0].section == section && ds[0].key == key then Some(ds[0].value)
    else FirstDefinition(ds[1..], section, key)
  }

  /**
    After adding definitions, exactly those before the first refused one are in
    the store, beside what it held; the refused one names a key that is there.
   */
  lemma {:induction false} AddAllMeaning(st: seq<SectionEntry>, ds: seq<Definition>, section: string, key: string)
    ensures var r := AddAll(st, ds);
            && (r.1 < |ds| ==> Lookup(r.0, ds[r.1].section, ds[r.1].key).Some?)
            && Lookup(r.0, section, key)
               == (if Lookup(st, section, key).Some? then Lookup(st, section, key)
                   else FirstDefinition(ds[..r.1], section, key))
    decreases |ds|
  {
    if ds != [] {
      AddMeaning(st, ds[0], section, key);
      if Add(st, ds[0]).1 {
        var r := AddAll(st, ds);
        AddAllMeaning(Add(st, ds[0]).0, ds[1..], section, key);
        assert ds[..r.1][1..] == ds[1..][..r.1 - 1];
      }
    }
  }

  /** Definitions already present survive every further addition. */
  lemma AddAllKeeps(st: seq<SectionEntry>, ds: seq<Definition>, section: string, key: string)
    requires Lookup(st, section, key).Some?
    ensures Lookup(AddAll(st, ds).0, section, key) == Lookup(st, section, key)
  {
    AddAllMeaning(st, ds, section, key);
  }

  lemma {:induction false} AddAllSplit(st: seq<SectionEntry>, a: seq<Definition>, b: seq<Definition>)
    ensures AddAll(st, a).1 == |a| ==>
              AddAll(st, a + b) == var r := AddAll(AddAll(st, a).0, b); (r.0, |a| + r.1)
    ensures AddAll(st, a).1 < |a| ==> AddAll(st, a + b) == AddAll(st, a)
    decreases |a|
  {
    if a == [] {
      assert a + b == b;
    } else {
      assert (a + b)[1..] == a[1..] + b;
      if Add(st, a[0]).1 {
        AddAllSplit(Add(st, a[0]).0, a[1..], b);
      }
    }
  }

  // ---------------------------------------------------------------------
  // Stores as sequences of definitions
  // ---------------------------------------------------------------------

  function DefinitionsIn(section: string, keys: seq<KeyEntry>): (r: seq<Definition>)
    ensures |r| == |keys|
    ensures forall i :: 0 <= i < |r| ==> r[i] == Definition(section, keys[i].key, keys[i].value)
  {
    if keys == [] then []
    else [Definition(section, keys[0].key, keys[0].value)] + DefinitionsIn(section, keys[1..])
  }

  function Definitions(st: seq<SectionEntry>): seq<Definition> {
    if st == [] then [] else DefinitionsIn(st[0].name, st[0].keys) + Definitions(st[1..])
  }

  /** What additions to an empty store always give: distinct section names, and in each distinct keys, at least one. */
  ghost predicate Structured(st: seq<SectionEntry>) {
    && (forall i, j :: 0 <= i < j < |st| ==> st[i].name != st[j].name)
    && (forall i :: 0 <= i < |st| ==> st[i].keys != [])
    && (forall i :: 0 <= i < |st| ==> DistinctKeys(st[i].keys))
  }

  ghost predicate DistinctKeys(keys: seq<KeyEntry>) {
    forall i, j :: 0 <= i < j < |keys| ==> keys[i].key != keys[j].key
  }

  lemma AddStructured(st: seq<SectionEntry>, d: Definition)
    requires Structured(st)
    ensures Structured(Add(st, d).0)
  {
  }

  lemma {:induction false} AddAllStructured(st: seq<SectionEntry>, ds: seq<Definition>)
    requires Structured(st)
    ensures Structured(AddAll(st, ds).0)
    decreases |ds|
  {
    if ds != [] {
      AddStructured(st, ds[0]);
      if Add(st, ds[0]).1 {
        AddAllStructured(Add(st, ds[0]).0, ds[1..]);
      }
    }
  }

  /** Adding the last keys of the last section one by one. */
  lemma {:induction false} AddKeys(st: seq<SectionEntry>, name: string, done: seq<KeyEntry>, todo: seq<KeyEntry>)
    requires forall i :: 0 <= i < |st| ==> st[i].name != name
    requires done != [] && DistinctKeys(done + todo)
    ensures AddAll(st + [SectionEntry(name, done)], DefinitionsIn(name, todo))
         == (st + [SectionEntry(name, done + todo)], |todo|)
    decreases |todo|
  {
    var cur := st + [SectionEntry(name, done)];
    SectionIndexAt(cur, name, |st|);
    if todo == [] {
      assert done + todo == done;
    } else {
      var k := todo[0];
      forall i | 0 <= i < |done|
        ensures done[i].key != k.key
      {
        assert (done + todo)[i].key != (done + todo)[|done|].key;
      }
      var d := Definition(name, k.key, k.value);
      assert KeyIndex(done, k.key) == |done|;
      assert Add(cur, d).0 == st + [SectionEntry(name, done + [k])];
      assert (done + [k]) + todo[1..] == done + todo;
      AddKeys(st, name, done + [k], todo[1..]);
      assert DefinitionsIn(name, todo) == [d] + DefinitionsIn(name, todo[1..]);
    }
  }

  lemma {:induction false} AddSection(st: seq<SectionEntry>, s: SectionEntry)
    requires forall i :: 0 <= i < |st| ==> st[i].name != s.name
    requires s.keys != [] && DistinctKeys(s.keys)
    ensures AddAll(st, DefinitionsIn(s.name, s.keys)) == (st + [s], |s.keys|)
  {
    var k := s.keys[0];
    var ds := DefinitionsIn(s.name, s.keys);
    assert SectionIndex(st, s.name) == |st|;
    assert [k] + s.keys[1..] == s.keys;
    AddKeys(st, s.name, [k], s.keys[1..]);
    assert ds[1..] == DefinitionsIn(s.name, s.keys[1..]);
    assert Add(st, ds[0]) == (st + [SectionEntry(s.name, [k])], true);
  }

  lemma {:induction false} RebuildFrom(st: seq<SectionEntry>, todo: seq<SectionEntry>)
    requires Structured(st + todo)
    ensures AddAll(st, Definitions(todo)) == (st + todo, |Definitions(todo)|)
    decreases |todo|
  {
    if todo == [] {
      assert st + todo == st;
    } else {
      var s := todo[0];
      forall i | 0 <= i < |st|
        ensures st[i].name != s.name
      {
        assert (st + todo)[i].name != (st + todo)[|st|].name;
      }
      assert (st + todo)[|st|] == s;
      AddSection(st, s);
      assert (st + [s]) + todo[1..] == st + todo;
      RebuildFrom(st + [s], todo[1..]);
      AddAllSplit(st, DefinitionsIn(s.name, s.keys), Definitions(todo[1..]));
    }
  }

  /** Adding the definitions of a store to an empty one rebuilds it, in the same order. */
  lemma Rebuild(st: seq<SectionEntry>)
    requires Structured(st)
    ensures AddAll([], Definitions(st)) == (st, |Definitions(st)|)
  {
    assert [] + st == st;
    RebuildFrom([], st);
  }

  /** In such a store, each definition is what a lookup of its key gives. */
  lemma DefinitionLookup(st: seq<SectionEntry>, b: nat)
    requires Structured(st) && b < |Definitions(st)|
    ensures var d := Definitions(st)[b]; Lookup(st, d.section, d.key) == Some(d.value)
    ensures var d := Definitions(st)[b]; FirstDefinition(Definitions(st)[..b], d.section, d.key) == None
  {
    var ds := Definitions(st);
    var d := ds[b];
    Rebuild(st);
    assert ds == ds[..b] + ds[b..];
    AddAllSplit([], ds[..b], ds[b..]);
    var mid := AddAll([], ds[..b]).0;
    assert ds[b..][0] == d;
    AddMeaning(mid, d, d.section, d.key);
    AddAllMeaning([], ds[..b], d.section, d.key);
    assert ds[..b][..b] == ds[..b];
    AddAllKeeps(Add(mid, d).0, ds[b..][1..], d.section, d.key);
  }

}
