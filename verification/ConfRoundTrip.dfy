/**
  Saving a configuration and loading the text again.
 */
module ConfRoundTrip {
  import opened Wrappers
  import opened ConfScan
  import opened ConfGrammar
  import opened ConfStore
  import opened ConfText

  predicate PrintableKeys(keys: seq<KeyEntry>) {
    forall i :: 0 <= i < |keys| ==> Printable(keys[i].value)
  }

  predicate PrintableStore(st: seq<SectionEntry>) {
    forall i :: 0 <= i < |st| ==> PrintableKeys(st[i].keys)
  }

  ghost predicate ValidKeys(keys: seq<KeyEntry>) {
    forall i :: 0 <= i < |keys| ==> Identifier(keys[i].key) && ValidValue(keys[i].value)
  }

  /** Section names and keys are identifiers; values are those a configuration can hold. */
  ghost predicate ValidStore(st: seq<SectionEntry>) {
    forall i :: 0 <= i < |st| ==> Identifier(st[i].name) && ValidKeys(st[i].keys)
  }

  /**
    The delivered definitions d leave the intended ones f at some point: the
    parser stops there with an error, or gives that key another value.
   */
  ghost predicate Diverges(d: seq<Definition>, ok: bool, f: seq<Definition>) {
    exists b :: DivergesAt(d, ok, f, b)
  }

  ghost predicate DivergesAt(d: seq<Definition>, ok: bool, f: seq<Definition>, b: nat) {
    && b < |f| && b <= |d| && d[..b] == f[..b]
    && if b == |d| then !ok
       else d[b].section == f[b].section && d[b].key == f[b].key && d[b].value != f[b].value
  }

  lemma {:induction false} DivergesLater(p: seq<Definition>, d: seq<Definition>, ok: bool, f: seq<Definition>)
    requires Diverges(d, ok, f)
    ensures Diverges(p + d, ok, p + f)
  {
    var b: nat :| DivergesAt(d, ok, f, b);
    assert (p + d)[..|p| + b] == p + d[..b] == p + f[..b] == (p + f)[..|p| + b];
    assert DivergesAt(p + d, ok, p + f, |p| + b);
  }

  /** What follows a divergence does not matter, as long as nothing follows an error. */
  lemma {:induction false} DivergesThenMore(d: seq<Definition>, ok: bool, f: seq<Definition>, d': seq<Definition>, ok': bool, f': seq<Definition>)
    requires Diverges(d, ok, f)
    requires !ok ==> d' == [] && !ok'
    ensures Diverges(d + d', ok', f + f')
  {
    var b: nat :| DivergesAt(d, ok, f, b);
    assert (d + d')[..b] == d[..b] && (f + f')[..b] == f[..b];
    assert DivergesAt(d + d', ok', f + f', b);
  }

  // ---------------------------------------------------------------------
  // One section
  // ---------------------------------------------------------------------

  lemma {:induction false} IdentifierIsCString(s: string)
    requires Identifier(s)
    ensures CString(s) == s
  {
    assert '\0' !in s;
  }

  lemma {:induction false} PrintDefinitionText(key: string, value: string, rest: string)
    ensures key + " =" + value + "\n" + rest == key + (" =" + (value + ("\n" + rest)))
  {
  }

  lemma {:induction false} LexDefinition(k: KeyEntry, rest: string)
    requires Identifier(k.key)
    ensures Lex(TNone, PrintDefinition(k) + rest)
         == [Token(TString, k.key), Token(TEqual, "=")] + Lex(TEqual, PrintValue(k.value) + ("\n" + rest))
  {
    LexKey(k.key, PrintValue(k.value) + ("\n" + rest));
    PrintDefinitionText(k.key, PrintValue(k.value), rest);
  }

  lemma {:induction false} PrintKeysText(keys: seq<KeyEntry>, after: string)
    requires keys != []
    ensures PrintKeys(keys) + after == PrintDefinition(keys[0]) + (PrintKeys(keys[1..]) + after)
  {
  }

  predicate Follows(k: Kind) {
    k == TEof || k == TLeft
  }

  lemma {:induction false} PeekKeys(keys: seq<KeyEntry>, after: string)
    requires ValidKeys(keys) && Follows(Peek(Lex(TNone, after)))
    ensures var k := Peek(Lex(TNone, PrintKeys(keys) + after)); k != TComma && k != TSemi
  {
    if keys == [] {
      assert PrintKeys(keys) + after == after;
    } else {
      PrintKeysText(keys, after);
      LexDefinition(keys[0], PrintKeys(keys[1..]) + after);
    }
  }

  lemma {:induction false} GoodDefinition(k: KeyEntry, rest: string)
    requires Identifier(k.key) && ValidValue(k.value) && Printable(k.value)
    requires var p := Peek(Lex(TNone, rest)); p != TComma && p != TSemi
    ensures var ts := Lex(TNone, PrintDefinition(k) + rest);
            && Peek(ts) == TString
            && ParseDefinition(ts) == Some((DefinitionTree(k.key, TreeOf(k.value)), Lex(TNone, rest)))
  {
    var d := DefinitionTree(k.key, TreeOf(k.value));
    LexDefinition(k, rest);
    LexGoodValue(k.value, rest);
    ParseDefinitionComplete(d, Lex(TNone, rest));
    Regroup(Lex(TNone, PrintDefinition(k) + rest), [Token(TString, k.key), Token(TEqual, "=")],
            YieldValue(d.value), Lex(TNone, rest));
  }

  lemma {:induction false} BadDefinition(k: KeyEntry, rest: string)
    requires Identifier(k.key) && !Printable(k.value)
    ensures var ts := Lex(TNone, PrintDefinition(k) + rest);
            && Peek(ts) == TString
            && (ParseDefinition(ts).Some? ==>
                  var d := ParseDefinition(ts).value.0; d.key == k.key && ValueOf(d.value) != k.value)
  {
    var ts := Lex(TNone, PrintDefinition(k) + rest);
    LexDefinition(k, rest);
    LexBadValue(k.value, rest);
    assert ts[2..] == Lex(TEqual, PrintValue(k.value) + ("\n" + rest));
  }

  lemma {:induction false} ReadKeys(section: string, keys: seq<KeyEntry>, after: string)
    requires CString(section) == section && ValidKeys(keys) && Follows(Peek(Lex(TNone, after)))
    ensures var r := ParseDefinitions(Lex(TNone, PrintKeys(keys) + after));
            var d := DeliveredIn(section, r.trees);
            if PrintableKeys(keys) then r.ok && r.rest == Lex(TNone, after) && d == DefinitionsIn(section, keys)
            else Diverges(d, r.ok, DefinitionsIn(section, keys))
    decreases |keys|
  {
    if keys == [] {
      assert PrintKeys(keys) + after == after;
    } else {
      var k := keys[0];
      var rest := PrintKeys(keys[1..]) + after;
      PrintKeysText(keys, after);
      var ts := Lex(TNone, PrintDefinition(k) + rest);
      IdentifierIsCString(k.key);
      if Printable(k.value) {
        ReadKeys(section, keys[1..], after);
        PeekKeys(keys[1..], after);
        GoodDefinition(k, rest);
        TreeOfValue(k.value);
        KeysGoodHead(section, keys, ts, Lex(TNone, rest), Lex(TNone, after));
      } else {
        BadDefinition(k, rest);
        KeysBadHead(section, keys, ts);
      }
    }
  }

  lemma {:induction false} KeysGoodHead(section: string, keys: seq<KeyEntry>, ts: seq<Token>, us: seq<Token>, after: seq<Token>)
    requires keys != [] && Printable(keys[0].value) && Peek(ts) == TString && ts != []
    requires CString(section) == section && CString(keys[0].key) == keys[0].key
    requires ValueOf(TreeOf(keys[0].value)) == keys[0].value
    requires ParseDefinition(ts) == Some((DefinitionTree(keys[0].key, TreeOf(keys[0].value)), us))
    requires var r := ParseDefinitions(us);
             var d := DeliveredIn(section, r.trees);
             if PrintableKeys(keys[1..]) then r.ok && r.rest == after && d == DefinitionsIn(section, keys[1..])
             else Diverges(d, r.ok, DefinitionsIn(section, keys[1..]))
    ensures var r := ParseDefinitions(ts);
            var d := DeliveredIn(section, r.trees);
            if PrintableKeys(keys) then r.ok && r.rest == after && d == DefinitionsIn(section, keys)
            else Diverges(d, r.ok, DefinitionsIn(section, keys))
  {
    var tree := DefinitionTree(keys[0].key, TreeOf(keys[0].value));
    var r := ParseDefinitions(us);
    ParsedHead(ts, tree, us);
    ConsDefinition(section, tree, r.trees);
    KeysHead(section, keys);
    ReadAfter([Definition(section, keys[0].key, keys[0].value)], DeliveredIn(section, r.trees), r.ok,
              DefinitionsIn(section, keys[1..]), PrintableKeys(keys[1..]));
  }

  lemma ParsedHead(ts: seq<Token>, tree: DefinitionTree, us: seq<Token>)
    requires Peek(ts) == TString && ts != [] && ParseDefinition(ts) == Some((tree, us))
    ensures var r := ParseDefinitions(us); ParseDefinitions(ts) == Outcome([tree] + r.trees, r.ok, r.rest)
  {
  }

  lemma {:induction false} KeysHead(section: string, keys: seq<KeyEntry>)
    requires keys != [] && Printable(keys[0].value)
    ensures DefinitionsIn(section, keys)
         == [Definition(section, keys[0].key, keys[0].value)] + DefinitionsIn(section, keys[1..])
    ensures PrintableKeys(keys) <==> PrintableKeys(keys[1..])
  {
    assert keys == [keys[0]] + keys[1..];
  }

  /** What was delivered, d, is what was meant, f, if all of that is good; otherwise it diverges. */
  ghost predicate ReadBack(d: seq<Definition>, ok: bool, f: seq<Definition>, good: bool) {
    if good then ok && d == f else Diverges(d, ok, f)
  }

  lemma {:induction false} ReadAfter(p: seq<Definition>, d: seq<Definition>, ok: bool, f: seq<Definition>, good: bool)
    requires ReadBack(d, ok, f, good)
    ensures ReadBack(p + d, ok, p + f, good)
  {
    if !good {
      DivergesLater(p, d, ok, f);
    }
  }


  lemma {:induction false} KeysBadHead(section: string, keys: seq<KeyEntry>, ts: seq<Token>)
    requires keys != [] && !Printable(keys[0].value) && Peek(ts) == TString && ts != []
    requires CString(section) == section && CString(keys[0].key) == keys[0].key
    requires ParseDefinition(ts).Some? ==>
               var d := ParseDefinition(ts).value.0; d.key == keys[0].key && ValueOf(d.value) != keys[0].value
    ensures var r := ParseDefinitions(ts);
            Diverges(DeliveredIn(section, r.trees), r.ok, DefinitionsIn(section, keys))
  {
    var r := ParseDefinitions(ts);
    if ParseDefinition(ts).Some? {
      var d := ParseDefinition(ts).value;
      ConsDefinition(section, d.0, ParseDefinitions(d.1).trees);
    }
    assert DivergesAt(DeliveredIn(section, r.trees), r.ok, DefinitionsIn(section, keys), 0);
  }

  // ---------------------------------------------------------------------
  // The whole text
  // ---------------------------------------------------------------------

  /** Consecutive sections differ, from the one printed last, and none is empty. */
  ghost predicate Separate(last: Option<string>, st: seq<SectionEntry>)
    decreases |st|
  {
    st == [] || (st[0].keys != [] && last != Some(st[0].name) && Separate(Some(st[0].name), st[1..]))
  }

  lemma {:induction false} StructuredIsSeparate(last: Option<string>, st: seq<SectionEntry>)
    requires Structured(st) && (st != [] ==> last != Some(st[0].name))
    ensures Separate(last, st)
    decreases |st|
  {
    if st != [] {
      StructuredIsSeparate(Some(st[0].name), st[1..]);
    }
  }

  lemma {:induction false} LexSection(s: SectionEntry, rest: string)
    requires Identifier(s.name)
    ensures Lex(TNone, PrintHeader(s.name) + PrintKeys(s.keys) + rest)
         == YieldHeader(s.name) + Lex(TNone, PrintKeys(s.keys) + rest)
  {
    LexHeader(s.name, PrintKeys(s.keys) + rest);
    assert PrintHeader(s.name) + PrintKeys(s.keys) + rest == PrintHeader(s.name) + (PrintKeys(s.keys) + rest);
  }

  lemma {:induction false} PeekText(last: Option<string>, st: seq<SectionEntry>)
    requires ValidStore(st) && Separate(last, st)
    ensures Follows(Peek(Lex(TNone, PrintFrom(last, st))))
  {
    if st != [] {
      LexSection(st[0], PrintFrom(Some(st[0].name), st[1..]));
    }
  }

  lemma {:induction false} ReadText(last: Option<string>, st: seq<SectionEntry>)
    requires ValidStore(st) && Separate(last, st)
    ensures var r := ParseSections(Lex(TNone, PrintFrom(last, st)));
            var d := Delivered(r.trees);
            if PrintableStore(st) then r.ok && Peek(r.rest) == TEof && r.rest != [] && d == Definitions(st)
            else Diverges(d, r.ok, Definitions(st))
    decreases |st|
  {
    if st != [] {
      var s := st[0];
      var rest := PrintFrom(Some(s.name), st[1..]);
      LexSection(s, rest);
      PeekText(Some(s.name), st[1..]);
      IdentifierIsCString(s.name);
      ReadKeys(s.name, s.keys, rest);
      var ts := Lex(TNone, PrintFrom(last, st));
      var us := Lex(TNone, PrintKeys(s.keys) + rest);
      assert ts[3..] == us;
      ReadText(Some(s.name), st[1..]);
      SectionRead(st, ts, us, Lex(TNone, rest));
    }
  }

  lemma {:induction false} SectionRead(st: seq<SectionEntry>, ts: seq<Token>, us: seq<Token>, after: seq<Token>)
    requires st != [] && ts == YieldHeader(st[0].name) + us
    requires var r := ParseDefinitions(us);
             var d := DeliveredIn(st[0].name, r.trees);
             var f := DefinitionsIn(st[0].name, st[0].keys);
             if PrintableKeys(st[0].keys) then r.ok && r.rest == after && d == f else Diverges(d, r.ok, f)
    requires var r := ParseSections(after);
             var d := Delivered(r.trees);
             if PrintableStore(st[1..]) then r.ok && Peek(r.rest) == TEof && r.rest != [] && d == Definitions(st[1..])
             else Diverges(d, r.ok, Definitions(st[1..]))
    ensures var r := ParseSections(ts);
            var d := Delivered(r.trees);
            if PrintableStore(st) then r.ok && Peek(r.rest) == TEof && r.rest != [] && d == Definitions(st)
            else Diverges(d, r.ok, Definitions(st))
  {
    var ds := ParseDefinitions(us);
    var d, f := DeliveredIn(st[0].name, ds.trees), DefinitionsIn(st[0].name, st[0].keys);
    var r := if ds.ok then ParseSections(ds.rest) else Outcome([], false, []);
    SectionParsed(st[0].name, us, ts);
    ConsSection(SectionTree(st[0].name, ds.trees), r.trees);
    StoreHead(st);
    if PrintableKeys(st[0].keys) {
      ReadAfter(f, Delivered(r.trees), r.ok, Definitions(st[1..]), PrintableStore(st[1..]));
    } else {
      DivergesThenMore(d, ds.ok, f, Delivered(r.trees), r.ok, Definitions(st[1..]));
    }
  }

  lemma {:induction false} StoreHead(st: seq<SectionEntry>)
    requires st != []
    ensures Definitions(st) == DefinitionsIn(st[0].name, st[0].keys) + Definitions(st[1..])
    ensures PrintableStore(st) <==> PrintableKeys(st[0].keys) && PrintableStore(st[1..])
  {
    assert st == [st[0]] + st[1..];
  }

  lemma {:induction false} SectionParsed(name: string, us: seq<Token>, ts: seq<Token>)
    requires ts == YieldHeader(name) + us
    ensures var ds := ParseDefinitions(us);
            var r := if ds.ok then ParseSections(ds.rest) else Outcome([], false, []);
            ParseSections(ts) == Outcome([SectionTree(name, ds.trees)] + r.trees, r.ok, r.rest)
  {
    assert ts[3..] == us;
  }

  // ---------------------------------------------------------------------
  // The round trip
  // ---------------------------------------------------------------------

  lemma {:induction false} PrefixOfStore(st: seq<SectionEntry>, b: nat)
    requires Structured(st) && b < |Definitions(st)|
    ensures var f := Definitions(st);
            var r := AddAll([], f[..b]);
            && r.1 == b
            && Lookup(r.0, f[b].section, f[b].key) == None
            && Lookup(st, f[b].section, f[b].key) == Some(f[b].value)
  {
    var f := Definitions(st);
    DefinitionLookup(st, b);
    Rebuild(st);
    assert f == f[..b] + f[b..];
    AddAllSplit([], f[..b], f[b..]);
    AddAllMeaning([], f[..b], f[b].section, f[b].key);
    assert f[..b][..b] == f[..b];
  }

  lemma {:induction false} OtherValueStays(mid: seq<SectionEntry>, rest: seq<Definition>)
    requires rest != [] && Lookup(mid, rest[0].section, rest[0].key) == None
    ensures Lookup(AddAll(mid, rest).0, rest[0].section, rest[0].key) == Some(rest[0].value)
  {
    var d := rest[0];
    AddMeaning(mid, d, d.section, d.key);
    AddAllKeeps(Add(mid, d).0, rest[1..], d.section, d.key);
  }

  lemma {:induction false} DivergenceShows(st: seq<SectionEntry>, d: seq<Definition>, ok: bool)
    requires Structured(st) && Diverges(d, ok, Definitions(st))
    ensures AddAll([], d).0 != st
  {
    var f := Definitions(st);
    var b: nat :| DivergesAt(d, ok, f, b);
    PrefixOfStore(st, b);
    if b == |d| {
      assert d == d[..b];
    } else {
      assert d == d[..b] + d[b..];
      AddAllSplit([], d[..b], d[b..]);
      OtherValueStays(AddAll([], f[..b]).0, d[b..]);
    }
  }

  /**
    For every configuration whose names are identifiers, saving and loading
    gives the same configuration, in the same order and with return code 0, if
    and only if each value is a non-negative integer, a string without double
    quotes, or a list of at least two such strings.
   */
  lemma {:induction false} SaveThenLoad(st: seq<SectionEntry>)
    requires Structured(st) && ValidStore(st)
    ensures Load([], Print(st)).0 == st <==> PrintableStore(st)
    ensures PrintableStore(st) ==> Load([], Print(st)).1 == 0
  {
    StructuredIsSeparate(None, st);
    ReadText(None, st);
    var r := Parse(Lex(TNone, Print(st)));
    if PrintableStore(st) {
      Rebuild(st);
    } else {
      DivergenceShows(st, Delivered(r.trees), ParseSections(Lex(TNone, Print(st))).ok);
    }
  }

}
