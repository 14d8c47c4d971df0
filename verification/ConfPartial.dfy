/**
  What is kept of a text that the parser does not accept, where additions go, and
  the text of a configuration in closed form.
 */
module ConfPartial {
  import opened Wrappers
  import opened ConfScan
  import opened ConfGrammar
  import opened ConfStore
  import opened ConfText

  // ---------------------------------------------------------------------
  // A prefix of a text
  // ---------------------------------------------------------------------

  /** These tokens do not go on with the list before them. */
  predicate Ends(rest: seq<Token>) {
    Peek(rest) != TComma && Peek(rest) != TSemi
  }

  lemma {:induction false} ParsePrefix(ds: seq<DefinitionTree>, rest: seq<Token>)
    requires Ends(rest)
    ensures var r := ParseDefinitions(rest);
            ParseDefinitions(YieldDefinitions(ds) + rest) == Outcome(ds + r.trees, r.ok, r.rest)
  {
    if ds == [] {
      assert YieldDefinitions(ds) + rest == rest;
      assert ds + ParseDefinitions(rest).trees == ParseDefinitions(rest).trees;
    } else {
      var tail := YieldDefinitions(ds[1..]) + rest;
      Regroup2(YieldDefinitions(ds) + rest, YieldDefinition(ds[0]), YieldDefinitions(ds[1..]), rest);
      ParsePrefix(ds[1..], rest);
      PeekDefinitions(ds[1..], rest);
      ParseDefinitionComplete(ds[0], tail);
      ParseOne(ds, YieldDefinition(ds[0]) + tail, tail, ParseDefinitions(rest));
    }
  }

  lemma {:induction false} ParseOne(ds: seq<DefinitionTree>, ts: seq<Token>, tail: seq<Token>, r: Outcome<DefinitionTree>)
    requires ds != [] && ts != [] && Peek(ts) == TString && ParseDefinition(ts) == Some((ds[0], tail))
    requires ParseDefinitions(tail) == Outcome(ds[1..] + r.trees, r.ok, r.rest)
    ensures ParseDefinitions(ts) == Outcome(ds + r.trees, r.ok, r.rest)
  {
    assert [ds[0]] + (ds[1..] + r.trees) == ds + r.trees;
  }

  lemma {:induction false} DeliveredAppend(section: string, a: seq<DefinitionTree>, b: seq<DefinitionTree>)
    ensures DeliveredIn(section, a + b) == DeliveredIn(section, a) + DeliveredIn(section, b)
    decreases |a|
  {
    if a == [] {
      assert a + b == b;
    } else {
      assert (a + b)[1..] == a[1..] + b;
      DeliveredAppend(section, a[1..], b);
    }
  }

  /** The last section, of which perhaps more follows. */
  lemma {:induction false} LastSection(s: SectionTree, rest: seq<Token>, ts: seq<Token>)
    requires Ends(rest) && ts == YieldHeader(s.name) + YieldDefinitions(s.definitions) + rest
    ensures DeliveredIn(s.name, s.definitions) <= Delivered(ParseSections(ts).trees)
  {
    var us := YieldDefinitions(s.definitions) + rest;
    Regroup2(ts, YieldHeader(s.name), YieldDefinitions(s.definitions), rest);
    AfterHeader(s.name, us);
    ParsePrefix(s.definitions, rest);
    HeaderParsed(s.name, us);
    var more := ParseDefinitions(rest).trees;
    var trees := ParseSections(YieldHeader(s.name) + us).trees;
    ConsSection(SectionTree(s.name, s.definitions + more), trees[1..]);
    assert trees == [SectionTree(s.name, s.definitions + more)] + trees[1..];
    DeliveredAppend(s.name, s.definitions, more);
  }

  lemma {:induction false} HeaderParsed(name: string, us: seq<Token>)
    ensures var trees := ParseSections(YieldHeader(name) + us).trees;
            trees != [] && trees[0] == SectionTree(name, ParseDefinitions(us).trees)
  {
    AfterHeader(name, us);
  }

  /** Every definition that is complete before some point of the tokens is delivered, whatever follows. */
  lemma {:induction false} PrefixIsDelivered(ss: seq<SectionTree>, rest: seq<Token>)
    requires Ends(rest)
    ensures Delivered(ss) <= Delivered(ParseSections(YieldSections(ss) + rest).trees)
    decreases |ss|
  {
    if ss != [] {
      var s, tail := ss[0], YieldSections(ss[1..]) + rest;
      FirstSection(ss, rest);
      ConsSection(s, ss[1..]);
      assert ss == [s] + ss[1..];
      if ss[1..] == [] {
        assert tail == rest;
        LastSection(s, rest, YieldSections(ss) + rest);
      } else {
        assert YieldSections(ss[1..])[0] == Token(TLeft, "[");
        assert tail[0] == Token(TLeft, "[");
        PrefixIsDelivered(ss[1..], rest);
        SectionComplete(s, tail, YieldSections(ss) + rest);
        ConsSection(s, ParseSections(tail).trees);
      }
    }
  }

  /**
    A text that is not accepted, or of which a definition is refused, gives -2 and
    leaves in the store every definition that is complete before the error, unless
    it follows a refused one.
   */
  lemma {:induction false} LoadKeepsPrefix(st: seq<SectionEntry>, text: string, ss: seq<SectionTree>, rest: seq<Token>, section: string, key: string)
    requires Lex(TNone, text) == YieldSections(ss) + rest && Ends(rest)
    requires AddAll(st, Delivered(ss)).1 == |Delivered(ss)|
    ensures Load(st, text).1 == 0 || Load(st, text).1 == -2
    ensures Lookup(AddAll(st, Delivered(ss)).0, section, key).Some? ==>
              Lookup(Load(st, text).0, section, key) == Lookup(AddAll(st, Delivered(ss)).0, section, key)
  {
    PrefixIsDelivered(ss, rest);
    LaterKeeps(st, Delivered(ss), Delivered(Parse(Lex(TNone, text)).trees), section, key);
  }

  lemma {:induction false} LaterKeeps(st: seq<SectionEntry>, first: seq<Definition>, all: seq<Definition>, section: string, key: string)
    requires first <= all && AddAll(st, first).1 == |first|
    ensures Lookup(AddAll(st, first).0, section, key).Some? ==>
              Lookup(AddAll(st, all).0, section, key) == Lookup(AddAll(st, first).0, section, key)
  {
    var later := all[|first|..];
    assert all == first + later;
    AddAllSplit(st, first, later);
    if Lookup(AddAll(st, first).0, section, key).Some? {
      AddAllKeeps(AddAll(st, first).0, later, section, key);
    }
  }

  // ---------------------------------------------------------------------
  // Where an addition goes
  // ---------------------------------------------------------------------

  /**
    An addition puts its key behind the others of its section, or a new section
    behind the others; everything else stays where it is.
   */
  lemma {:induction false} AddPlace(st: seq<SectionEntry>, d: Definition)
    requires Structured(st)
    ensures var r := Add(st, d);
            if forall i :: 0 <= i < |st| ==> st[i].name != d.section then
              r == (st + [SectionEntry(d.section, [KeyEntry(d.key, d.value)])], true)
            else if exists i, j :: 0 <= i < |st| && 0 <= j < |st[i].keys| && st[i].name == d.section && st[i].keys[j].key == d.key then
              r == (st, false)
            else
              && r.1 && |r.0| == |st|
              && forall i :: 0 <= i < |st| ==>
                   && r.0[i].name == st[i].name
                   && r.0[i].keys == if st[i].name == d.section then st[i].keys + [KeyEntry(d.key, d.value)] else st[i].keys
  {
    var i := SectionIndex(st, d.section);
    if i < |st| {
      var j := KeyIndex(st[i].keys, d.key);
      assert st[i].name == d.section && (j < |st[i].keys| ==> st[i].keys[j].key == d.key);
    }
  }

  // ---------------------------------------------------------------------
  // The text in closed form
  // ---------------------------------------------------------------------

  function Concat(parts: seq<string>): string {
    if parts == [] then "" else parts[0] + Concat(parts[1..])
  }

  lemma {:induction false} ConcatFirst(first: string, parts: seq<string>)
    ensures Concat([first] + parts) == first + Concat(parts)
  {
    assert ([first] + parts)[1..] == parts;
  }

  function Lines(keys: seq<KeyEntry>): seq<string> {
    seq(|keys|, j requires 0 <= j < |keys| => keys[j].key + " =" + PrintValue(keys[j].value) + "\n")
  }

  function Sections(st: seq<SectionEntry>): seq<string> {
    seq(|st|, i requires 0 <= i < |st| => "\n[" + st[i].name + "]\n\n" + Concat(Lines(st[i].keys)))
  }

  lemma {:induction false} KeysInLines(keys: seq<KeyEntry>)
    ensures PrintKeys(keys) == Concat(Lines(keys))
  {
    if keys != [] {
      KeysInLines(keys[1..]);
      assert Lines(keys)[1..] == Lines(keys[1..]);
    }
  }

  lemma {:induction false} FromInSections(last: Option<string>, st: seq<SectionEntry>)
    requires Structured(st) && (last.Some? ==> forall i :: 0 <= i < |st| ==> st[i].name != last.value)
    ensures PrintFrom(last, st) == Concat(Sections(st))
    decreases |st|
  {
    if st != [] {
      assert st[0].keys != [];
      FromInSections(Some(st[0].name), st[1..]);
      KeysInLines(st[0].keys);
      assert Sections(st)[1..] == Sections(st[1..]);
    }
  }

  /** A saved configuration is, for each section, its name in brackets and a line for each key. */
  lemma PrintIsSections(st: seq<SectionEntry>)
    requires Structured(st)
    ensures Print(st) == Concat(Sections(st))
  {
    FromInSections(None, st);
  }

  function Elements(l: seq<string>): seq<string> {
    seq(|l|, i requires 0 <= i < |l| => (if i == 0 then " \"" else "; \"") + l[i] + "\"")
  }

  lemma {:induction false} MoreInElements(x: string, l: seq<string>)
    ensures Concat(Elements([x] + l)) == " \"" + x + "\"" + PrintMore(l)
    decreases |l|
  {
    var parts := Elements([x] + l);
    if l == [] {
      assert parts[1..] == [] && parts[0] == " \"" + x + "\"";
    } else {
      MoreInElements(l[0], l[1..]);
      var more := Elements([l[0]] + l[1..]);
      assert [l[0]] + l[1..] == l;
      TailText(l, more);
      assert parts[1..] == ["; \"" + l[0] + "\""] + more[1..];
      ConcatFirst("; \"" + l[0] + "\"", more[1..]);
      assert Concat(more[1..]) == PrintMore(l[1..]);
    }
  }

  lemma {:induction false} TailText(l: seq<string>, more: seq<string>)
    requires l != [] && more == Elements(l) && Concat(more) == " \"" + l[0] + "\"" + PrintMore(l[1..])
    ensures Concat(more[1..]) == PrintMore(l[1..])
  {
    var head := " \"" + l[0] + "\"";
    assert more[0] == head;
    assert head + Concat(more[1..]) == head + PrintMore(l[1..]);
    assert (head + Concat(more[1..]))[|head|..] == Concat(more[1..]);
    assert (head + PrintMore(l[1..]))[|head|..] == PrintMore(l[1..]);
  }

  /** The value of a line: nothing, a number, or strings in quotes, separated by semicolons. */
  lemma ValueText(v: Value)
    ensures match v
            case VVoid => PrintValue(v) == ""
            case VInt(i) =>
              var n, sign := if i < 0 then -i else i, if i < 0 then " -" else " ";
              exists digits :: IsNumber(digits, n) && PrintValue(v) == sign + digits
            case VString(s) => PrintValue(v) == Concat(Elements([s]))
            case VList(l) => PrintValue(v) == Concat(Elements(l))
  {
    match v
    case VVoid =>
    case VInt(i) =>
      var digits := Decimal(if i < 0 then -i else i);
      assert " " + ("-" + digits) == " -" + digits;
      DecimalLeads(if i < 0 then -i else i);
      assert IsNumber(digits, if i < 0 then -i else i);
    case VString(s) =>
      MoreInElements(s, []);
      assert [s] + [] == [s] && PrintMore([]) == "";
      assert " " + ("\"" + s + "\"") == " \"" + s + "\"" + "";
    case VList(l) =>
      if l != [] {
        MoreInElements(l[0], l[1..]);
        assert [l[0]] + l[1..] == l;
        assert " " + ("\"" + l[0] + "\"") + PrintMore(l[1..]) == " \"" + l[0] + "\"" + PrintMore(l[1..]);
      }
  }

  predicate IsNumber(digits: string, n: nat) {
    && digits != "" && (forall i :: 0 <= i < |digits| ==> IsDigit(digits[i])) && DigitsValue(digits) == n
    && (|digits| > 1 ==> digits[0] != '0')
  }

  lemma {:induction false} DecimalLeads(n: nat)
    ensures n > 0 ==> Decimal(n)[0] != '0'
    ensures n < 10 ==> |Decimal(n)| == 1
  {
    if n >= 10 {
      DecimalLeads(n / 10);
      assert Decimal(n)[0] == Decimal(n / 10)[0];
    }
  }

}
