/**
  The grammar documented in libcore/include/core/conf.h as derivation trees,
  and the recursive-descent parser of libcore/confparser.c as a function on
  tokens.  A tree yields the tokens it derives; the parser is proved to accept
  exactly the token sequences that some tree yields.
 */
module ConfGrammar {
  import opened Wrappers
  import opened ConfScan

  // list_sep : ',' | ';'
  datatype Separator = Comma | SemiColon

  // value : int_value | string_value opt_string_list
  datatype ValueTree =
    | IntTree(digits: string)
    | StringTree(first: string, more: seq<(Separator, string)>)

  // definition : key '=' value
  datatype DefinitionTree = DefinitionTree(key: string, value: ValueTree)

  // section : '[' section_name ']' definition_list
  datatype SectionTree = SectionTree(name: string, definitions: seq<DefinitionTree>)

  // ---------------------------------------------------------------------
  // The tokens of a tree
  // ---------------------------------------------------------------------

  function YieldSeparator(s: Separator): Token {
    match s
    case Comma => Token(TComma, ",")
    case SemiColon => Token(TSemi, ";")
  }

  function YieldMore(more: seq<(Separator, string)>): seq<Token> {
    if more == [] then []
    else [YieldSeparator(more[0].0), Token(TString, more[0].1)] + YieldMore(more[1..])
  }

  function YieldValue(v: ValueTree): seq<Token> {
    match v
    case IntTree(d) => [Token(TInteger, d)]
    case StringTree(first, more) => [Token(TString, first)] + YieldMore(more)
  }

  function YieldDefinition(d: DefinitionTree): seq<Token> {
    [Token(TString, d.key), Token(TEqual, "=")] + YieldValue(d.value)
  }

  function YieldDefinitions(ds: seq<DefinitionTree>): seq<Token> {
    if ds == [] then [] else YieldDefinition(ds[0]) + YieldDefinitions(ds[1..])
  }

  function YieldHeader(name: string): seq<Token> {
    [Token(TLeft, "["), Token(TString, name), Token(TRight, "]")]
  }

  function YieldSections(ss: seq<SectionTree>): seq<Token> {
    if ss == [] then []
    else YieldHeader(ss[0].name) + YieldDefinitions(ss[0].definitions) + YieldSections(ss[1..])
  }

  /** The token sequence is derivable from configuration, followed by the end of the file. */
  ghost predicate Derivable(ts: seq<Token>) {
    exists tree: seq<SectionTree> :: DerivedBy(ts, tree)
  }

  ghost predicate DerivedBy(ts: seq<Token>, tree: seq<SectionTree>) {
    ts != [] && ts[|ts| - 1].kind == TEof && ts[..|ts| - 1] == YieldSections(tree)
  }

  // ---------------------------------------------------------------------
  // The parser
  // ---------------------------------------------------------------------

  function Peek(ts: seq<Token>): Kind {
    if ts == [] then TEof else ts[0].kind
  }

  /** Punctuation carries its own character as text; scanned tokens always satisfy this. */
  predicate WellSpelled(t: Token) {
    && (t.kind == TLeft ==> t.text == "[") && (t.kind == TRight ==> t.text == "]")
    && (t.kind == TEqual ==> t.text == "=") && (t.kind == TComma ==> t.text == ",")
    && (t.kind == TSemi ==> t.text == ";")
  }

  // opt_string_list : list_sep string_value opt_string_list | EMPTY
  function ParseMore(ts: seq<Token>): (r: Option<(seq<(Separator, string)>, seq<Token>)>)
    ensures r.Some? ==> |r.value.1| <= |ts|
  {
    if Peek(ts) == TComma || Peek(ts) == TSemi then
      if |ts| < 2 || ts[1].kind != TString then None
      else
        var sep := if Peek(ts) == TComma then Comma else SemiColon;
        match ParseMore(ts[2..])
        case None => None
        case Some(r) => Some(([(sep, ts[1].text)] + r.0, r.1))
    else Some(([], ts))
  }

  function ParseValue(ts: seq<Token>): (r: Option<(ValueTree, seq<Token>)>)
    ensures r.Some? ==> |r.value.1| <= |ts|
  {
    if ts == [] then None
    else if ts[0].kind == TInteger then Some((IntTree(ts[0].text), ts[1..]))
    else if ts[0].kind == TString then
      match ParseMore(ts[1..])
      case None => None
      case Some(r) => Some((StringTree(ts[0].text, r.0), r.1))
    else None
  }

  // What a parsing function leaves: the complete trees it built, whether it
  // finished without error, and the tokens it did not accept.
  datatype Outcome<T> = Outcome(trees: seq<T>, ok: bool, rest: seq<Token>)

  function ParseDefinition(ts: seq<Token>): (r: Option<(DefinitionTree, seq<Token>)>)
    requires Peek(ts) == TString && ts != []
    ensures r.Some? ==> |r.value.1| < |ts|
  {
    if |ts| < 2 || ts[1].kind != TEqual then None
    else
      match ParseValue(ts[2..])
      case None => None
      case Some(r) => Some((DefinitionTree(ts[0].text, r.0), r.1))
  }

  // definition_list : definition definition_list | EMPTY
  function ParseDefinitions(ts: seq<Token>): (r: Outcome<DefinitionTree>)
    ensures |r.rest| <= |ts|
    decreases |ts|
  {
    if Peek(ts) != TString || ts == [] then Outcome([], true, ts)
    else
      match ParseDefinition(ts)
      case None => Outcome([], false, [])
      case Some(d) =>
        var r := ParseDefinitions(d.1);
        Outcome([d.0] + r.trees, r.ok, r.rest)
  }

  // section_list : section section_list | EMPTY
  function ParseSections(ts: seq<Token>): (r: Outcome<SectionTree>)
    ensures |r.rest| <= |ts|
    decreases |ts|
  {
    if Peek(ts) != TLeft then Outcome([], true, ts)
    else if |ts| < 3 || ts[1].kind != TString || ts[2].kind != TRight then Outcome([], false, [])
    else
      var ds := ParseDefinitions(ts[3..]);
      var s := SectionTree(ts[1].text, ds.trees);
      if !ds.ok then Outcome([s], false, [])
      else
        var r := ParseSections(ds.rest);
        Outcome([s] + r.trees, r.ok, r.rest)
  }

  // configuration : section_list
  function Parse(ts: seq<Token>): Outcome<SectionTree> {
    var r := ParseSections(ts);
    Outcome(r.trees, r.ok && r.rest != [] && r.rest[0].kind == TEof, r.rest)
  }

  // ---------------------------------------------------------------------
  // Soundness: what was built yields a prefix of the tokens
  // ---------------------------------------------------------------------

  ghost predicate Spelled(ts: seq<Token>) {
    forall i :: 0 <= i < |ts| ==> WellSpelled(ts[i])
  }

  lemma Regroup(ts: seq<Token>, head: seq<Token>, mid: seq<Token>, rest: seq<Token>)
    requires ts == head + (mid + rest)
    ensures ts == (head + mid) + rest
  {
  }

  lemma {:induction false} ParseMoreSound(ts: seq<Token>)
    requires Spelled(ts) && ParseMore(ts).Some?
    ensures ts == YieldMore(ParseMore(ts).value.0) + ParseMore(ts).value.1
    ensures Spelled(ParseMore(ts).value.1)
  {
    if Peek(ts) == TComma || Peek(ts) == TSemi {
      var tail := ts[2..];
      ParseMoreSound(tail);
      var r0 := ParseMore(tail).value;
      var r := ParseMore(ts).value;
      assert r.0[1..] == r0.0;
      var head := [YieldSeparator(r.0[0].0), Token(TString, r.0[0].1)];
      assert WellSpelled(ts[0]);
      assert head == [ts[0], ts[1]];
      assert ts == head + tail;
      Regroup(ts, head, YieldMore(r0.0), r0.1);
    }
  }

  lemma ParseDefinitionSound(ts: seq<Token>)
    requires Spelled(ts) && Peek(ts) == TString && ts != [] && ParseDefinition(ts).Some?
    ensures ts == YieldDefinition(ParseDefinition(ts).value.0) + ParseDefinition(ts).value.1
    ensures Spelled(ParseDefinition(ts).value.1)
  {
    var tail := ts[2..];
    assert WellSpelled(ts[1]);
    var head := [ts[0], ts[1]];
    assert ts == head + tail;
    assert tail == [tail[0]] + tail[1..];
    var r := ParseValue(tail).value;
    if tail[0].kind == TString {
      ParseMoreSound(tail[1..]);
      Regroup(tail, [tail[0]], YieldMore(ParseMore(tail[1..]).value.0), r.1);
    }
    assert tail == YieldValue(r.0) + r.1;
    Regroup(ts, head, YieldValue(r.0), r.1);
  }

  lemma {:induction false} ParseDefinitionsSound(ts: seq<Token>)
    requires Spelled(ts)
    ensures var r := ParseDefinitions(ts);
            && YieldDefinitions(r.trees) <= ts
            && (r.ok ==> ts == YieldDefinitions(r.trees) + r.rest && Spelled(r.rest))
    decreases |ts|
  {
    if ts != [] && Peek(ts) == TString && ParseDefinition(ts).Some? {
      var d := ParseDefinition(ts).value;
      ParseDefinitionSound(ts);
      ParseDefinitionsSound(d.1);
      DefinitionsOneMore(ts, d.0, d.1, ParseDefinitions(d.1));
    }
  }

  lemma DefinitionsOneMore(ts: seq<Token>, d: DefinitionTree, tail: seq<Token>, r: Outcome<DefinitionTree>)
    requires ts == YieldDefinition(d) + tail
    requires YieldDefinitions(r.trees) <= tail
    requires r.ok ==> tail == YieldDefinitions(r.trees) + r.rest
    ensures YieldDefinitions([d] + r.trees) <= ts
    ensures r.ok ==> ts == YieldDefinitions([d] + r.trees) + r.rest
  {
    assert ([d] + r.trees)[1..] == r.trees;
    assert YieldDefinitions([d] + r.trees) == YieldDefinition(d) + YieldDefinitions(r.trees);
    if r.ok {
      Regroup(ts, YieldDefinition(d), YieldDefinitions(r.trees), r.rest);
    }
  }

  lemma {:induction false} ParseSectionsSound(ts: seq<Token>)
    requires Spelled(ts)
    ensures var r := ParseSections(ts);
            && YieldSections(r.trees) <= ts
            && (r.ok ==> ts == YieldSections(r.trees) + r.rest)
    decreases |ts|
  {
    if Peek(ts) == TLeft && |ts| >= 3 && ts[1].kind == TString && ts[2].kind == TRight {
      assert WellSpelled(ts[0]) && WellSpelled(ts[2]);
      var tail := ts[3..];
      assert ts == YieldHeader(ts[1].text) + tail;
      ParseDefinitionsSound(tail);
      var ds := ParseDefinitions(tail);
      var s := SectionTree(ts[1].text, ds.trees);
      if ds.ok {
        ParseSectionsSound(ds.rest);
        SectionsOneMore(ts, s, ds.rest, ParseSections(ds.rest));
      } else {
        assert YieldSections([s]) == YieldHeader(ts[1].text) + YieldDefinitions(ds.trees) + YieldSections([s][1..]);
      }
    }
  }

  lemma SectionsOneMore(ts: seq<Token>, s: SectionTree, tail: seq<Token>, r: Outcome<SectionTree>)
    requires ts == YieldHeader(s.name) + (YieldDefinitions(s.definitions) + tail)
    requires YieldSections(r.trees) <= tail
    requires r.ok ==> tail == YieldSections(r.trees) + r.rest
    ensures YieldSections([s] + r.trees) <= ts
    ensures r.ok ==> ts == YieldSections([s] + r.trees) + r.rest
  {
    assert ([s] + r.trees)[1..] == r.trees;
    var head := YieldHeader(s.name) + YieldDefinitions(s.definitions);
    Regroup(ts, YieldHeader(s.name), YieldDefinitions(s.definitions), tail);
    assert YieldSections([s] + r.trees) == head + YieldSections(r.trees);
    if r.ok {
      Regroup(ts, head, YieldSections(r.trees), r.rest);
    }
  }

  // ---------------------------------------------------------------------
  // Completeness: every tree is recognised
  // ---------------------------------------------------------------------

  lemma DropHead<T>(head: seq<T>, mid: seq<T>, rest: seq<T>)
    ensures ((head + mid) + rest)[|head|..] == mid + rest
  {
  }

  lemma {:induction false} ParseMoreComplete(more: seq<(Separator, string)>, rest: seq<Token>)
    requires Peek(rest) != TComma && Peek(rest) != TSemi
    ensures ParseMore(YieldMore(more) + rest) == Some((more, rest))
  {
    if more == [] {
      assert YieldMore(more) + rest == rest;
    } else {
      ParseMoreComplete(more[1..], rest);
      ParseMoreHead(more, rest);
    }
  }

  lemma {:induction false} ParseMoreHead(more: seq<(Separator, string)>, rest: seq<Token>)
    requires more != [] && ParseMore(YieldMore(more[1..]) + rest) == Some((more[1..], rest))
    ensures ParseMore(YieldMore(more) + rest) == Some((more, rest))
  {
    DropHead([YieldSeparator(more[0].0), Token(TString, more[0].1)], YieldMore(more[1..]), rest);
    assert more == [more[0]] + more[1..];
  }

  lemma {:induction false} ParseValueComplete(v: ValueTree, rest: seq<Token>)
    requires Peek(rest) != TComma && Peek(rest) != TSemi
    ensures ParseValue(YieldValue(v) + rest) == Some((v, rest))
  {
    match v
    case IntTree(d) => DropHead([Token(TInteger, d)], [], rest);
    case StringTree(first, more) =>
      ParseMoreComplete(more, rest);
      DropHead([Token(TString, first)], YieldMore(more), rest);
  }

  lemma ParseDefinitionComplete(d: DefinitionTree, rest: seq<Token>)
    requires Peek(rest) != TComma && Peek(rest) != TSemi
    ensures var ts := YieldDefinition(d) + rest;
            Peek(ts) == TString && ParseDefinition(ts) == Some((d, rest))
  {
    var ts := YieldDefinition(d) + rest;
    ParseValueComplete(d.value, rest);
    assert ts[2..] == YieldValue(d.value) + rest;
  }

  lemma PeekDefinitions(ds: seq<DefinitionTree>, rest: seq<Token>)
    requires Peek(rest) != TComma && Peek(rest) != TSemi
    ensures var k := Peek(YieldDefinitions(ds) + rest); k != TComma && k != TSemi
  {
    if ds == [] {
      assert YieldDefinitions(ds) + rest == rest;
    } else {
      assert YieldDefinitions(ds)[0] == Token(TString, ds[0].key);
    }
  }

  lemma {:induction false} ParseDefinitionsComplete(ds: seq<DefinitionTree>, rest: seq<Token>)
    requires Peek(rest) != TComma && Peek(rest) != TSemi && Peek(rest) != TString
    ensures ParseDefinitions(YieldDefinitions(ds) + rest) == Outcome(ds, true, rest)
  {
    if ds == [] {
      assert YieldDefinitions(ds) + rest == rest;
    } else {
      var tail := YieldDefinitions(ds[1..]) + rest;
      Regroup2(YieldDefinitions(ds) + rest, YieldDefinition(ds[0]), YieldDefinitions(ds[1..]), rest);
      ParseDefinitionsComplete(ds[1..], rest);
      PeekDefinitions(ds[1..], rest);
      ParseDefinitionComplete(ds[0], tail);
      ConsOutcome(ds, YieldDefinition(ds[0]) + tail, tail, rest);
    }
  }

  lemma ConsOutcome(ds: seq<DefinitionTree>, ts: seq<Token>, tail: seq<Token>, rest: seq<Token>)
    requires ds != [] && ts != [] && Peek(ts) == TString
    requires ParseDefinition(ts) == Some((ds[0], tail))
    requires ParseDefinitions(tail) == Outcome(ds[1..], true, rest)
    ensures ParseDefinitions(ts) == Outcome(ds, true, rest)
  {
    assert ds == [ds[0]] + ds[1..];
  }

  lemma {:induction false} ParseSectionsComplete(ss: seq<SectionTree>, rest: seq<Token>)
    requires Peek(rest) == TEof
    ensures ParseSections(YieldSections(ss) + rest) == Outcome(ss, true, rest)
  {
    if ss == [] {
      assert YieldSections(ss) + rest == rest;
    } else {
      ParseSectionsComplete(ss[1..], rest);
      PeekSections(ss[1..], rest);
      FirstSection(ss, rest);
      SectionComplete(ss[0], YieldSections(ss[1..]) + rest, YieldSections(ss) + rest);
    }
  }

  lemma FirstSection(ss: seq<SectionTree>, rest: seq<Token>)
    requires ss != []
    ensures YieldSections(ss) + rest
         == YieldHeader(ss[0].name) + YieldDefinitions(ss[0].definitions) + (YieldSections(ss[1..]) + rest)
  {
    Regroup2(YieldSections(ss) + rest, YieldHeader(ss[0].name) + YieldDefinitions(ss[0].definitions),
             YieldSections(ss[1..]), rest);
  }

  lemma Regroup2(ts: seq<Token>, head: seq<Token>, mid: seq<Token>, rest: seq<Token>)
    requires ts == (head + mid) + rest
    ensures ts == head + (mid + rest)
  {
  }

  lemma PeekSections(ss: seq<SectionTree>, rest: seq<Token>)
    requires Peek(rest) == TEof
    ensures Peek(YieldSections(ss) + rest) == TLeft || Peek(YieldSections(ss) + rest) == TEof
  {
    if ss != [] {
      assert YieldSections(ss)[0] == Token(TLeft, "[");
    } else {
      assert YieldSections(ss) + rest == rest;
    }
  }

  lemma SectionComplete(s: SectionTree, tail: seq<Token>, ts: seq<Token>)
    requires Peek(tail) == TLeft || Peek(tail) == TEof
    requires ts == YieldHeader(s.name) + YieldDefinitions(s.definitions) + tail
    ensures ParseSections(ts) == var r := ParseSections(tail); Outcome([s] + r.trees, r.ok, r.rest)
  {
    Regroup2(ts, YieldHeader(s.name), YieldDefinitions(s.definitions), tail);
    ParseDefinitionsComplete(s.definitions, tail);
    AfterHeader(s.name, YieldDefinitions(s.definitions) + tail);
  }

  lemma AfterHeader(name: string, us: seq<Token>)
    ensures var ts := YieldHeader(name) + us;
            && |ts| >= 3 && ts[0].kind == TLeft && ts[1] == Token(TString, name) && ts[2].kind == TRight
            && ts[3..] == us
  {
  }

  // ---------------------------------------------------------------------
  // The parser and the documented grammar
  // ---------------------------------------------------------------------

  lemma {:induction false} ScanSpells(st: ScanState, text: string, s: string, previous: Kind)
    requires st == SInitial || st == SSpace || st == SComment ==> text == ""
    ensures WellSpelled(Scan(st, text, s, previous).0)
    decreases |s|, if st == SSpace then 1 else 0
  {
    if s != "" {
      var c, rest := s[0], s[1..];
      match st
      case SInitial =>
        if IsBlank(c) { ScanSpells(SSpace, text, rest, previous); }
        else if c == '#' { ScanSpells(SComment, text, rest, previous); }
        else if c == '"' { ScanSpells(SString, text, rest, previous); }
        else if IsFirstIdentifier(c) { ScanSpells(SIdentifier, text + [c], rest, previous); }
        else if IsDigit(c) { ScanSpells(SInteger, text + [c], rest, previous); }
        else if previous != TEqual && !IsPunctuation(c) { ScanSpells(SInitial, text, rest, previous); }
      case SSpace =>
        if !IsSpace(c) { ScanSpells(SInitial, text, s, previous); }
        else { ScanSpells(SSpace, text, rest, previous); }
      case SComment => ScanSpells(if c == '\n' then SInitial else SComment, text, rest, previous);
      case SString => if c != '"' { ScanSpells(SString, text + [c], rest, previous); }
      case SIdentifier => if IsIdentifier(c) { ScanSpells(SIdentifier, text + [c], rest, previous); }
      case SInteger => if IsDigit(c) { ScanSpells(SInteger, text + [c], rest, previous); }
    }
  }

  lemma {:induction false} LexSpells(previous: Kind, s: string)
    ensures Spelled(Lex(previous, s))
    decreases |s|
  {
    ScanSpells(SInitial, "", s, previous);
    var r := NextToken(s, previous);
    if !Stop(r.0.kind) {
      LexSpells(r.0.kind, r.1);
    }
  }

  lemma AcceptedIsDerived(ts: seq<Token>)
    requires Spelled(ts) && Parse(ts).ok
    requires forall i :: 0 <= i < |ts| - 1 ==> !Stop(ts[i].kind)
    ensures DerivedBy(ts, Parse(ts).trees)
  {
    ParseSectionsSound(ts);
    var r := ParseSections(ts);
    var n := |ts| - |r.rest|;
    assert ts[n] == r.rest[0];
    assert n == |ts| - 1;
  }

  lemma DerivedIsAccepted(ts: seq<Token>, tree: seq<SectionTree>)
    requires DerivedBy(ts, tree)
    ensures Parse(ts).ok && Parse(ts).trees == tree
  {
    var last := [ts[|ts| - 1]];
    assert ts == YieldSections(tree) + last;
    ParseSectionsComplete(tree, last);
  }

  /**
    On the tokens of any input, the parser succeeds exactly when the documented
    grammar derives them.  It then returns the derivation tree; when it fails,
    the definitions it has completed are those of a tree for a prefix of the tokens.
   */
  lemma ParserRecognisesGrammar(previous: Kind, s: string)
    ensures var ts := Lex(previous, s);
            && (Parse(ts).ok <==> Derivable(ts))
            && (Parse(ts).ok ==> DerivedBy(ts, Parse(ts).trees))
            && YieldSections(Parse(ts).trees) <= ts
  {
    var ts := Lex(previous, s);
    LexSpells(previous, s);
    ParseSectionsSound(ts);
    if Parse(ts).ok {
      AcceptedIsDerived(ts);
    }
    if Derivable(ts) {
      var tree :| DerivedBy(ts, tree);
      DerivedIsAccepted(ts, tree);
    }
  }

  /** The grammar is unambiguous: the tokens determine the tree. */
  lemma GrammarUnambiguous(ts: seq<Token>, a: seq<SectionTree>, b: seq<SectionTree>)
    requires DerivedBy(ts, a) && DerivedBy(ts, b)
    ensures a == b
  {
    DerivedIsAccepted(ts, a);
    DerivedIsAccepted(ts, b);
  }

}
