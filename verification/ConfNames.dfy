/**
  Names are written bare and can be read back only from identifiers or from
  quotes (libcore/conf.c with libcore/confparser.c).  A configuration with a
  name that is not an identifier therefore never comes back: there are not enough
  quoted tokens in its text for all its names and strings.
 */
module ConfNames {
  import opened Wrappers
  import opened ConfScan
  import opened ConfGrammar
  import opened ConfStore
  import opened ConfText
  import opened ConfRoundTrip

  function Bit(b: bool): nat {
    if b then 1 else 0
  }

  // ---------------------------------------------------------------------
  // How often a string occurs
  // ---------------------------------------------------------------------

  function CountStrings(l: seq<string>, n: string): nat {
    if l == [] then 0 else Bit(l[0] == n) + CountStrings(l[1..], n)
  }

  function Elements(v: Value): seq<string> {
    match v
    case VString(s) => [s]
    case VList(l) => l
    case _ => []
  }

  function CountKey(k: KeyEntry, n: string): nat {
    Bit(k.key == n) + CountStrings(Elements(k.value), n)
  }

  function CountKeys(keys: seq<KeyEntry>, n: string): nat {
    if keys == [] then 0 else CountKey(keys[0], n) + CountKeys(keys[1..], n)
  }

  function CountSection(s: SectionEntry, n: string): nat {
    Bit(s.name == n) + CountKeys(s.keys, n)
  }

  /** The names and strings of a store that are n. */
  function CountStore(st: seq<SectionEntry>, n: string): nat {
    if st == [] then 0 else CountSection(st[0], n) + CountStore(st[1..], n)
  }

  function ElementsInKeys(keys: seq<KeyEntry>, n: string): nat {
    if keys == [] then 0 else CountStrings(Elements(keys[0].value), n) + ElementsInKeys(keys[1..], n)
  }

  /** The strings of a store that are n, without its names. */
  function ElementsIn(st: seq<SectionEntry>, n: string): nat {
    if st == [] then 0 else ElementsInKeys(st[0].keys, n) + ElementsIn(st[1..], n)
  }

  predicate Reads(t: Token, n: string) {
    t.kind == TString && CString(t.text) == n
  }

  /** The string tokens that are read as n. */
  function CountTokens(ts: seq<Token>, n: string): nat {
    if ts == [] then 0 else Bit(Reads(ts[0], n)) + CountTokens(ts[1..], n)
  }

  lemma {:induction false} CountTokensConcat(a: seq<Token>, b: seq<Token>, n: string)
    ensures CountTokens(a + b, n) == CountTokens(a, n) + CountTokens(b, n)
  {
    if a == [] {
      assert a + b == b;
    } else {
      assert (a + b)[0] == a[0] && (a + b)[1..] == a[1..] + b;
      CountTokensConcat(a[1..], b, n);
    }
  }

  // ---------------------------------------------------------------------
  // A loaded store has no more occurrences than there are tokens
  // ---------------------------------------------------------------------

  function CountMore(more: seq<(Separator, string)>, n: string): nat {
    if more == [] then 0 else Bit(CString(more[0].1) == n) + CountMore(more[1..], n)
  }

  function CountValueTree(v: ValueTree, n: string): nat {
    match v
    case IntTree(_) => 0
    case StringTree(first, more) => Bit(CString(first) == n) + CountMore(more, n)
  }

  function CountDefinitions(ds: seq<DefinitionTree>, n: string): nat {
    if ds == [] then 0
    else Bit(CString(ds[0].key) == n) + CountValueTree(ds[0].value, n) + CountDefinitions(ds[1..], n)
  }

  function CountSections(ss: seq<SectionTree>, n: string): nat {
    if ss == [] then 0
    else Bit(CString(ss[0].name) == n) + CountDefinitions(ss[0].definitions, n) + CountSections(ss[1..], n)
  }

  lemma {:induction false} CountMoreStrings(more: seq<(Separator, string)>, n: string)
    ensures CountStrings(Strings(more), n) == CountMore(more, n)
  {
    if more != [] {
      CountMoreStrings(more[1..], n);
      assert Strings(more)[1..] == Strings(more[1..]);
    }
  }

  lemma CountValueOf(v: ValueTree, n: string)
    ensures CountStrings(Elements(ValueOf(v)), n) == CountValueTree(v, n)
  {
    match v
    case IntTree(_) =>
    case StringTree(first, more) =>
      CountMoreStrings(more, n);
      var l := [CString(first)] + Strings(more);
      assert l[1..] == Strings(more);
      assert [CString(first)][1..] == [];
  }

  lemma {:induction false} CountMoreTokens(more: seq<(Separator, string)>, n: string)
    ensures CountTokens(YieldMore(more), n) == CountMore(more, n)
  {
    if more != [] {
      var ts := YieldMore(more);
      assert ts[1..][1..] == YieldMore(more[1..]);
      assert ts[0] == YieldSeparator(more[0].0) && ts[1..][0] == Token(TString, more[0].1);
      CountMoreTokens(more[1..], n);
    }
  }

  lemma CountDefinitionTokens(d: DefinitionTree, n: string)
    ensures CountTokens(YieldDefinition(d), n) == Bit(CString(d.key) == n) + CountValueTree(d.value, n)
  {
    var head := [Token(TString, d.key), Token(TEqual, "=")];
    assert head[1..] == [Token(TEqual, "=")] && head[1..][1..] == [];
    CountTokensConcat(head, YieldValue(d.value), n);
    match d.value
    case IntTree(digits) => assert [Token(TInteger, digits)][1..] == [];
    case StringTree(first, more) =>
      var f := [Token(TString, first)];
      assert f[1..] == [];
      CountTokensConcat(f, YieldMore(more), n);
      CountMoreTokens(more, n);
  }

  lemma {:induction false} CountDefinitionsTokens(ds: seq<DefinitionTree>, n: string)
    ensures CountTokens(YieldDefinitions(ds), n) == CountDefinitions(ds, n)
  {
    if ds != [] {
      CountDefinitionTokens(ds[0], n);
      CountTokensConcat(YieldDefinition(ds[0]), YieldDefinitions(ds[1..]), n);
      CountDefinitionsTokens(ds[1..], n);
    }
  }

  lemma CountHeaderTokens(name: string, n: string)
    ensures CountTokens(YieldHeader(name), n) == Bit(CString(name) == n)
  {
    var ts := YieldHeader(name);
    assert ts[1..][0] == Token(TString, name) && ts[1..][1..] == [Token(TRight, "]")];
    assert [Token(TRight, "]")][1..] == [];
    assert CountTokens([Token(TRight, "]")], n) == 0;
    assert CountTokens(ts[1..], n) == Bit(CString(name) == n);
  }

  lemma {:induction false} CountSectionsTokens(ss: seq<SectionTree>, n: string)
    ensures CountTokens(YieldSections(ss), n) == CountSections(ss, n)
  {
    if ss != [] {
      var head, body := YieldHeader(ss[0].name), YieldDefinitions(ss[0].definitions);
      CountHeaderTokens(ss[0].name, n);
      CountDefinitionsTokens(ss[0].definitions, n);
      CountTokensConcat(head, body, n);
      CountTokensConcat(head + body, YieldSections(ss[1..]), n);
      CountSectionsTokens(ss[1..], n);
    }
  }

  lemma {:induction false} CountKeysSnoc(keys: seq<KeyEntry>, k: KeyEntry, n: string)
    ensures CountKeys(keys + [k], n) == CountKeys(keys, n) + CountKey(k, n)
  {
    if keys == [] {
      assert [] + [k] == [k] && [k][1..] == [];
    } else {
      assert (keys + [k])[1..] == keys[1..] + [k];
      CountKeysSnoc(keys[1..], k, n);
    }
  }

  lemma {:induction false} CountStoreSnoc(st: seq<SectionEntry>, s: SectionEntry, n: string)
    ensures CountStore(st + [s], n) == CountStore(st, n) + CountSection(s, n)
  {
    if st == [] {
      assert [] + [s] == [s] && [s][1..] == [];
    } else {
      assert (st + [s])[1..] == st[1..] + [s];
      CountStoreSnoc(st[1..], s, n);
    }
  }

  lemma {:induction false} CountStoreUpdate(st: seq<SectionEntry>, i: nat, s: SectionEntry, n: string)
    requires i < |st|
    ensures CountStore(st[i := s], n) + CountSection(st[i], n) == CountStore(st, n) + CountSection(s, n)
  {
    if i == 0 {
      assert st[0 := s][1..] == st[1..];
    } else {
      assert st[i := s][1..] == st[1..][i - 1 := s];
      CountStoreUpdate(st[1..], i - 1, s, n);
    }
  }

  lemma AddCount(st: seq<SectionEntry>, d: Definition, n: string)
    ensures CountStore(Add(st, d).0, n)
         <= CountStore(st, n) + (if SectionIndex(st, d.section) == |st| then Bit(d.section == n) else 0)
            + CountKey(KeyEntry(d.key, d.value), n)
    ensures Add(st, d).1 ==> SectionIndex(Add(st, d).0, d.section) < |Add(st, d).0|
  {
    var i, k := SectionIndex(st, d.section), KeyEntry(d.key, d.value);
    var t := Add(st, d).0;
    if i == |st| {
      CountStoreSnoc(st, SectionEntry(d.section, [k]), n);
      assert [k][1..] == [];
      assert CountKeys([k], n) == CountKey(k, n);
      assert t[|st|].name == d.section;
    } else if Add(st, d).1 {
      CountStoreUpdate(st, i, SectionEntry(d.section, st[i].keys + [k]), n);
      CountKeysSnoc(st[i].keys, k, n);
      assert t[i].name == d.section;
    }
  }

  lemma {:induction false} SectionCount(st: seq<SectionEntry>, section: string, ds: seq<DefinitionTree>, n: string)
    ensures CountStore(AddAll(st, DeliveredIn(section, ds)).0, n)
         <= CountStore(st, n) + (if SectionIndex(st, CString(section)) == |st| then Bit(CString(section) == n) else 0)
            + CountDefinitions(ds, n)
    decreases |ds|
  {
    if ds != [] {
      var d := Definition(CString(section), CString(ds[0].key), ValueOf(ds[0].value));
      assert DeliveredIn(section, ds)[1..] == DeliveredIn(section, ds[1..]);
      AddCount(st, d, n);
      CountValueOf(ds[0].value, n);
      if Add(st, d).1 {
        SectionCount(Add(st, d).0, section, ds[1..], n);
      }
    }
  }

  lemma {:induction false} TreesCount(st: seq<SectionEntry>, ss: seq<SectionTree>, n: string)
    ensures CountStore(AddAll(st, Delivered(ss)).0, n) <= CountStore(st, n) + CountSections(ss, n)
    decreases |ss|
  {
    if ss != [] {
      var a, b := DeliveredIn(ss[0].name, ss[0].definitions), Delivered(ss[1..]);
      SectionCount(st, ss[0].name, ss[0].definitions, n);
      AddAllSplit(st, a, b);
      if AddAll(st, a).1 == |a| {
        TreesCount(AddAll(st, a).0, ss[1..], n);
      }
    }
  }

  /** Every name and string of a loaded store was read from a token of its own. */
  lemma LoadedFromTokens(text: string, n: string)
    ensures CountStore(Load([], text).0, n) <= CountTokens(Lex(TNone, text), n)
  {
    var ts := Lex(TNone, text);
    var trees := Parse(ts).trees;
    ParserRecognisesGrammar(TNone, text);
    var y := YieldSections(trees);
    TreesCount([], trees, n);
    CountSectionsTokens(trees, n);
    assert ts == y + ts[|y|..];
    CountTokensConcat(y, ts[|y|..], n);
  }

  // ---------------------------------------------------------------------
  // The quoted pieces of a text
  // ---------------------------------------------------------------------

  /**
    The pieces between two quotes that are read as n.  A quote that ends a piece
    begins the next one if loose, and is outside of any otherwise.
   */
  function Closed(s: string, inside: bool, piece: string, n: string, loose: bool): nat {
    if s == "" then 0
    else if s[0] == '"' then
      if inside then Bit(CString(piece) == n) + Closed(s[1..], loose, "", n, loose)
      else Closed(s[1..], true, "", n, loose)
    else Closed(s[1..], inside, if inside then piece + [s[0]] else "", n, loose)
  }

  /** Outside the quotes there is no comment. */
  predicate NoComment(s: string, inside: bool) {
    if s == "" then true
    else if s[0] == '"' then NoComment(s[1..], !inside)
    else (inside || s[0] != '#') && NoComment(s[1..], inside)
  }

  lemma {:induction false} LooseInside(s: string, piece: string, n: string)
    ensures Closed(s, false, "", n, true) <= Closed(s, true, piece, n, true)
  {
    if s != "" && s[0] != '"' {
      LooseInside(s[1..], piece + [s[0]], n);
    }
  }

  /** Outside the quotes a character that is no quote does not count, nor begin a comment if there is none. */
  lemma OutsideStep(s: string, n: string, loose: bool)
    requires s != "" && s[0] != '"'
    ensures Closed(s, false, "", n, loose) == Closed(s[1..], false, "", n, loose)
    ensures NoComment(s, false) ==> NoComment(s[1..], false) && s[0] != '#'
  {
  }

  /** What the scan from state st may still count. */
  function Pending(st: ScanState, text: string, s: string, n: string, loose: bool): nat {
    if st == SString then Closed(s, true, text, n, loose) else Closed(s, false, "", n, loose)
  }

  /** What must hold when the scan is in state st. */
  predicate ScanReady(st: ScanState, text: string, s: string, loose: bool) {
    && (st == SInitial || st == SSpace || st == SComment ==> text == "")
    && (st == SIdentifier ==> Identifier(text))
    && (loose || (st != SComment && NoComment(s, st == SString)))
  }

  /** A token read as n, unless n is an identifier, is one of the closed pieces that its scan passes. */
  lemma {:induction false} ScanClosed(st: ScanState, text: string, s: string, previous: Kind, n: string, loose: bool)
    requires !Identifier(n) && ScanReady(st, text, s, loose)
    ensures var r := Scan(st, text, s, previous);
            && Bit(Reads(r.0, n)) + Closed(r.1, false, "", n, loose) <= Pending(st, text, s, n, loose)
            && (loose || NoComment(r.1, false))
    decreases |s|, if st == SSpace then 3 else 1
  {
    if s != "" {
      match st
      case SInitial => InitialClosed(s, previous, n, loose);
      case SSpace => SpaceClosed(s, previous, n, loose);
      case SComment => CommentClosed(s, previous, n, loose);
      case SString => StringClosed(text, s, previous, n, loose);
      case SIdentifier => IdentifierClosed(text, s, previous, n, loose);
      case SInteger => IntegerClosed(text, s, previous, n, loose);
    }
  }

  lemma {:induction false} SpaceClosed(s: string, previous: Kind, n: string, loose: bool)
    requires s != "" && !Identifier(n) && ScanReady(SSpace, "", s, loose)
    ensures var r := Scan(SSpace, "", s, previous);
            && Bit(Reads(r.0, n)) + Closed(r.1, false, "", n, loose) <= Closed(s, false, "", n, loose)
            && (loose || NoComment(r.1, false))
    decreases |s|, 2
  {
    if !IsSpace(s[0]) {
      ScanClosed(SInitial, "", s, previous, n, loose);
    } else {
      OutsideStep(s, n, loose);
      ScanClosed(SSpace, "", s[1..], previous, n, loose);
    }
  }

  lemma {:induction false} CommentClosed(s: string, previous: Kind, n: string, loose: bool)
    requires s != "" && !Identifier(n) && ScanReady(SComment, "", s, loose)
    ensures var r := Scan(SComment, "", s, previous);
            && Bit(Reads(r.0, n)) + Closed(r.1, false, "", n, loose) <= Closed(s, false, "", n, loose)
            && (loose || NoComment(r.1, false))
    decreases |s|, 0
  {
    CommentStep(s, n);
    ScanClosed(if s[0] == '\n' then SInitial else SComment, "", s[1..], previous, n, loose);
  }

  lemma {:induction false} StringClosed(text: string, s: string, previous: Kind, n: string, loose: bool)
    requires s != "" && !Identifier(n) && ScanReady(SString, text, s, loose)
    ensures var r := Scan(SString, text, s, previous);
            && Bit(Reads(r.0, n)) + Closed(r.1, false, "", n, loose) <= Closed(s, true, text, n, loose)
            && (loose || NoComment(r.1, false))
    decreases |s|, 0
  {
    if s[0] != '"' {
      ScanClosed(SString, text + [s[0]], s[1..], previous, n, loose);
    } else {
      StringEnds(s, text, n, loose);
    }
  }

  lemma {:induction false} IdentifierClosed(text: string, s: string, previous: Kind, n: string, loose: bool)
    requires s != "" && !Identifier(n) && ScanReady(SIdentifier, text, s, loose)
    ensures var r := Scan(SIdentifier, text, s, previous);
            && Bit(Reads(r.0, n)) + Closed(r.1, false, "", n, loose) <= Closed(s, false, "", n, loose)
            && (loose || NoComment(r.1, false))
    decreases |s|, 0
  {
    if IsIdentifier(s[0]) {
      OutsideStep(s, n, loose);
      ScanClosed(SIdentifier, text + [s[0]], s[1..], previous, n, loose);
    } else {
      IdentifierIsCString(text);
    }
  }

  lemma {:induction false} IntegerClosed(text: string, s: string, previous: Kind, n: string, loose: bool)
    requires s != "" && !Identifier(n) && ScanReady(SInteger, text, s, loose)
    ensures var r := Scan(SInteger, text, s, previous);
            && Bit(Reads(r.0, n)) + Closed(r.1, false, "", n, loose) <= Closed(s, false, "", n, loose)
            && (loose || NoComment(r.1, false))
    decreases |s|, 0
  {
    if IsDigit(s[0]) {
      OutsideStep(s, n, loose);
      ScanClosed(SInteger, text + [s[0]], s[1..], previous, n, loose);
    }
  }

  lemma StringEnds(s: string, text: string, n: string, loose: bool)
    requires s != "" && s[0] == '"'
    ensures Bit(CString(text) == n) + Closed(s[1..], false, "", n, loose) <= Closed(s, true, text, n, loose)
  {
    LooseInside(s[1..], "", n);
  }

  lemma CommentStep(s: string, n: string)
    requires s != ""
    ensures Closed(s[1..], false, "", n, true) <= Closed(s, false, "", n, true)
  {
    LooseInside(s[1..], "", n);
  }

  lemma {:induction false} InitialClosed(s: string, previous: Kind, n: string, loose: bool)
    requires s != "" && !Identifier(n) && ScanReady(SInitial, "", s, loose)
    ensures var r := Scan(SInitial, "", s, previous);
            && Bit(Reads(r.0, n)) + Closed(r.1, false, "", n, loose) <= Closed(s, false, "", n, loose)
            && (loose || NoComment(r.1, false))
    decreases |s|, 0
  {
    var c, rest := s[0], s[1..];
    if c == '"' {
      ScanClosed(SString, "", rest, previous, n, loose);
    } else {
      OutsideStep(s, n, loose);
      if GoesOn(c, previous) {
        var st, text := Entered(s, previous, loose);
        ScanClosed(st, text, rest, previous, n, loose);
      }
    }
  }

  /** Whether the scan goes on after its first character. */
  predicate GoesOn(c: char, previous: Kind) {
    IsBlank(c) || c == '#' || c == '"' || IsFirstIdentifier(c) || IsDigit(c) || (previous != TEqual && !IsPunctuation(c))
  }

  /** The state entered by a first character that is no quote. */
  lemma Entered(s: string, previous: Kind, loose: bool) returns (st: ScanState, text: string)
    requires s != "" && s[0] != '"' && GoesOn(s[0], previous) && ScanReady(SInitial, "", s, loose)
    ensures Scan(SInitial, "", s, previous) == Scan(st, text, s[1..], previous)
    ensures st != SString && ScanReady(st, text, s[1..], loose)
  {
    var c := s[0];
    assert "" + [c] == [c];
    st, text := SInitial, "";
    if IsBlank(c) { st := SSpace; }
    else if c == '#' { st := SComment; }
    else if IsFirstIdentifier(c) { st, text := SIdentifier, [c]; }
    else if IsDigit(c) { st, text := SInteger, [c]; }
  }

  lemma {:induction false} LexClosed(previous: Kind, s: string, n: string, loose: bool)
    requires !Identifier(n) && (loose || NoComment(s, false))
    ensures CountTokens(Lex(previous, s), n) <= Closed(s, false, "", n, loose)
    decreases |s|
  {
    var r := NextToken(s, previous);
    ScanClosed(SInitial, "", s, previous, n, loose);
    if Stop(r.0.kind) {
      assert [r.0][1..] == [];
    } else {
      LexClosed(r.0.kind, r.1, n, loose);
      assert Lex(previous, s)[1..] == Lex(r.0.kind, r.1);
    }
  }

  /** No piece has a quote. */
  lemma {:induction false} ClosedQuoteFree(s: string, inside: bool, piece: string, n: string, loose: bool)
    requires !QuoteFree(n) && QuoteFree(piece)
    ensures Closed(s, inside, piece, n, loose) == 0
    decreases |s|
  {
    if s != "" {
      CStringPrefix(piece);
      if s[0] == '"' {
        ClosedQuoteFree(s[1..], if inside then loose else true, "", n, loose);
      } else {
        ClosedQuoteFree(s[1..], inside, if inside then piece + [s[0]] else "", n, loose);
      }
    }
  }

  lemma {:induction false} CStringPrefix(s: string)
    ensures CString(s) <= s
  {
    if s != "" && s[0] != '\0' {
      CStringPrefix(s[1..]);
      assert s == [s[0]] + s[1..];
    }
  }

  // ---------------------------------------------------------------------
  // The pieces of a saved text
  // ---------------------------------------------------------------------

  // A string that is written as it is.
  predicate Bare(s: string) {
    QuoteFree(s) && '\0' !in s
  }

  /**
    The state of the count between two strings: in the loose count the piece so
    far is not n, and cannot become n before the next string.
   */
  predicate Between(piece: string, n: string, loose: bool) {
    if loose then Bare(piece) && ('#' in piece ==> |piece| > |n|) else piece == ""
  }

  /** What n and the names must be for the count: in the loose one, n is a shortest string with a '#' among the names. */
  predicate Suits(name: string, n: string, loose: bool) {
    && Bare(name)
    && (if loose then '#' in n && ('#' in name ==> |name| >= |n|) else '#' !in name)
  }

  lemma BetweenGrows(piece: string, a: string, n: string, loose: bool)
    requires Between(piece, n, loose) && (loose ==> Bare(a) && ('#' in a ==> |a| > |n|))
    ensures Between(if loose then piece + a else "", n, loose)
  {
    if loose {
      forall c | c in piece + a ensures c in piece || c in a {
      }
    }
  }

  // Bare text between two strings leads from piece to piece'.
  lemma {:induction false} PlainText(a: string, b: string, piece: string, n: string, loose: bool)
    requires QuoteFree(a) && (!loose ==> piece == "" && '#' !in a)
    ensures Closed(a + b, loose, piece, n, loose) == Closed(b, loose, if loose then piece + a else "", n, loose)
    ensures !loose ==> NoComment(a + b, false) == NoComment(b, false)
    decreases |a|
  {
    if a == "" {
      assert a + b == b && piece + a == piece;
    } else {
      assert (a + b)[0] == a[0] && (a + b)[1..] == a[1..] + b;
      PlainText(a[1..], b, if loose then piece + [a[0]] else "", n, loose);
      assert piece + [a[0]] + a[1..] == piece + a;
    }
  }

  lemma {:induction false} InsideText(e: string, b: string, piece: string, n: string, loose: bool)
    requires QuoteFree(e)
    ensures Closed(e + ("\"" + b), true, piece, n, loose)
         == Bit(CString(piece + e) == n) + Closed(b, loose, "", n, loose)
    ensures NoComment(e + ("\"" + b), true) == NoComment(b, false)
    decreases |e|
  {
    var s := e + ("\"" + b);
    if e == "" {
      assert s[0] == '"' && s[1..] == b && piece + e == piece;
    } else {
      assert s[0] == e[0] && s[1..] == e[1..] + ("\"" + b);
      InsideText(e[1..], b, piece + [e[0]], n, loose);
      assert piece + [e[0]] + e[1..] == piece + e;
    }
  }

  /** A string between quotes is one closed piece. */
  lemma QuotedText(e: string, b: string, piece: string, n: string, loose: bool)
    requires Bare(e) && Between(piece, n, loose) && (loose ==> '#' in n)
    ensures Closed(Quoted(e) + b, loose, piece, n, loose) == Bit(e == n) + Closed(b, loose, "", n, loose)
    ensures NoComment(Quoted(e) + b, false) == NoComment(b, false)
  {
    var s := Quoted(e) + b;
    assert s[0] == '"' && s[1..] == e + ("\"" + b);
    InsideText(e, b, "", n, loose);
    assert "" + e == e;
  }

  // The strings of a value, and a name, can be written.
  predicate BareValue(v: Value) {
    forall i :: 0 <= i < |Elements(v)| ==> Bare(Elements(v)[i])
  }

  lemma {:induction false} MoreText(l: seq<string>, b: string, n: string, loose: bool)
    requires (forall i :: 0 <= i < |l| ==> Bare(l[i])) && (loose ==> '#' in n)
    ensures Closed(PrintMore(l) + b, loose, "", n, loose) == CountStrings(l, n) + Closed(b, loose, "", n, loose)
    ensures !loose ==> NoComment(PrintMore(l) + b, false) == NoComment(b, false)
    decreases |l|
  {
    if l == [] {
      assert PrintMore(l) + b == b;
    } else {
      var rest := PrintMore(l[1..]) + b;
      assert PrintMore(l) + b == "; " + (Quoted(l[0]) + rest);
      PlainText("; ", Quoted(l[0]) + rest, "", n, loose);
      BetweenGrows("", "; ", n, loose);
      QuotedText(l[0], rest, if loose then "" + "; " else "", n, loose);
      MoreText(l[1..], b, n, loose);
    }
  }

  /** The text of a value closes its strings as pieces, and no others; piece' is what it leaves. */
  lemma ValueText(v: Value, b: string, piece: string, n: string, loose: bool) returns (piece': string)
    requires BareValue(v) && Between(piece, n, loose) && (loose ==> '#' in n)
    ensures Between(piece', n, loose)
    ensures Closed(PrintValue(v) + b, loose, piece, n, loose)
         == CountStrings(Elements(v), n) + Closed(b, loose, piece', n, loose)
    ensures !loose ==> NoComment(PrintValue(v) + b, false) == NoComment(b, false)
  {
    match v
    case VVoid =>
      assert PrintValue(v) + b == b;
      piece' := piece;
    case VInt(i) =>
      PrintIntPlain(i);
      PlainText(" " + PrintInt(i), b, piece, n, loose);
      BetweenGrows(piece, " " + PrintInt(i), n, loose);
      piece' := if loose then piece + (" " + PrintInt(i)) else "";
    case VString(s) =>
      assert Elements(v)[0] == s;
      FirstText(s, b, piece, n, loose);
      assert [s][1..] == [];
      piece' := "";
    case VList(l) =>
      if l == [] {
        assert PrintValue(v) + b == b;
        piece' := piece;
      } else {
        forall i | 0 <= i < |l| ensures Bare(l[i]) {
          assert Elements(v)[i] == l[i];
        }
        ListText(l, b, piece, n, loose);
        piece' := "";
      }
  }

  lemma ListText(l: seq<string>, b: string, piece: string, n: string, loose: bool)
    requires l != [] && (forall i :: 0 <= i < |l| ==> Bare(l[i]))
    requires Between(piece, n, loose) && (loose ==> '#' in n)
    ensures Closed(PrintValue(VList(l)) + b, loose, piece, n, loose) == CountStrings(l, n) + Closed(b, loose, "", n, loose)
    ensures !loose ==> NoComment(PrintValue(VList(l)) + b, false) == NoComment(b, false)
  {
    var rest := PrintMore(l[1..]) + b;
    assert PrintValue(VList(l)) + b == " " + Quoted(l[0]) + rest;
    FirstText(l[0], rest, piece, n, loose);
    MoreText(l[1..], b, n, loose);
  }

  lemma FirstText(e: string, b: string, piece: string, n: string, loose: bool)
    requires Bare(e) && Between(piece, n, loose) && (loose ==> '#' in n)
    ensures Closed(" " + Quoted(e) + b, loose, piece, n, loose) == Bit(e == n) + Closed(b, loose, "", n, loose)
    ensures !loose ==> NoComment(" " + Quoted(e) + b, false) == NoComment(b, false)
  {
    assert " " + Quoted(e) + b == " " + (Quoted(e) + b);
    PlainText(" ", Quoted(e) + b, piece, n, loose);
    BetweenGrows(piece, " ", n, loose);
    QuotedText(e, b, if loose then piece + " " else "", n, loose);
  }

  lemma {:induction false} DecimalPlain(i: nat)
    ensures forall k :: 0 <= k < |Decimal(i)| ==> IsDigit(Decimal(i)[k])
    decreases i
  {
    if i >= 10 {
      DecimalPlain(i / 10);
    }
  }

  lemma PrintIntPlain(i: int)
    ensures Bare(PrintInt(i)) && '#' !in PrintInt(i)
  {
    DecimalPlain(if i < 0 then -i else i);
  }

  lemma KeyText(k: KeyEntry, b: string, piece: string, n: string, loose: bool) returns (piece': string)
    requires Suits(k.key, n, loose) && BareValue(k.value) && Between(piece, n, loose)
    ensures Between(piece', n, loose)
    ensures Closed(PrintDefinition(k) + b, loose, piece, n, loose)
         == CountStrings(Elements(k.value), n) + Closed(b, loose, piece', n, loose)
    ensures !loose ==> NoComment(PrintDefinition(k) + b, false) == NoComment(b, false)
  {
    var head, value := k.key + " =", PrintValue(k.value);
    assert PrintDefinition(k) + b == head + (value + ("\n" + b));
    PlainText(head, value + ("\n" + b), piece, n, loose);
    BetweenGrows(piece, head, n, loose);
    var p := ValueText(k.value, "\n" + b, if loose then piece + head else "", n, loose);
    PlainText("\n", b, p, n, loose);
    BetweenGrows(p, "\n", n, loose);
    piece' := if loose then p + "\n" else "";
  }

  lemma {:induction false} KeysText(keys: seq<KeyEntry>, b: string, piece: string, n: string, loose: bool)
      returns (piece': string)
    requires forall i :: 0 <= i < |keys| ==> Suits(keys[i].key, n, loose) && BareValue(keys[i].value)
    requires Between(piece, n, loose)
    ensures Between(piece', n, loose)
    ensures Closed(PrintKeys(keys) + b, loose, piece, n, loose)
         == ElementsInKeys(keys, n) + Closed(b, loose, piece', n, loose)
    ensures !loose ==> NoComment(PrintKeys(keys) + b, false) == NoComment(b, false)
    decreases |keys|
  {
    if keys == [] {
      assert PrintKeys(keys) + b == b;
      piece' := piece;
    } else {
      assert PrintKeys(keys) + b == PrintDefinition(keys[0]) + (PrintKeys(keys[1..]) + b);
      var p := KeyText(keys[0], PrintKeys(keys[1..]) + b, piece, n, loose);
      piece' := KeysText(keys[1..], b, p, n, loose);
    }
  }

  ghost predicate SuitsAll(st: seq<SectionEntry>, n: string, loose: bool) {
    forall i :: 0 <= i < |st| ==>
      && Suits(st[i].name, n, loose)
      && forall j :: 0 <= j < |st[i].keys| ==> Suits(st[i].keys[j].key, n, loose) && BareValue(st[i].keys[j].value)
  }

  lemma FromShape(last: Option<string>, st: seq<SectionEntry>)
    requires st != [] && st[0].keys != []
    ensures PrintFrom(last, st)
         == SectionHead(last, st[0]) + (PrintKeys(st[0].keys) + PrintFrom(Some(st[0].name), st[1..]))
  {
  }

  lemma SuitsTail(st: seq<SectionEntry>, n: string, loose: bool)
    requires st != [] && SuitsAll(st, n, loose)
    ensures SuitsAll(st[1..], n, loose)
    ensures Suits(st[0].name, n, loose)
    ensures forall j :: 0 <= j < |st[0].keys| ==> Suits(st[0].keys[j].key, n, loose) && BareValue(st[0].keys[j].value)
  {
  }

  /** The closed pieces of a saved text that are n are strings of the store. */
  lemma {:induction false} StoreText(last: Option<string>, st: seq<SectionEntry>, piece: string, n: string, loose: bool)
    requires SuitsAll(st, n, loose) && Between(piece, n, loose)
    ensures Closed(PrintFrom(last, st), loose, piece, n, loose) <= ElementsIn(st, n)
    ensures !loose ==> NoComment(PrintFrom(last, st), false)
    decreases |st|
  {
    if st != [] {
      var s := st[0];
      SuitsTail(st, n, loose);
      if s.keys == [] {
        StoreText(last, st[1..], piece, n, loose);
      } else {
        var rest := PrintFrom(Some(s.name), st[1..]);
        FromShape(last, st);
        var p := HeadText(last, s, PrintKeys(s.keys) + rest, piece, n, loose);
        var q := KeysText(s.keys, rest, p, n, loose);
        StoreText(Some(s.name), st[1..], q, n, loose);
      }
    }
  }

  function SectionHead(last: Option<string>, s: SectionEntry): string {
    if last == Some(s.name) then "" else PrintHeader(s.name)
  }

  lemma HeadText(last: Option<string>, s: SectionEntry, b: string, piece: string, n: string, loose: bool)
      returns (piece': string)
    requires Suits(s.name, n, loose) && Between(piece, n, loose)
    ensures Between(piece', n, loose)
    ensures Closed(SectionHead(last, s) + b, loose, piece, n, loose) == Closed(b, loose, piece', n, loose)
    ensures !loose ==> NoComment(SectionHead(last, s) + b, false) == NoComment(b, false)
  {
    PlainText(SectionHead(last, s), b, piece, n, loose);
    BetweenGrows(piece, SectionHead(last, s), n, loose);
    piece' := if loose then piece + SectionHead(last, s) else "";
  }

  // ---------------------------------------------------------------------
  // Names that are not identifiers
  // ---------------------------------------------------------------------

  ghost predicate HasName(st: seq<SectionEntry>, n: string) {
    exists i :: 0 <= i < |st| && NameIn(st[i], n)
  }

  ghost predicate NameIn(s: SectionEntry, n: string) {
    s.name == n || exists j :: 0 <= j < |s.keys| && s.keys[j].key == n
  }

  lemma {:induction false} KeysSplit(keys: seq<KeyEntry>, n: string)
    ensures CountKeys(keys, n) >= ElementsInKeys(keys, n)
    ensures (exists j :: 0 <= j < |keys| && keys[j].key == n) ==> CountKeys(keys, n) > ElementsInKeys(keys, n)
  {
    if keys != [] {
      KeysSplit(keys[1..], n);
      if j :| 0 <= j < |keys| && keys[j].key == n {
        if j > 0 {
          assert keys[1..][j - 1].key == n;
        }
      }
    }
  }

  /** A name occurs once more than it does as a string. */
  lemma {:induction false} NameCounts(st: seq<SectionEntry>, n: string)
    ensures CountStore(st, n) >= ElementsIn(st, n)
    ensures HasName(st, n) ==> CountStore(st, n) > ElementsIn(st, n)
    decreases |st|
  {
    if st != [] {
      NameCounts(st[1..], n);
      KeysSplit(st[0].keys, n);
      if i :| 0 <= i < |st| && NameIn(st[i], n) {
        if i > 0 {
          assert NameIn(st[1..][i - 1], n);
        }
      }
    }
  }

  lemma {:induction false} StringCounts(l: seq<string>, i: nat)
    requires i < |l|
    ensures CountStrings(l, l[i]) > 0
  {
    if i > 0 {
      StringCounts(l[1..], i - 1);
    }
  }

  lemma {:induction false} ElementCounts(keys: seq<KeyEntry>, j: nat, i: nat)
    requires j < |keys| && i < |Elements(keys[j].value)|
    ensures ElementsInKeys(keys, Elements(keys[j].value)[i]) > 0
    decreases j
  {
    if j == 0 {
      StringCounts(Elements(keys[0].value), i);
    } else {
      ElementCounts(keys[1..], j - 1, i);
    }
  }

  lemma {:induction false} ElementInCounts(st: seq<SectionEntry>, k: nat, j: nat, i: nat)
    requires k < |st| && j < |st[k].keys| && i < |Elements(st[k].keys[j].value)|
    ensures ElementsIn(st, Elements(st[k].keys[j].value)[i]) > 0
    decreases k
  {
    if k == 0 {
      ElementCounts(st[0].keys, j, i);
    } else {
      ElementInCounts(st[1..], k - 1, j, i);
    }
  }

  /** What a configuration can hold: C strings and 32-bit integers. */
  ghost predicate Holdable(st: seq<SectionEntry>) {
    forall i :: 0 <= i < |st| ==>
      && '\0' !in st[i].name
      && forall j :: 0 <= j < |st[i].keys| ==> '\0' !in st[i].keys[j].key && ValidValue(st[i].keys[j].value)
  }

  /** What comes back has no double quote in a name or string. */
  lemma NoQuoteComesBack(st: seq<SectionEntry>, n: string)
    requires Load([], Print(st)).0 == st && !QuoteFree(n)
    ensures CountStore(st, n) == 0
  {
    LoadedFromTokens(Print(st), n);
    LexClosed(TNone, Print(st), n, true);
    ClosedQuoteFree(Print(st), false, "", n, true);
  }

  lemma ComesBackBare(st: seq<SectionEntry>)
    requires Holdable(st) && Load([], Print(st)).0 == st
    ensures AllBare(st)
  {
    forall i | 0 <= i < |st| ensures Bare(st[i].name) {
      assert NameIn(st[i], st[i].name);
      NameComesBackBare(st, st[i].name);
    }
    forall i, j | 0 <= i < |st| && 0 <= j < |st[i].keys| ensures Bare(st[i].keys[j].key) && BareValue(st[i].keys[j].value) {
      assert NameIn(st[i], st[i].keys[j].key);
      NameComesBackBare(st, st[i].keys[j].key);
      ValueComesBackBare(st, i, j);
    }
  }

  lemma NameComesBackBare(st: seq<SectionEntry>, n: string)
    requires Holdable(st) && Load([], Print(st)).0 == st && HasName(st, n)
    ensures Bare(n)
  {
    NameCounts(st, n);
    if !QuoteFree(n) {
      NoQuoteComesBack(st, n);
    }
  }

  lemma ValueComesBackBare(st: seq<SectionEntry>, i: nat, j: nat)
    requires Holdable(st) && Load([], Print(st)).0 == st && i < |st| && j < |st[i].keys|
    ensures BareValue(st[i].keys[j].value)
  {
    var v := st[i].keys[j].value;
    forall k | 0 <= k < |Elements(v)| ensures Bare(Elements(v)[k]) {
      ElementInCounts(st, i, j, k);
      NameCounts(st, Elements(v)[k]);
      if !QuoteFree(Elements(v)[k]) {
        NoQuoteComesBack(st, Elements(v)[k]);
      }
    }
  }

  /** There are not enough tokens for a name that suits the count and is not an identifier. */
  lemma TooFewTokens(st: seq<SectionEntry>, n: string, loose: bool)
    requires HasName(st, n) && !Identifier(n) && SuitsAll(st, n, loose)
    ensures Load([], Print(st)).0 != st
  {
    var text := Print(st);
    StoreText(None, st, "", n, loose);
    LooseInside(text, "", n);
    LexClosed(TNone, text, n, loose);
    LoadedFromTokens(text, n);
    NameCounts(st, n);
  }

  /** A shortest name with a '#'. */
  lemma {:induction false} Shortest(st: seq<SectionEntry>, n: string) returns (m: string)
    requires HasName(st, n) && '#' in n
    ensures HasName(st, m) && '#' in m && forall k :: HasName(st, k) && '#' in k ==> |m| <= |k|
    decreases |n|
  {
    if k :| HasName(st, k) && '#' in k && |k| < |n| {
      m := Shortest(st, k);
    } else {
      m := n;
    }
  }

  /** A configuration with a name that is not an identifier does not come back. */
  lemma NamesAreIdentifiers(st: seq<SectionEntry>, n: string)
    requires Holdable(st) && Load([], Print(st)).0 == st && HasName(st, n)
    ensures Identifier(n)
  {
    ComesBackBare(st);
    if k :| HasName(st, k) && '#' in k {
      var m := Shortest(st, k);
      SuitLoose(st, m);
      TooFewTokens(st, m, true);
    } else if !Identifier(n) {
      SuitStrict(st, n);
      TooFewTokens(st, n, false);
    }
  }

  ghost predicate AllBare(st: seq<SectionEntry>) {
    forall i :: 0 <= i < |st| ==> Bare(st[i].name) && forall j :: 0 <= j < |st[i].keys| ==>
      Bare(st[i].keys[j].key) && BareValue(st[i].keys[j].value)
  }

  lemma SuitLoose(st: seq<SectionEntry>, m: string)
    requires AllBare(st) && '#' in m && forall k :: HasName(st, k) && '#' in k ==> |m| <= |k|
    ensures SuitsAll(st, m, true) && !Identifier(m)
  {
    forall i | 0 <= i < |st| ensures Suits(st[i].name, m, true) {
      assert NameIn(st[i], st[i].name);
      assert HasName(st, st[i].name);
    }
    forall i, j | 0 <= i < |st| && 0 <= j < |st[i].keys| ensures Suits(st[i].keys[j].key, m, true) {
      assert NameIn(st[i], st[i].keys[j].key);
      assert HasName(st, st[i].keys[j].key);
    }
  }

  lemma SuitStrict(st: seq<SectionEntry>, n: string)
    requires AllBare(st) && forall k :: HasName(st, k) ==> '#' !in k
    ensures SuitsAll(st, n, false)
  {
    forall i | 0 <= i < |st| ensures Suits(st[i].name, n, false) {
      assert NameIn(st[i], st[i].name);
      assert HasName(st, st[i].name);
    }
    forall i, j | 0 <= i < |st| && 0 <= j < |st[i].keys| ensures Suits(st[i].keys[j].key, n, false) {
      assert NameIn(st[i], st[i].keys[j].key);
      assert HasName(st, st[i].keys[j].key);
    }
  }

  ghost predicate IdentifierNames(st: seq<SectionEntry>) {
    forall n :: HasName(st, n) ==> Identifier(n)
  }

  /**
    For every configuration, saving and loading gives it back, in the same order
    and with return code 0, if and only if every section and key name is an
    identifier and each value is a non-negative integer, a string without double
    quotes, or a list of at least two such strings.
   */
  lemma SaveThenLoadExactly(st: seq<SectionEntry>)
    requires Structured(st) && Holdable(st)
    ensures Load([], Print(st)).0 == st <==> PrintableStore(st) && IdentifierNames(st)
    ensures PrintableStore(st) && IdentifierNames(st) ==> Load([], Print(st)).1 == 0
  {
    if Load([], Print(st)).0 == st {
      forall n | HasName(st, n) ensures Identifier(n) {
        NamesAreIdentifiers(st, n);
      }
    }
    if IdentifierNames(st) {
      ValidNames(st);
      SaveThenLoad(st);
    }
  }

  lemma ValidNames(st: seq<SectionEntry>)
    requires Holdable(st) && IdentifierNames(st)
    ensures ValidStore(st)
  {
    forall i | 0 <= i < |st| ensures Identifier(st[i].name) {
      assert NameIn(st[i], st[i].name);
      assert HasName(st, st[i].name);
    }
    forall i, j | 0 <= i < |st| && 0 <= j < |st[i].keys| ensures Identifier(st[i].keys[j].key) {
      assert NameIn(st[i], st[i].keys[j].key);
      assert HasName(st, st[i].keys[j].key);
    }
  }

  // A file with one section, its name in quotes.
  function QuotedSection(name: string, keys: seq<KeyEntry>): string {
    "[" + (Quoted(name) + ("]" + ("\n" + PrintKeys(keys))))
  }

  lemma LexQuotedName(name: string, s: string)
    requires QuoteFree(name)
    ensures Lex(TNone, Quoted(name) + s) == [Token(TString, name)] + Lex(TNone, s)
  {
    NextQuoted(name, s, TNone);
    LexFrom(TNone, Quoted(name) + s, Token(TString, name), s);
  }

  lemma LexQuotedHeader(name: string, rest: string)
    requires QuoteFree(name)
    ensures Lex(TNone, "[" + (Quoted(name) + ("]" + ("\n" + rest)))) == YieldHeader(name) + Lex(TNone, rest)
  {
    var s := "]" + ("\n" + rest);
    LexPunctuation('[', Quoted(name) + s);
    LexQuotedName(name, s);
    LexPunctuation(']', "\n" + rest);
    NewlineSkipped(rest);
  }

  /** The parser reads every quoted section name, whatever it is. */
  lemma QuotedNameIsRead(name: string, keys: seq<KeyEntry>)
    requires Bare(name) && keys != [] && ValidKeys(keys) && PrintableKeys(keys) && DistinctKeys(keys)
    ensures Load([], QuotedSection(name, keys)) == ([SectionEntry(name, keys)], 0)
  {
    var st := [SectionEntry(name, keys)];
    LexQuotedHeader(name, PrintKeys(keys));
    assert PrintKeys(keys) + "" == PrintKeys(keys);
    ReadKeys(name, keys, "");
    OneSectionRead(name, keys, Lex(TNone, QuotedSection(name, keys)), Lex(TNone, PrintKeys(keys)));
    Rebuild(st);
  }

  lemma OneSectionRead(name: string, keys: seq<KeyEntry>, ts: seq<Token>, us: seq<Token>)
    requires ts == YieldHeader(name) + us && PrintableKeys(keys)
    requires var r := ParseDefinitions(us);
             r.ok && r.rest == Lex(TNone, "") && DeliveredIn(name, r.trees) == DefinitionsIn(name, keys)
    ensures Parse(ts).ok && Delivered(Parse(ts).trees) == Definitions([SectionEntry(name, keys)])
  {
    var st := [SectionEntry(name, keys)];
    assert st[1..] == [];
    SectionRead(st, ts, us, Lex(TNone, ""));
  }

  /** But a name that is not an identifier is written bare, and lost. */
  lemma QuotedNameIsLost(name: string, keys: seq<KeyEntry>)
    requires Bare(name) && !Identifier(name)
    requires keys != [] && ValidKeys(keys) && PrintableKeys(keys) && DistinctKeys(keys)
    ensures var st := Load([], QuotedSection(name, keys)).0;
            Structured(st) && PrintableStore(st) && Load([], Print(st)).0 != st
  {
    var st := [SectionEntry(name, keys)];
    QuotedNameIsRead(name, keys);
    forall j | 0 <= j < |keys| ensures '\0' !in keys[j].key {
      assert Identifier(keys[j].key);
    }
    assert NameIn(st[0], name);
    assert HasName(st, name);
    SaveThenLoadExactly(st);
  }

}
