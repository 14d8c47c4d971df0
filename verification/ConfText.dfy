/**
  The text written by a6o_conf_save_file, and what loading that text gives back.
 */
module ConfText {
  import opened Wrappers
  import opened ConfScan
  import opened ConfGrammar
  import opened ConfStore

  // ---------------------------------------------------------------------
  // Printing
  // ---------------------------------------------------------------------

  function DigitChar(n: nat): (c: char)
    requires n < 10
    ensures IsDigit(c) && Digit(c) == n
  {
    (n + '0' as int) as char
  }

  function Decimal(n: nat): (s: string)
    ensures s != "" && forall i :: 0 <= i < |s| ==> IsDigit(s[i])
    ensures DigitsValue(s) == n
  {
    if n < 10 then
      var s := [DigitChar(n)];
      assert DigitsValue(s[..0]) == 0;
      s
    else
      var s := Decimal(n / 10) + [DigitChar(n % 10)];
      assert s[..|s| - 1] == Decimal(n / 10);
      s
  }

  function PrintInt(i: int): string {
    if i < 0 then "-" + Decimal(-i) else Decimal(i)
  }

  function Quoted(s: string): string {
    "\"" + s + "\""
  }

  function PrintMore(l: seq<string>): string {
    if l == [] then "" else "; " + Quoted(l[0]) + PrintMore(l[1..])
  }

  function PrintValue(v: Value): string {
    match v
    case VVoid => ""
    case VInt(i) => " " + PrintInt(i)
    case VString(s) => " " + Quoted(s)
    case VList(l) => if l == [] then "" else " " + Quoted(l[0]) + PrintMore(l[1..])
  }

  function PrintDefinition(k: KeyEntry): string {
    k.key + " =" + PrintValue(k.value) + "\n"
  }

  function PrintKeys(keys: seq<KeyEntry>): string {
    if keys == [] then "" else PrintDefinition(keys[0]) + PrintKeys(keys[1..])
  }

  function PrintHeader(name: string): string {
    "\n[" + name + "]\n\n"
  }

  /** A header is printed when the section differs from the last one printed. */
  function PrintFrom(last: Option<string>, st: seq<SectionEntry>): string
    decreases |st|
  {
    if st == [] then ""
    else if st[0].keys == [] then PrintFrom(last, st[1..])
    else
      (if last == Some(st[0].name) then "" else PrintHeader(st[0].name))
      + PrintKeys(st[0].keys) + PrintFrom(Some(st[0].name), st[1..])
  }

  function Print(st: seq<SectionEntry>): string {
    PrintFrom(None, st)
  }

  /** Loading a text into a store: the new store and the return code of the parser. */
  function Load(st: seq<SectionEntry>, text: string): (seq<SectionEntry>, int) {
    var r := Parse(Lex(TNone, text));
    var ds := Delivered(r.trees);
    var a := AddAll(st, ds);
    (a.0, if r.ok && a.1 == |ds| then 0 else -2)
  }

  /**
    Loading succeeds exactly when the grammar derives the tokens of the text and
    no definition of the derivation is refused; the store then holds all of them.
   */
  lemma LoadSucceeds(st: seq<SectionEntry>, text: string)
    ensures Load(st, text).1 == 0 <==>
              exists tree :: DerivedBy(Lex(TNone, text), tree) && AddAll(st, Delivered(tree)).1 == |Delivered(tree)|
    ensures forall tree :: DerivedBy(Lex(TNone, text), tree) ==> Load(st, text).0 == AddAll(st, Delivered(tree)).0
  {
    var ts := Lex(TNone, text);
    ParserRecognisesGrammar(TNone, text);
    forall tree | DerivedBy(ts, tree)
      ensures tree == Parse(ts).trees
    {
      DerivedIsAccepted(ts, tree);
    }
  }

  // ---------------------------------------------------------------------
  // Scanning what was printed
  // ---------------------------------------------------------------------

  predicate Identifier(s: string) {
    s != "" && IsFirstIdentifier(s[0]) && forall i :: 0 <= i < |s| ==> IsIdentifier(s[i])
  }

  lemma {:induction false} ScanIdentifier(text: string, s: string, n: nat, previous: Kind)
    requires n < |s| && !IsIdentifier(s[n])
    requires forall i :: 0 <= i < n ==> IsIdentifier(s[i])
    ensures Scan(SIdentifier, text, s, previous) == (Token(TString, text + s[..n]), s[n..])
    decreases n
  {
    if n == 0 {
      assert text + s[..0] == text && s[0..] == s;
    } else {
      ScanIdentifier(text + [s[0]], s[1..], n - 1, previous);
      assert text + s[..n] == (text + [s[0]]) + s[1..][..n - 1];
    }
  }

  lemma {:induction false} ScanDigits(text: string, s: string, n: nat, previous: Kind)
    requires n < |s| && !IsDigit(s[n])
    requires forall i :: 0 <= i < n ==> IsDigit(s[i])
    ensures Scan(SInteger, text, s, previous) == (Token(TInteger, text + s[..n]), s[n..])
    decreases n
  {
    if n == 0 {
      assert text + s[..0] == text && s[0..] == s;
    } else {
      ScanDigits(text + [s[0]], s[1..], n - 1, previous);
      assert text + s[..n] == (text + [s[0]]) + s[1..][..n - 1];
    }
  }

  lemma {:induction false} ScanString(text: string, s: string, n: nat, previous: Kind)
    requires n < |s| && s[n] == '"'
    requires forall i :: 0 <= i < n ==> s[i] != '"'
    ensures Scan(SString, text, s, previous) == (Token(TString, text + s[..n]), s[n + 1..])
    decreases n
  {
    if n == 0 {
      assert text + s[..0] == text;
    } else {
      ScanString(text + [s[0]], s[1..], n - 1, previous);
      assert text + s[..n] == (text + [s[0]]) + s[1..][..n - 1];
      assert s[1..][n..] == s[n + 1..];
    }
  }

  lemma NextIdentifier(key: string, rest: string, previous: Kind)
    requires Identifier(key) && rest != "" && !IsIdentifier(rest[0])
    ensures NextToken(key + rest, previous) == (Token(TString, key), rest)
  {
    var s := key + rest;
    var n := |key| - 1;
    assert s[1..][n] == rest[0];
    assert IsFirstIdentifier(s[0]);
    ScanIdentifier("" + [s[0]], s[1..], n, previous);
    assert "" + [s[0]] + s[1..][..n] == key;
    assert s[1..][n..] == rest;
  }

  lemma NextDigits(digits: string, rest: string, previous: Kind)
    requires digits != "" && rest != "" && !IsDigit(rest[0])
    requires forall i :: 0 <= i < |digits| ==> IsDigit(digits[i])
    ensures NextToken(digits + rest, previous) == (Token(TInteger, digits), rest)
  {
    var s := digits + rest;
    var n := |digits| - 1;
    assert s[1..][n] == rest[0];
    assert IsDigit(s[0]);
    ScanDigits("" + [s[0]], s[1..], n, previous);
    assert "" + [s[0]] + s[1..][..n] == digits;
    assert s[1..][n..] == rest;
  }

  predicate QuoteFree(s: string) {
    '"' !in s
  }

  lemma NextQuoted(x: string, rest: string, previous: Kind)
    requires QuoteFree(x)
    ensures NextToken(Quoted(x) + rest, previous) == (Token(TString, x), rest)
  {
    var s := Quoted(x) + rest;
    assert s[1..] == x + ("\"" + rest);
    ScanString("", s[1..], |x|, previous);
    assert "" + s[1..][..|x|] == x;
    assert s[1..][|x| + 1..] == rest;
  }

  /** A quote inside a string ends its token early. */
  lemma NextQuotedBroken(x: string, rest: string, previous: Kind)
    requires !QuoteFree(x)
    ensures var t := NextToken(Quoted(x) + rest, previous).0; t.kind == TString && |t.text| < |x|
  {
    var n := FirstQuote(x);
    var s := Quoted(x) + rest;
    assert s[1..] == x + ("\"" + rest);
    ScanString("", s[1..], n, previous);
  }

  function FirstQuote(x: string): (n: nat)
    requires !QuoteFree(x)
    ensures n < |x| && x[n] == '"' && forall i :: 0 <= i < n ==> x[i] != '"'
  {
    if x[0] == '"' then 0 else 1 + FirstQuote(x[1..])
  }

  lemma BlankSkipped(s: string, previous: Kind)
    requires s != "" && !IsSpace(s[0])
    ensures NextToken(" " + s, previous) == NextToken(s, previous)
  {
    assert (" " + s)[1..] == s;
    assert NextToken(" " + s, previous) == Scan(SSpace, "", s, previous);
  }

  lemma NewlineSkipped(s: string)
    ensures Lex(TNone, "\n" + s) == Lex(TNone, s)
  {
    assert ("\n" + s)[1..] == s;
  }

  lemma LexFrom(previous: Kind, s: string, t: Token, rest: string)
    requires NextToken(s, previous) == (t, rest) && !Stop(t.kind) && t.kind != TEqual
    ensures Lex(previous, s) == [t] + Lex(TNone, rest)
  {
    LexContext(t.kind, rest);
  }

  lemma LexKey(key: string, t: string)
    requires Identifier(key)
    ensures Lex(TNone, key + (" =" + t)) == [Token(TString, key), Token(TEqual, "=")] + Lex(TEqual, t)
  {
    NextIdentifier(key, " =" + t, TNone);
    LexFrom(TNone, key + (" =" + t), Token(TString, key), " =" + t);
    LexEqual(t);
  }

  lemma LexEqual(t: string)
    ensures Lex(TNone, " =" + t) == [Token(TEqual, "=")] + Lex(TEqual, t)
  {
    assert " =" + t == " " + ("=" + t);
    BlankSkipped("=" + t, TNone);
    assert ("=" + t)[1..] == t;
    assert "" + ['='] == "=";
    assert NextToken("=" + t, TNone) == (Token(TEqual, "="), t);
  }

  lemma LexHeader(name: string, t: string)
    requires Identifier(name)
    ensures Lex(TNone, PrintHeader(name) + t) == YieldHeader(name) + Lex(TNone, t)
  {
    var s := "\n" + ("\n" + t);
    HeaderText(name, t);
    NewlineSkipped("[" + (name + ("]" + s)));
    LexPunctuation('[', name + ("]" + s));
    LexNameBracket(name, s);
    NewlineSkipped("\n" + t);
    NewlineSkipped(t);
  }

  lemma HeaderText(name: string, t: string)
    ensures PrintHeader(name) + t == "\n" + ("[" + (name + ("]" + ("\n" + ("\n" + t)))))
  {
  }

  lemma LexNameBracket(name: string, s: string)
    requires Identifier(name)
    ensures Lex(TNone, name + ("]" + s)) == [Token(TString, name), Token(TRight, "]")] + Lex(TNone, s)
  {
    LexName(name, "]" + s);
    LexPunctuation(']', s);
  }

  lemma LexName(name: string, rest: string)
    requires Identifier(name) && rest != "" && !IsIdentifier(rest[0])
    ensures Lex(TNone, name + rest) == [Token(TString, name)] + Lex(TNone, rest)
  {
    NextIdentifier(name, rest, TNone);
    LexFrom(TNone, name + rest, Token(TString, name), rest);
  }

  lemma LexPunctuation(c: char, rest: string)
    requires IsPunctuation(c) && c != '='
    ensures Lex(TNone, [c] + rest) == [Token(PunctuationKind(c), [c])] + Lex(TNone, rest)
  {
    assert ([c] + rest)[1..] == rest;
    assert "" + [c] == [c];
    LexFrom(TNone, [c] + rest, Token(PunctuationKind(c), [c]), rest);
  }

  // ---------------------------------------------------------------------
  // Values
  // ---------------------------------------------------------------------

  /** The values a configuration can hold: 32-bit integers and C strings. */
  ghost predicate ValidValue(v: Value) {
    match v
    case VVoid => true
    case VInt(i) => INT_MIN <= i <= INT_MAX
    case VString(s) => '\0' !in s
    case VList(l) => forall i :: 0 <= i < |l| ==> '\0' !in l[i]
  }

  /** The values that the file syntax can express. */
  predicate Printable(v: Value) {
    match v
    case VVoid => false
    case VInt(i) => i >= 0
    case VString(s) => QuoteFree(s)
    case VList(l) => |l| >= 2 && forall i :: 0 <= i < |l| ==> QuoteFree(l[i])
  }

  function MoreTrees(l: seq<string>): (r: seq<(Separator, string)>)
    ensures |r| == |l|
  {
    if l == [] then [] else [(SemiColon, l[0])] + MoreTrees(l[1..])
  }

  function TreeOf(v: Value): ValueTree
    requires Printable(v)
  {
    match v
    case VInt(i) => IntTree(Decimal(i))
    case VString(s) => StringTree(s, [])
    case VList(l) => StringTree(l[0], MoreTrees(l[1..]))
  }

  lemma {:induction false} MoreTreesStrings(l: seq<string>)
    requires forall i :: 0 <= i < |l| ==> '\0' !in l[i]
    ensures Strings(MoreTrees(l)) == l
  {
    if l != [] {
      MoreTreesStrings(l[1..]);
      assert MoreTrees(l)[1..] == MoreTrees(l[1..]);
      assert l == [l[0]] + l[1..];
    }
  }

  lemma TreeOfValue(v: Value)
    requires Printable(v) && ValidValue(v)
    ensures ValueOf(TreeOf(v)) == v
  {
    if v.VList? {
      MoreTreesStrings(v.elements[1..]);
      assert v.elements == [v.elements[0]] + v.elements[1..];
    }
  }

  lemma PrintMoreStep(l: seq<string>, rest: string)
    requires l != []
    ensures PrintMore(l) + rest == [';'] + (" " + (Quoted(l[0]) + (PrintMore(l[1..]) + rest)))
  {
  }

  lemma {:induction false} LexMore(l: seq<string>, rest: string)
    requires forall i :: 0 <= i < |l| ==> QuoteFree(l[i])
    ensures Lex(TNone, PrintMore(l) + rest) == YieldMore(MoreTrees(l)) + Lex(TNone, rest)
    decreases |l|
  {
    if l == [] {
      assert PrintMore(l) + rest == rest;
    } else {
      var t := PrintMore(l[1..]) + rest;
      LexElement(l, rest);
      LexMore(l[1..], rest);
      YieldMoreTrees(l);
      Regroup(Lex(TNone, PrintMore(l) + rest), [Token(TSemi, ";"), Token(TString, l[0])],
              YieldMore(MoreTrees(l[1..])), Lex(TNone, rest));
    }
  }

  lemma YieldMoreTrees(l: seq<string>)
    requires l != []
    ensures YieldMore(MoreTrees(l)) == [Token(TSemi, ";"), Token(TString, l[0])] + YieldMore(MoreTrees(l[1..]))
  {
    assert MoreTrees(l)[1..] == MoreTrees(l[1..]);
  }

  lemma LexElement(l: seq<string>, rest: string)
    requires l != [] && QuoteFree(l[0])
    ensures Lex(TNone, PrintMore(l) + rest)
         == [Token(TSemi, ";"), Token(TString, l[0])] + Lex(TNone, PrintMore(l[1..]) + rest)
  {
    var t := PrintMore(l[1..]) + rest;
    PrintMoreStep(l, rest);
    LexPunctuation(';', " " + (Quoted(l[0]) + t));
    LexGoodQuoted(l[0], t, TNone);
  }

  lemma LexGoodValue(v: Value, rest: string)
    requires Printable(v)
    ensures Lex(TEqual, PrintValue(v) + ("\n" + rest)) == YieldValue(TreeOf(v)) + Lex(TNone, rest)
  {
    NewlineSkipped(rest);
    match v
    case VInt(i) =>
      LexGoodInt(i, rest);
    case VString(s) =>
      LexGoodQuoted(s, "\n" + rest, TEqual);
      assert PrintValue(v) + ("\n" + rest) == " " + (Quoted(s) + ("\n" + rest));
    case VList(l) =>
      LexGoodList(l, rest);
  }

  lemma LexGoodInt(i: nat, rest: string)
    ensures Lex(TEqual, " " + PrintInt(i) + ("\n" + rest)) == [Token(TInteger, Decimal(i))] + Lex(TNone, "\n" + rest)
  {
    var t := Decimal(i) + ("\n" + rest);
    assert " " + PrintInt(i) + ("\n" + rest) == " " + t;
    BlankSkipped(t, TEqual);
    NextDigits(Decimal(i), "\n" + rest, TEqual);
    LexFrom(TEqual, " " + t, Token(TInteger, Decimal(i)), "\n" + rest);
  }

  lemma PrintListText(l: seq<string>, rest: string)
    requires l != []
    ensures PrintValue(VList(l)) + rest == " " + (Quoted(l[0]) + (PrintMore(l[1..]) + rest))
  {
  }

  lemma LexGoodList(l: seq<string>, rest: string)
    requires Printable(VList(l))
    ensures Lex(TEqual, PrintValue(VList(l)) + ("\n" + rest)) == YieldValue(TreeOf(VList(l))) + Lex(TNone, "\n" + rest)
  {
    var t := PrintMore(l[1..]) + ("\n" + rest);
    LexGoodQuoted(l[0], t, TEqual);
    PrintListText(l, "\n" + rest);
    LexMore(l[1..], "\n" + rest);
    Regroup(Lex(TEqual, PrintValue(VList(l)) + ("\n" + rest)), [Token(TString, l[0])],
            YieldMore(MoreTrees(l[1..])), Lex(TNone, "\n" + rest));
  }

  lemma LexGoodQuoted(s: string, rest: string, previous: Kind)
    requires QuoteFree(s)
    ensures Lex(previous, " " + (Quoted(s) + rest)) == [Token(TString, s)] + Lex(TNone, rest)
  {
    BlankSkipped(Quoted(s) + rest, previous);
    NextQuoted(s, rest, previous);
    LexFrom(previous, " " + (Quoted(s) + rest), Token(TString, s), rest);
  }

  // ---------------------------------------------------------------------
  // Values that cannot be read back
  // ---------------------------------------------------------------------

  lemma LexBrokenQuoted(s: string, rest: string, previous: Kind)
    requires !QuoteFree(s)
    ensures var ts := Lex(previous, " " + (Quoted(s) + rest)); ts[0].kind == TString && |ts[0].text| < |s|
  {
    BlankSkipped(Quoted(s) + rest, previous);
    NextQuotedBroken(s, rest, previous);
  }

  lemma {:induction false} BrokenMore(l: seq<string>, rest: string)
    requires exists i :: 0 <= i < |l| && !QuoteFree(l[i])
    ensures var r := ParseMore(Lex(TNone, PrintMore(l) + rest)); r.Some? ==> Strings(r.value.0) != l
    decreases |l|
  {
    var ts := Lex(TNone, PrintMore(l) + rest);
    if !QuoteFree(l[0]) {
      LexBrokenElement(l, rest);
      BrokenHead(ts, l);
    } else {
      LexElement(l, rest);
      var i :| 0 <= i < |l| && !QuoteFree(l[i]);
      assert l[1..][i - 1] == l[i];
      BrokenMore(l[1..], rest);
      BrokenTail(ts, l);
    }
  }

  lemma LexBrokenElement(l: seq<string>, rest: string)
    requires l != [] && !QuoteFree(l[0])
    ensures var ts := Lex(TNone, PrintMore(l) + rest);
            |ts| >= 2 && ts[0].kind == TSemi && ts[1].kind == TString && |ts[1].text| < |l[0]|
  {
    var t := PrintMore(l[1..]) + rest;
    PrintMoreStep(l, rest);
    LexPunctuation(';', " " + (Quoted(l[0]) + t));
    LexBrokenQuoted(l[0], t, TNone);
  }

  lemma BrokenHead(ts: seq<Token>, l: seq<string>)
    requires l != [] && |ts| >= 2 && ts[0].kind == TSemi && ts[1].kind == TString && |ts[1].text| < |l[0]|
    ensures ParseMore(ts).Some? ==> Strings(ParseMore(ts).value.0) != l
  {
    if ParseMore(ts).Some? {
      assert Strings(ParseMore(ts).value.0)[0] == CString(ts[1].text);
    }
  }

  lemma BrokenTail(ts: seq<Token>, l: seq<string>)
    requires l != [] && |ts| >= 2 && ts[0].kind == TSemi && ts[1].kind == TString
    requires ParseMore(ts[2..]).Some? ==> Strings(ParseMore(ts[2..]).value.0) != l[1..]
    ensures ParseMore(ts).Some? ==> Strings(ParseMore(ts).value.0) != l
  {
    if ParseMore(ts).Some? {
      var m := ParseMore(ts).value.0;
      assert m[1..] == ParseMore(ts[2..]).value.0;
      assert Strings(m)[1..] == Strings(m[1..]);
    }
  }

  lemma LexStops(v: Value, rest: string)
    requires v.VVoid? || v == VList([]) || (v.VInt? && v.i < 0)
    ensures Stop(Lex(TEqual, PrintValue(v) + ("\n" + rest))[0].kind)
  {
    if v.VInt? {
      NegativeStops(v.i, "\n" + rest);
    } else {
      assert PrintValue(v) + ("\n" + rest) == "\n" + rest;
    }
  }

  lemma NegativeStops(i: int, rest: string)
    requires i < 0
    ensures Stop(Lex(TEqual, " " + PrintInt(i) + rest)[0].kind)
  {
    var t := "-" + (Decimal(-i) + rest);
    assert " " + PrintInt(i) + rest == " " + t;
    BlankSkipped(t, TEqual);
    assert NextToken(t, TEqual) == (Token(TError, ""), t);
  }

  /** The text of any other value is rejected, or read back as a different value. */
  lemma LexBadValue(v: Value, rest: string)
    requires !Printable(v)
    ensures var r := ParseValue(Lex(TEqual, PrintValue(v) + ("\n" + rest)));
            r.Some? ==> ValueOf(r.value.0) != v
  {
    var ts := Lex(TEqual, PrintValue(v) + ("\n" + rest));
    match v
    case VVoid => LexStops(v, rest);
    case VInt(_) => LexStops(v, rest);
    case VString(s) =>
      assert PrintValue(v) + ("\n" + rest) == " " + (Quoted(s) + ("\n" + rest));
      LexBrokenQuoted(s, "\n" + rest, TEqual);
    case VList(l) =>
      if l == [] {
        LexStops(v, rest);
      } else {
        BadList(l, rest);
      }
  }

  lemma BadList(l: seq<string>, rest: string)
    requires l != [] && !Printable(VList(l))
    ensures var r := ParseValue(Lex(TEqual, PrintValue(VList(l)) + ("\n" + rest)));
            r.Some? ==> ValueOf(r.value.0) != VList(l)
  {
    var t := PrintMore(l[1..]) + ("\n" + rest);
    var ts := Lex(TEqual, PrintValue(VList(l)) + ("\n" + rest));
    PrintListText(l, "\n" + rest);
    if !QuoteFree(l[0]) {
      LexBrokenQuoted(l[0], t, TEqual);
      BadListHead(ts, l);
    } else {
      LexGoodQuoted(l[0], t, TEqual);
      assert ts[1..] == Lex(TNone, t);
      if |l| >= 2 {
        BrokenTailOf(l);
        BrokenMore(l[1..], "\n" + rest);
      }
      BadListTail(ts, l);
    }
  }

  lemma BrokenTailOf(l: seq<string>)
    requires |l| >= 2 && QuoteFree(l[0]) && !Printable(VList(l))
    ensures exists i :: 0 <= i < |l[1..]| && !QuoteFree(l[1..][i])
  {
    var i :| 0 <= i < |l| && !QuoteFree(l[i]);
    assert l[1..][i - 1] == l[i];
  }

  lemma BadListHead(ts: seq<Token>, l: seq<string>)
    requires l != [] && ts != [] && ts[0].kind == TString && |ts[0].text| < |l[0]|
    ensures ParseValue(ts).Some? ==> ValueOf(ParseValue(ts).value.0) != VList(l)
  {
    if ParseValue(ts).Some? {
      var v := ValueOf(ParseValue(ts).value.0);
      assert v.VList? ==> v.elements[0] == CString(ts[0].text);
    }
  }

  lemma BadListTail(ts: seq<Token>, l: seq<string>)
    requires l != [] && ts != [] && ts[0].kind == TString
    requires |l| >= 2 && ParseMore(ts[1..]).Some? ==> Strings(ParseMore(ts[1..]).value.0) != l[1..]
    ensures ParseValue(ts).Some? ==> ValueOf(ParseValue(ts).value.0) != VList(l)
  {
    if ParseValue(ts).Some? {
      var m := ParseMore(ts[1..]).value.0;
      assert ([CString(ts[0].text)] + Strings(m))[1..] == Strings(m);
    }
  }

}
