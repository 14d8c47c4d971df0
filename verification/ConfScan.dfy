/**
  The lexical analyser of libcore/confparser.c as a function on the remaining
  input.  It is context sensitive: right after '=' a character that starts no
  value is pushed back and reported instead of being skipped.
 */
module ConfScan {

  datatype Kind =
    | TEof | TLeft | TRight | TEqual | TComma | TSemi
    | TNone | TString | TInteger | TError

  datatype Token = Token(kind: Kind, text: string)

  datatype ScanState = SInitial | SSpace | SComment | SIdentifier | SInteger | SString

  // Character classes of the C locale.

  predicate IsBlank(c: char) { c == ' ' || c == '\t' }

  predicate IsSpace(c: char) { c == ' ' || '\t' <= c <= '\r' }

  predicate IsDigit(c: char) { '0' <= c <= '9' }

  predicate IsAlpha(c: char) { 'a' <= c <= 'z' || 'A' <= c <= 'Z' }

  predicate IsFirstIdentifier(c: char) { IsAlpha(c) || c == '_' }

  predicate IsIdentifier(c: char) { IsAlpha(c) || IsDigit(c) || c == '-' || c == '_' }

  predicate IsPunctuation(c: char) { c == '[' || c == ']' || c == '=' || c == ',' || c == ';' }

  function PunctuationKind(c: char): Kind
    requires IsPunctuation(c)
  {
    if c == '[' then TLeft
    else if c == ']' then TRight
    else if c == '=' then TEqual
    else if c == ',' then TComma
    else TSemi
  }

  /** Tokens after which the parser asks for no further token. */
  predicate Stop(k: Kind) {
    k == TEof || k == TNone || k == TError
  }

  /**
    One token, scanned from state st with the text collected so far; also the
    input that remains.  The measure drops at each character read, and at the
    one push-back that does not end the token, the one that leaves SSpace.
   */
  function Scan(st: ScanState, text: string, s: string, previous: Kind): (r: (Token, string))
    ensures |r.1| <= |s|
    ensures !Stop(r.0.kind) && (st == SInitial || st == SSpace) ==> |r.1| < |s|
    decreases |s|, if st == SSpace then 1 else 0
  {
    if s == "" then (Token(TEof, text), "")
    else
      var c, rest := s[0], s[1..];
      match st
      case SInitial =>
        if IsBlank(c) then Scan(SSpace, text, rest, previous)
        else if c == '#' then Scan(SComment, text, rest, previous)
        else if c == '"' then Scan(SString, text, rest, previous)
        else if IsFirstIdentifier(c) then Scan(SIdentifier, text + [c], rest, previous)
        else if IsDigit(c) then Scan(SInteger, text + [c], rest, previous)
        else if previous == TEqual then (Token(if c == '\n' then TNone else TError, text), s)
        else if IsPunctuation(c) then (Token(PunctuationKind(c), text + [c]), rest)
        else Scan(SInitial, text, rest, previous)
      case SSpace =>
        if !IsSpace(c) then Scan(SInitial, text, s, previous) else Scan(SSpace, text, rest, previous)
      case SComment =>
        Scan(if c == '\n' then SInitial else SComment, text, rest, previous)
      case SString =>
        if c != '"' then Scan(SString, text + [c], rest, previous) else (Token(TString, text), rest)
      case SIdentifier =>
        if IsIdentifier(c) then Scan(SIdentifier, text + [c], rest, previous) else (Token(TString, text), s)
      case SInteger =>
        if IsDigit(c) then Scan(SInteger, text + [c], rest, previous) else (Token(TInteger, text), s)
  }

  function NextToken(s: string, previous: Kind): (r: (Token, string))
    ensures !Stop(r.0.kind) ==> |r.1| < |s|
  {
    Scan(SInitial, "", s, previous)
  }

  /** The tokens the parser can ask for, up to the first after which it must stop. */
  function Lex(previous: Kind, s: string): (ts: seq<Token>)
    ensures ts != [] && Stop(ts[|ts| - 1].kind)
    ensures forall i :: 0 <= i < |ts| - 1 ==> !Stop(ts[i].kind)
    decreases |s|
  {
    var r := NextToken(s, previous);
    if Stop(r.0.kind) then [r.0] else [r.0] + Lex(r.0.kind, r.1)
  }

  // ---------------------------------------------------------------------
  // Line and column
  // ---------------------------------------------------------------------

  /** The line reached after reading s, counted from 1. */
  function Line(s: string): (n: int)
    ensures n >= 1
  {
    if s == "" then 1
    else Line(s[..|s| - 1]) + (if s[|s| - 1] == '\n' then 1 else 0)
  }

  /** The column reached after reading s, counted from 1. */
  function Column(s: string): (n: int)
    ensures n >= 1
  {
    if s == "" then 1
    else if s[|s| - 1] == '\n' then 1
    else Column(s[..|s| - 1]) + 1
  }

  lemma OneMore(input: string, pos: nat)
    requires pos < |input|
    ensures Line(input[..pos + 1]) == Line(input[..pos]) + (if input[pos] == '\n' then 1 else 0)
    ensures Column(input[..pos + 1]) == if input[pos] == '\n' then 1 else Column(input[..pos]) + 1
  {
    assert input[..pos + 1][..pos] == input[..pos];
  }

  /** The context matters only when the previous token is '='. */
  lemma {:induction false} ContextIsEqual(st: ScanState, text: string, s: string, p: Kind, q: Kind)
    requires p != TEqual && q != TEqual
    ensures Scan(st, text, s, p) == Scan(st, text, s, q)
    decreases |s|, if st == SSpace then 1 else 0
  {
    if s != "" {
      var c, rest := s[0], s[1..];
      match st
      case SInitial =>
        if IsBlank(c) { ContextIsEqual(SSpace, text, rest, p, q); }
        else if c == '#' { ContextIsEqual(SComment, text, rest, p, q); }
        else if c == '"' { ContextIsEqual(SString, text, rest, p, q); }
        else if IsFirstIdentifier(c) { ContextIsEqual(SIdentifier, text + [c], rest, p, q); }
        else if IsDigit(c) { ContextIsEqual(SInteger, text + [c], rest, p, q); }
        else if !IsPunctuation(c) { ContextIsEqual(SInitial, text, rest, p, q); }
      case SSpace =>
        if !IsSpace(c) { ContextIsEqual(SInitial, text, s, p, q); }
        else { ContextIsEqual(SSpace, text, rest, p, q); }
      case SComment =>
        ContextIsEqual(if c == '\n' then SInitial else SComment, text, rest, p, q);
      case SString =>
        if c != '"' { ContextIsEqual(SString, text + [c], rest, p, q); }
      case SIdentifier =>
        if IsIdentifier(c) { ContextIsEqual(SIdentifier, text + [c], rest, p, q); }
      case SInteger =>
        if IsDigit(c) { ContextIsEqual(SInteger, text + [c], rest, p, q); }
    }
  }

  lemma LexContext(p: Kind, s: string)
    requires p != TEqual
    ensures Lex(p, s) == Lex(TNone, s)
  {
    ContextIsEqual(SInitial, "", s, p, TNone);
  }

}
