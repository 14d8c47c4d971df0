/**
  The objects of libcore/confparser.c and libcore/conf.c: a scanner over the
  characters of a file, the configuration, and the recursive-descent parser
  that delivers each definition to the configuration as soon as it is read.
  A longjmp to the error exit is a result false, passed up by every caller.
 */
module ConfParser {
  import opened Wrappers
  import opened ConfScan
  import opened ConfGrammar
  import opened ConfStore
  import opened ConfText

  class Scanner {
    const input: string
    var pos: nat
    var currentLine: int
    var currentColumn: int
    var previousColumn: int
    var tokenText: string
    // how often the end of the file has been read
    ghost var eofReads: nat

    /** Line and column are those of the characters consumed; reading the end of file counts as one column. */
    ghost predicate Valid()
      reads this
    {
      && pos <= |input|
      && currentLine == Line(input[..pos])
      && currentColumn == Column(input[..pos]) + eofReads
      && (eofReads > 0 ==> pos == |input|)
    }

    ghost function Rest(): string
      reads this
      requires pos <= |input|
    {
      input[pos..]
    }

    constructor (input: string)
      ensures Valid() && Rest() == input
    {
      this.input := input;
      pos := 0;
      currentLine, currentColumn, previousColumn := 1, 1, 1;
      tokenText := "";
      eofReads := 0;
    }

    method Getc() returns (c: Option<char>)
      requires Valid()
      modifies this`pos, this`currentLine, this`currentColumn, this`previousColumn, this`eofReads
      ensures Valid()
      ensures old(pos) == |input| ==> c == None && pos == old(pos)
      ensures old(pos) < |input| ==> c == Some(input[old(pos)]) && pos == old(pos) + 1 && eofReads == old(eofReads)
      ensures c == Some('\n') ==> previousColumn == old(currentColumn)
      ensures c.Some? ==> eofReads == 0
    {
      if pos < |input| {
        OneMore(input, pos);
        c := Some(input[pos]);
        pos := pos + 1;
      } else {
        c := None;
        eofReads := eofReads + 1;
      }
      if c == Some('\n') {
        currentLine := currentLine + 1;
        previousColumn := currentColumn;
        currentColumn := 1;
      } else {
        currentColumn := currentColumn + 1;
      }
    }

    /** Pushing back the character just read restores the line and column it was read at. */
    method Ungetc(c: char)
      requires Valid() && pos > 0 && input[pos - 1] == c
      requires eofReads == 0
      requires c == '\n' ==> previousColumn == Column(input[..pos - 1])
      modifies this`pos, this`currentLine, this`currentColumn
      ensures Valid() && pos == old(pos) - 1
    {
      OneMore(input, pos - 1);
      if c == '\n' {
        currentLine := currentLine - 1;
        currentColumn := previousColumn;
      } else {
        currentColumn := currentColumn - 1;
      }
      pos := pos - 1;
    }

    method GetNextToken(previous: Kind) returns (kind: Kind)
      requires Valid()
      modifies this
      ensures Valid()
      ensures (Token(kind, tokenText), Rest()) == NextToken(old(Rest()), previous)
    {
      var state := SInitial;
      tokenText := "";
      while true
        invariant Valid()
        invariant Scan(state, tokenText, Rest(), previous) == NextToken(old(Rest()), previous)
        decreases |input| - pos, if state == SSpace then 1 else 0
      {
        var token;
        token, state := Turn(state, previous);
        if token.Some? {
          return token.value;
        }
      }
    }

    /** One turn of the scanner's loop: a character is read, and a token may end. */
    method Turn(state: ScanState, previous: Kind) returns (token: Option<Kind>, next: ScanState)
      requires Valid()
      modifies this
      ensures Valid() && old(pos) <= pos
      ensures match token
              case Some(kind) => Scan(state, old(tokenText), old(Rest()), previous) == (Token(kind, tokenText), Rest())
              case None =>
                && Scan(state, old(tokenText), old(Rest()), previous) == Scan(next, tokenText, Rest(), previous)
                && (old(pos) < pos || (state == SSpace && next == SInitial))
    {
      ghost var before := Rest();
      var c := Getc();
      if c == None {
        return Some(TEof), state;
      }
      assert before == [c.value] + Rest();
      var action;
      action, next, tokenText := Switch(state, tokenText, c.value, previous, Rest());
      if action.unread {
        Ungetc(c.value);
        assert Rest() == before;
      }
      token := if action.emit then Some(action.kind) else None;
    }
  }

  // What one character does: whether it is pushed back, and whether it ends a token.
  datatype Action = Action(unread: bool, emit: bool, kind: Kind)

  /** The state switch of the scanner on character c; rest is what follows c. */
  method Switch(st: ScanState, text: string, c: char, previous: Kind, ghost rest: string)
      returns (a: Action, st': ScanState, text': string)
    ensures a.emit ==>
              Scan(st, text, [c] + rest, previous) == (Token(a.kind, text'), if a.unread then [c] + rest else rest)
    ensures !a.emit ==>
              Scan(st, text, [c] + rest, previous) == Scan(st', text', if a.unread then [c] + rest else rest, previous)
    ensures a.unread && !a.emit ==> st == SSpace && st' == SInitial
  {
    assert ([c] + rest)[1..] == rest;
    a, st', text' := Action(false, false, TNone), st, text;
    match st {
      case SInitial =>
        if IsBlank(c) {
          st' := SSpace;
        } else if c == '#' {
          st' := SComment;
        } else if c == '"' {
          st' := SString;
        } else if IsFirstIdentifier(c) {
          text' := text + [c];
          st' := SIdentifier;
        } else if IsDigit(c) {
          text' := text + [c];
          st' := SInteger;
        } else if previous == TEqual {
          a := Action(true, true, if c == '\n' then TNone else TError);
        } else if IsPunctuation(c) {
          text' := text + [c];
          a := Action(false, true, PunctuationKind(c));
        }
      case SSpace =>
        if !IsSpace(c) {
          a := Action(true, false, TNone);
          st' := SInitial;
        }
      case SComment =>
        if c == '\n' {
          st' := SInitial;
        }
      case SString =>
        if c != '"' {
          text' := text + [c];
        } else {
          a := Action(false, true, TString);
        }
      case SIdentifier =>
        if IsIdentifier(c) {
          text' := text + [c];
        } else {
          a := Action(true, true, TString);
        }
      case SInteger =>
        if IsDigit(c) {
          text' := text + [c];
        } else {
          a := Action(true, true, TInteger);
        }
    }
  }

  // ---------------------------------------------------------------------
  // The configuration
  // ---------------------------------------------------------------------

  class Conf {
    var sections: seq<SectionEntry>

    constructor ()
      ensures sections == []
    {
      sections := [];
    }

    method SectionEntryGet(name: string) returns (i: nat)
      ensures i == SectionIndex(sections, name)
    {
      i := 0;
      while i < |sections| && sections[i].name != name
        invariant i <= |sections|
        invariant forall j :: 0 <= j < i ==> sections[j].name != name
      {
        i := i + 1;
      }
      if i < |sections| {
        SectionIndexAt(sections, name, i);
      }
    }

    method KeyEntryGet(i: nat, key: string) returns (j: nat)
      requires i < |sections|
      ensures j == KeyIndex(sections[i].keys, key)
    {
      var keys := sections[i].keys;
      j := 0;
      while j < |keys| && keys[j].key != key
        invariant j <= |keys|
        invariant forall k :: 0 <= k < j ==> keys[k].key != key
      {
        j := j + 1;
      }
      if j < |keys| {
        KeyIndexAt(keys, key, j);
      }
    }

    /** Returns 0 if the value was added, 1 if the key was already there. */
    method AddValue(section: string, key: string, value: Value) returns (ret: int)
      modifies this
      ensures (sections, ret == 0) == Add(old(sections), Definition(section, key, value))
    {
      var i := SectionEntryGet(section);
      if i == |sections| {
        sections := sections + [SectionEntry(section, [])];
      }
      var j := KeyEntryGet(i, key);
      if j < |sections[i].keys| {
        return 1;
      }
      ghost var was := old(sections);
      sections := sections[i := SectionEntry(section, sections[i].keys + [KeyEntry(key, value)])];
      assert i == |was| ==> sections[i].keys == [KeyEntry(key, value)];
      assert i == |was| ==> sections == was + [SectionEntry(section, [KeyEntry(key, value)])];
      return 0;
    }

    /** The text that a6o_conf_save_file writes. */
    method SaveFile() returns (text: string)
      ensures text == Print(sections)
    {
      text := "";
      var p: Option<string> := None;
      var i := 0;
      while i < |sections|
        invariant 0 <= i <= |sections|
        invariant text + PrintFrom(p, sections[i..]) == Print(sections)
      {
        PrintedSection(text, p, sections[i..]);
        assert sections[i..][1..] == sections[i + 1..];
        var t;
        p, t := SaveSection(p, sections[i]);
        text := text + t;
        i := i + 1;
      }
    }

    /** The inner loop of a6o_conf_apply: one section; p is the section printed last. */
    method SaveSection(p: Option<string>, s: SectionEntry) returns (p': Option<string>, text: string)
      ensures text == PrintedSoFar(p, s, |s.keys|)
      ensures p' == if s.keys == [] then p else Some(s.name)
    {
      text := "";
      p' := p;
      var j := 0;
      while j < |s.keys|
        invariant 0 <= j <= |s.keys|
        invariant p' == if j == 0 then p else Some(s.name)
        invariant text == PrintedSoFar(p, s, j)
      {
        PrintedOneMore(p, s, j);
        var t := SaveFun(p', s.name, s.keys[j]);
        p' := Some(s.name);
        text := text + t;
        j := j + 1;
      }
    }

    /** The printing callback: p is the section printed last. */
    method SaveFun(p: Option<string>, section: string, k: KeyEntry) returns (text: string)
      ensures text == (if p == Some(section) then "" else PrintHeader(section)) + PrintDefinition(k)
    {
      text := "";
      if p != Some(section) {
        text := "\n[" + section + "]\n\n";
      }
      var v := PrintOne(k.value);
      text := text + (k.key + " =" + v + "\n");
    }

    method PrintOne(value: Value) returns (text: string)
      ensures text == PrintValue(value)
    {
      text := "";
      match value {
        case VVoid =>
        case VInt(i) =>
          text := " " + PrintInt(i);
        case VString(s) =>
          text := " \"" + s + "\"";
        case VList(l) =>
          text := PrintList(l);
      }
    }

    method PrintList(l: seq<string>) returns (text: string)
      ensures text == PrintValue(VList(l))
    {
      text := "";
      var n := 0;
      while n < |l|
        invariant 0 <= n <= |l|
        invariant PrintedUpTo(text, l, n)
      {
        var item := (if n == 0 then " " else "; ") + ("\"" + l[n] + "\"");
        PrintListStep(text, l, n);
        text := text + item;
        n := n + 1;
      }
    }
  }

  // ---------------------------------------------------------------------
  // The recursive-descent parser
  // ---------------------------------------------------------------------

  datatype ValueType = TypeVoid | TypeInt | TypeString | TypeList

  /** The tokens still to come, the lookahead token first. */
  function Remaining(lookahead: Token, rest: string): seq<Token> {
    [lookahead] + if Stop(lookahead.kind) then [] else Lex(lookahead.kind, rest)
  }

  class Parser {
    const scanner: Scanner
    const conf: Conf
    var lookahead: Kind
    var currentSection: Option<string>
    var currentKey: Option<string>
    var valueType: ValueType
    var valueInt: int
    var valueString: Option<string>
    var valueList: seq<string>

    ghost predicate Valid()
      reads this, scanner
    {
      scanner.Valid()
    }

    ghost function Tokens(): seq<Token>
      reads this, scanner
      requires Valid()
    {
      Remaining(Token(lookahead, scanner.tokenText), scanner.Rest())
    }

    /** No value is being built. */
    ghost predicate Idle()
      reads this
    {
      valueType == TypeVoid && valueString == None && valueList == []
    }

    /** The fields hold value v, complete. */
    ghost predicate Building(v: Value)
      reads this
    {
      match v
      case VVoid => Idle()
      case VInt(i) => valueType == TypeInt && valueInt == i && valueString == None && valueList == []
      case VString(s) => valueType == TypeString && valueString == Some(s) && valueList == []
      case VList(l) => valueType == TypeList && valueString == None && valueList == l
    }

    constructor (input: string, conf: Conf)
      ensures Valid() && Idle() && fresh(scanner) && this.conf == conf
      ensures scanner.Rest() == input
    {
      scanner := new Scanner(input);
      this.conf := conf;
      lookahead := TEof;
      currentSection, currentKey := None, None;
      valueType, valueInt, valueString, valueList := TypeVoid, 0, None, [];
    }

    method TokenAccept(token: Kind) returns (ok: bool)
      requires Valid() && token != TNone && token != TError
      modifies this`lookahead, scanner
      ensures Valid()
      ensures ok <==> old(lookahead) == token
      ensures ok && token != TEof ==> Tokens() == old(Tokens())[1..]
    {
      if lookahead != token {
        return false;
      }
      if lookahead != TEof {
        lookahead := scanner.GetNextToken(token);
      }
      return true;
    }

    /** Accepts a token whose text is then returned as a C string. */
    method Take(token: Kind) returns (ok: bool, text: string)
      requires Valid() && !Stop(token)
      modifies this`lookahead, scanner
      ensures Valid()
      ensures text == CString(old(scanner.tokenText))
      ensures ok <==> old(Peek(Tokens())) == token
      ensures ok ==> Tokens() == old(Tokens())[1..] && text == CString(old(Tokens())[0].text)
    {
      text := CString(scanner.tokenText);
      ok := TokenAccept(token);
    }

    // opt_string_list : list_sep list_string_value opt_string_list | EMPTY
    method OptStringList() returns (ok: bool)
      requires Valid()
      requires valueString.Some? || valueType == TypeList
      modifies this`lookahead, this`valueType, this`valueString, this`valueList, scanner
      ensures Valid()
      ensures var r := ParseMore(old(Tokens()));
              && ok == r.Some?
              && (ok ==>
                    && Tokens() == r.value.1
                    && (if r.value.0 == [] then
                          unchanged(`valueType) && unchanged(`valueString) && unchanged(`valueList)
                        else
                          && valueType == TypeList && valueString == None
                          && valueList == Grown(old(valueList), old(valueString), Strings(r.value.0))))
      decreases |Tokens()|
    {
      ghost var ts := Tokens();
      if lookahead == TComma || lookahead == TSemi {
        ghost var text;
        ok, text := ListItem();
        if ok {
          ParseMoreStep(ts);
          ghost var items := ParseMore(ts[2..]);
          ok := OptStringList();
          if ok {
            GrownStep(old(valueList), old(valueString), text, Strings(items.value.0));
          }
        }
      } else {
        ok := true;
      }
    }

    // list_sep list_string_value
    method ListItem() returns (ok: bool, ghost text: string)
      requires Valid() && (lookahead == TComma || lookahead == TSemi)
      requires valueString.Some? || valueType == TypeList
      modifies this`lookahead, this`valueType, this`valueString, this`valueList, scanner
      ensures Valid()
      ensures ok <==> |old(Tokens())| >= 2 && old(Tokens())[1].kind == TString
      ensures ok ==> Tokens() == old(Tokens())[2..] && text == CString(old(Tokens())[1].text)
      ensures valueString == None && valueType == TypeList
      ensures valueList == Grown(old(valueList), old(valueString), [text])
    {
      ghost var ts := Tokens();
      ok := TokenAccept(lookahead);
      assert Tokens() == ts[1..];
      ok, text := ListStringValue();
    }

    // list_string_value : STRING
    method ListStringValue() returns (ok: bool, ghost text: string)
      requires Valid()
      modifies this`lookahead, this`valueType, this`valueString, this`valueList, scanner
      ensures Valid()
      ensures ok <==> old(Peek(Tokens())) == TString
      ensures ok ==> Tokens() == old(Tokens())[1..] && text == CString(old(Tokens())[0].text)
      ensures valueString == None && (old(valueString).Some? || old(valueType) == TypeList ==> valueType == TypeList)
      ensures valueList == Grown(old(valueList), old(valueString), [text])
    {
      if valueString != None {
        valueType := TypeList;
        valueList := valueList + [valueString.value];
        valueString := None;
      }
      var t;
      ok, t := Take(TString);
      valueList := valueList + [t];
      text := t;
    }

    // string_value : STRING
    method RStringValue() returns (ok: bool, ghost text: string)
      requires Valid() && Idle() && lookahead == TString
      modifies this`lookahead, this`valueType, this`valueString, scanner
      ensures Valid() && ok && Tokens() == old(Tokens())[1..]
      ensures text == CString(old(Tokens())[0].text)
      ensures valueType == TypeString && valueString == Some(text)
    {
      valueType := TypeString;
      var t;
      ok, t := Take(TString);
      valueString := Some(t);
      text := t;
    }

    // string_value opt_string_list
    method RStringOrList() returns (ok: bool)
      requires Valid() && Idle() && lookahead == TString
      modifies this`lookahead, this`valueType, this`valueString, this`valueList, scanner
      ensures Valid()
      ensures var r := ParseMore(old(Tokens())[1..]);
              && ok == r.Some?
              && (ok ==> Tokens() == r.value.1 && Building(StringOrList(CString(old(Tokens())[0].text), Strings(r.value.0))))
    {
      ghost var more := ParseMore(Tokens()[1..]);
      ghost var text;
      ok, text := RStringValue();
      ok := OptStringList();
      if ok {
        GrownFromPending(text, Strings(more.value.0));
      }
    }

    // value : int_value | string_value opt_string_list
    method RValue() returns (ok: bool)
      requires Valid() && Idle()
      modifies this`lookahead, this`valueType, this`valueInt, this`valueString, this`valueList, scanner
      ensures Valid()
      ensures var r := ParseValue(old(Tokens()));
              && ok == r.Some?
              && (ok ==> Tokens() == r.value.1 && Building(ValueOf(r.value.0)))
    {
      if lookahead == TInteger {
        valueType := TypeInt;
        valueInt := Atoi(scanner.tokenText);
        ok := TokenAccept(TInteger);
      } else if lookahead == TString {
        ok := RStringOrList();
      } else {
        if lookahead != TNone && lookahead != TEof {
          // the character is read only to be named in the message
          var _ := scanner.Getc();
        }
        ok := false;
      }
    }

    /** Hands the value to the configuration; false if it is refused. */
    method CallCallback(ghost v: Value) returns (ok: bool)
      requires Building(v) && v != VVoid && currentSection.Some? && currentKey.Some?
      modifies this`valueType, this`valueString, this`valueList, conf
      ensures Idle()
      ensures (conf.sections, ok) == Add(old(conf.sections), Definition(currentSection.value, currentKey.value, v))
    {
      var value;
      match valueType {
        case TypeVoid => value := VVoid;
        case TypeInt => value := VInt(valueInt);
        case TypeString => value := VString(valueString.value);
        case TypeList => value := VList(valueList);
      }
      var ret := conf.AddValue(currentSection.value, currentKey.value, value);
      valueString := None;
      valueList := [];
      valueType := TypeVoid;
      ok := ret == 0;
    }

    /** What is known between two definitions of section name. */
    ghost predicate InSection(name: string)
      reads this, scanner
    {
      Valid() && Idle() && currentSection == Some(CString(name))
    }

    // key '='
    method RKeyEqual() returns (ok: bool)
      requires Valid() && lookahead == TString
      modifies this`lookahead, this`currentKey, scanner
      ensures Valid()
      ensures ok <==> |old(Tokens())| >= 2 && old(Tokens())[1].kind == TEqual
      ensures ok ==> Tokens() == old(Tokens())[2..] && currentKey == Some(CString(old(Tokens())[0].text))
    {
      ghost var ts := Tokens();
      var key;
      ok, key := Take(TString);
      currentKey := Some(key);
      assert Tokens() == ts[1..];
      ok := TokenAccept(TEqual);
    }

    // definition : key '=' value
    method RDefinition(ghost name: string) returns (ok: bool)
      requires InSection(name) && lookahead == TString
      modifies this, scanner, conf
      ensures Valid()
      ensures var ts := old(Tokens());
              var d := ParseDefinition(ts);
              match d
              case None => !ok && conf.sections == old(conf.sections)
              case Some(r) =>
                && (conf.sections, ok)
                   == Add(old(conf.sections), Definition(CString(name), CString(r.0.key), ValueOf(r.0.value)))
                && (ok ==> InSection(name) && Tokens() == r.1)
    {
      ghost var ts := Tokens();
      ok := RKeyEqual();
      if !ok {
        return;
      }
      ok := RValueDelivered(name);
    }

    // value, then the callback
    method RValueDelivered(ghost name: string) returns (ok: bool)
      requires InSection(name) && currentKey.Some?
      modifies this`lookahead, this`valueType, this`valueInt, this`valueString, this`valueList, scanner, conf
      ensures Valid()
      ensures match ParseValue(old(Tokens()))
              case None => !ok && conf.sections == old(conf.sections)
              case Some(r) =>
                && (conf.sections, ok) == Add(old(conf.sections), Definition(CString(name), currentKey.value, ValueOf(r.0)))
                && (ok ==> InSection(name) && Tokens() == r.1)
    {
      ghost var ts := Tokens();
      ok := RValue();
      if ok {
        ok := CallCallback(ValueOf(ParseValue(ts).value.0));
      }
    }

    // definition_list : definition definition_list | EMPTY
    method RDefinitionList(ghost name: string) returns (ok: bool)
      requires InSection(name)
      modifies this, scanner, conf
      ensures Valid()
      ensures var r := ParseDefinitions(old(Tokens()));
              var ds := DeliveredIn(name, r.trees);
              var a := AddAll(old(conf.sections), ds);
              && conf.sections == a.0
              && ok == (r.ok && a.1 == |ds|)
              && (ok ==> InSection(name) && Tokens() == r.rest)
      decreases |Tokens()|
    {
      if lookahead == TString {
        ghost var ts := Tokens();
        ok := RDefinition(name);
        DeliverStep(name, ts, old(conf.sections));
        if ok {
          ok := RDefinitionList(name);
        }
      } else {
        ok := true;
      }
    }

    // section : '[' section_name ']' definition_list
    method RSection() returns (ok: bool)
      requires Valid() && Idle() && lookahead == TLeft
      modifies this, scanner, conf
      ensures Valid()
      ensures var ts := old(Tokens());
              if |ts| < 3 || ts[1].kind != TString || ts[2].kind != TRight then
                !ok && conf.sections == old(conf.sections)
              else
                var r := ParseDefinitions(ts[3..]);
                var ds := DeliveredIn(ts[1].text, r.trees);
                var a := AddAll(old(conf.sections), ds);
                && conf.sections == a.0
                && ok == (r.ok && a.1 == |ds|)
                && (ok ==> Idle() && Tokens() == r.rest)
    {
      ghost var ts := Tokens();
      ok := RSectionHeader();
      if ok {
        ok := RDefinitionList(ts[1].text);
      }
    }

    // '[' section_name ']'
    method RSectionHeader() returns (ok: bool)
      requires Valid() && lookahead == TLeft
      modifies this`lookahead, this`currentSection, scanner
      ensures Valid()
      ensures var ts := old(Tokens()); ok <==> |ts| >= 3 && ts[1].kind == TString && ts[2].kind == TRight
      ensures ok ==> Tokens() == old(Tokens())[3..] && currentSection == Some(CString(old(Tokens())[1].text))
    {
      ghost var ts := Tokens();
      ok := TokenAccept(TLeft);
      assert Tokens() == ts[1..];
      var name;
      ok, name := Take(TString);
      currentSection := Some(name);
      if ok {
        assert Tokens() == ts[2..];
        ok := TokenAccept(TRight);
      }
    }

    // section_list : section section_list | EMPTY
    method RSectionList() returns (ok: bool)
      requires Valid() && Idle()
      modifies this, scanner, conf
      ensures Valid()
      ensures var r := ParseSections(old(Tokens()));
              var ds := Delivered(r.trees);
              var a := AddAll(old(conf.sections), ds);
              && conf.sections == a.0
              && ok == (r.ok && a.1 == |ds|)
              && (ok ==> Tokens() == r.rest)
      decreases |Tokens()|
    {
      if lookahead == TLeft {
        ghost var ts := Tokens();
        ok := RSection();
        if HeaderAt(ts) {
          ghost var p := ParseDefinitions(ts[3..]);
          if p.ok {
            SectionStep(ts);
            AddAllSplit(old(conf.sections), DeliveredIn(ts[1].text, p.trees), Delivered(ParseSections(p.rest).trees));
          } else {
            SectionFails(ts);
          }
        }
        if ok {
          ok := RSectionList();
        }
      } else {
        ok := true;
      }
    }

    /** Parses the whole file: 0 on success, -2 on a syntax error or a refused definition. */
    method Parse() returns (ret: int)
      requires Valid() && Idle()
      modifies this, scanner, conf
      ensures (conf.sections, ret) == Load(old(conf.sections), old(scanner.Rest()))
    {
      lookahead := scanner.GetNextToken(TNone);
      currentSection, currentKey := None, None;
      var ok := RSectionList();
      if ok {
        ok := TokenAccept(TEof);
      }
      ret := if ok then 0 else -2;
    }
  }

  /** One definition more of a definition list. */
  lemma {:induction false} DeliverStep(name: string, ts: seq<Token>, st: seq<SectionEntry>)
    requires ts != [] && Peek(ts) == TString
    ensures var r := ParseDefinitions(ts);
            var ds := DeliveredIn(name, r.trees);
            match ParseDefinition(ts)
            case None => !r.ok && ds == []
            case Some(d) =>
              var tail := ParseDefinitions(d.1);
              var first := Definition(CString(name), CString(d.0.key), ValueOf(d.0.value));
              var a := Add(st, first);
              && r.ok == tail.ok && r.rest == tail.rest
              && ds == [first] + DeliveredIn(name, tail.trees)
              && (!a.1 ==> AddAll(st, ds) == (st, 0))
              && (a.1 ==>
                    var b := AddAll(a.0, DeliveredIn(name, tail.trees));
                    AddAll(st, ds) == (b.0, b.1 + 1))
  {
    match ParseDefinition(ts)
    case None =>
    case Some(d) =>
      var tail := ParseDefinitions(d.1);
      ConsDefinition(name, d.0, tail.trees);
      AddAllCons(st, Definition(CString(name), CString(d.0.key), ValueOf(d.0.value)), DeliveredIn(name, tail.trees));
  }

  lemma {:induction false} AddAllCons(st: seq<SectionEntry>, d: Definition, ds: seq<Definition>)
    ensures var a := Add(st, d);
            AddAll(st, [d] + ds) == if a.1 then var b := AddAll(a.0, ds); (b.0, b.1 + 1) else (st, 0)
  {
    assert ([d] + ds)[1..] == ds;
  }

  ghost predicate HeaderAt(ts: seq<Token>) {
    |ts| >= 3 && ts[0].kind == TLeft && ts[1].kind == TString && ts[2].kind == TRight
  }

  /** A section whose definitions are in error ends the section list. */
  lemma {:induction false} SectionFails(ts: seq<Token>)
    requires HeaderAt(ts) && !ParseDefinitions(ts[3..]).ok
    ensures !ParseSections(ts).ok
    ensures Delivered(ParseSections(ts).trees) == DeliveredIn(ts[1].text, ParseDefinitions(ts[3..]).trees)
  {
    ConsSection(SectionTree(ts[1].text, ParseDefinitions(ts[3..]).trees), []);
  }

  /** One section more of a section list. */
  lemma {:induction false} SectionStep(ts: seq<Token>)
    requires HeaderAt(ts) && ParseDefinitions(ts[3..]).ok
    ensures var p := ParseDefinitions(ts[3..]);
            var tail := ParseSections(p.rest);
            && ParseSections(ts).ok == tail.ok && ParseSections(ts).rest == tail.rest
            && Delivered(ParseSections(ts).trees) == DeliveredIn(ts[1].text, p.trees) + Delivered(tail.trees)
  {
    var p := ParseDefinitions(ts[3..]);
    ConsSection(SectionTree(ts[1].text, p.trees), ParseSections(p.rest).trees);
  }

  /** a6o_conf_load_file without its constant result; file is None when it cannot be opened. */
  method LoadFile(conf: Conf, file: Option<string>) returns (ret: int)
    modifies conf
    ensures file == None ==> ret == -1 && conf.sections == old(conf.sections)
    ensures file.Some? ==> (conf.sections, ret) == Load(old(conf.sections), file.value)
  {
    if file == None {
      return -1;
    }
    var cp := new Parser(file.value, conf);
    ret := cp.Parse();
  }

  function StringOrList(first: string, more: seq<string>): Value {
    if more == [] then VString(first) else VList([first] + more)
  }

  /** A list after its pending first element and further items have been added. */
  function Grown(list: seq<string>, pending: Option<string>, items: seq<string>): seq<string> {
    list + (if pending.Some? then [pending.value] else []) + items
  }

  lemma GrownFromPending(text: string, items: seq<string>)
    ensures Grown([], Some(text), items) == [text] + items
  {
  }

  lemma GrownStep(list: seq<string>, pending: Option<string>, text: string, items: seq<string>)
    ensures Grown(Grown(list, pending, [text]), None, items) == Grown(list, pending, [text] + items)
    ensures items == [] ==> Grown(list, pending, [text]) == Grown(list, pending, [text] + items)
  {
  }

  lemma ParseMoreStep(ts: seq<Token>)
    requires |ts| >= 2 && (ts[0].kind == TComma || ts[0].kind == TSemi) && ts[1].kind == TString
    ensures ParseMore(ts).Some? <==> ParseMore(ts[2..]).Some?
    ensures ParseMore(ts).Some? ==>
              var a, b := ParseMore(ts).value, ParseMore(ts[2..]).value;
              a.1 == b.1 && a.0 != [] && Strings(a.0) == [CString(ts[1].text)] + Strings(b.0)
  {
    if ParseMore(ts).Some? {
      assert ParseMore(ts).value.0[1..] == ParseMore(ts[2..]).value.0;
    }
  }

  lemma Associate(a: string, b: string, c: string)
    ensures (a + b) + c == a + (b + c)
  {
  }

  /** The text of the first n elements of a list. */
  ghost predicate PrintedUpTo(text: string, l: seq<string>, n: nat)
    requires n <= |l|
  {
    if n == 0 then text == "" else text + PrintMore(l[n..]) == PrintValue(VList(l))
  }

  lemma PrintListStep(text: string, l: seq<string>, n: nat)
    requires n < |l| && PrintedUpTo(text, l, n)
    ensures PrintedUpTo(text + ((if n == 0 then " " else "; ") + Quoted(l[n])), l, n + 1)
  {
    if n == 0 {
      assert "" + (" " + Quoted(l[0])) == " " + Quoted(l[0]);
    } else {
      PrintMoreItem(text, l, n);
    }
  }

  lemma PrintMoreItem(text: string, l: seq<string>, n: nat)
    requires n < |l|
    ensures text + PrintMore(l[n..]) == (text + ("; " + Quoted(l[n]))) + PrintMore(l[n + 1..])
  {
    assert l[n..][1..] == l[n + 1..];
    Associate(text, "; " + Quoted(l[n]), PrintMore(l[n + 1..]));
  }

  lemma {:induction false} PrintKeysAppend(keys: seq<KeyEntry>, j: nat)
    requires j < |keys|
    ensures PrintKeys(keys[..j + 1]) == PrintKeys(keys[..j]) + PrintDefinition(keys[j])
    decreases j
  {
    if j == 0 {
      assert keys[..1][1..] == [];
    } else {
      PrintKeysAppend(keys[1..], j - 1);
      assert keys[..j + 1][1..] == keys[1..][..j];
      assert keys[..j][1..] == keys[1..][..j - 1];
      Associate(PrintDefinition(keys[0]), PrintKeys(keys[1..][..j - 1]), PrintDefinition(keys[j]));
    }
  }

  /** What printing has added after j keys of section s, p being the section printed before. */
  function PrintedSoFar(p: Option<string>, s: SectionEntry, j: nat): string
    requires j <= |s.keys|
  {
    if j == 0 then "" else (if p == Some(s.name) then "" else PrintHeader(s.name)) + PrintKeys(s.keys[..j])
  }

  lemma PrintedOneMore(p: Option<string>, s: SectionEntry, j: nat)
    requires j < |s.keys|
    ensures var header := if (if j == 0 then p else Some(s.name)) == Some(s.name) then "" else PrintHeader(s.name);
            PrintedSoFar(p, s, j) + (header + PrintDefinition(s.keys[j])) == PrintedSoFar(p, s, j + 1)
  {
    PrintKeysAppend(s.keys, j);
    var header := if p == Some(s.name) then "" else PrintHeader(s.name);
    Associate(header, PrintKeys(s.keys[..j]), PrintDefinition(s.keys[j]));
  }

  lemma PrintedSection(base: string, p: Option<string>, st: seq<SectionEntry>)
    requires st != []
    ensures base + PrintFrom(p, st)
         == (base + PrintedSoFar(p, st[0], |st[0].keys|))
            + PrintFrom(if st[0].keys == [] then p else Some(st[0].name), st[1..])
  {
    var s := st[0];
    assert s.keys[..|s.keys|] == s.keys;
    if s.keys != [] {
      Associate(base, PrintedSoFar(p, s, |s.keys|), PrintFrom(Some(s.name), st[1..]));
    }
  }

}
