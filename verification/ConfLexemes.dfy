/**
  What the lexical analyser reads, told from the text: one law for every way in
  which a text can begin.
 */
module ConfLexemes {
  import opened ConfScan
  import opened ConfStore
  import opened ConfText

  const BLANKS := " \t"
  const DIGITS := "0123456789"
  const LOWER := "abcdefghijklmnopqrstuvwxyz"
  const UPPER := "ABCDEFGHIJKLMNOPQRSTUVWXYZ"
  const LETTERS := LOWER + UPPER

  /** The character classes, listed. */
  lemma CharacterClasses(c: char)
    ensures IsBlank(c) <==> c in BLANKS
    ensures IsDigit(c) <==> c in DIGITS
    ensures IsFirstIdentifier(c) <==> c in LETTERS || c == '_'
    ensures IsIdentifier(c) <==> c in LETTERS || c in DIGITS || c == '-' || c == '_'
    ensures IsSpace(c) <==> c == ' ' || 9 <= c as int <= 13
    ensures IsPunctuation(c) <==> c in "[]=,;"
  {
    Span(DIGITS, '0', c);
    Span(LOWER, 'a', c);
    Span(UPPER, 'A', c);
  }

  /** Consecutive characters are an interval. */
  lemma Span(text: string, first: char, c: char)
    requires forall i :: 0 <= i < |text| ==> text[i] as int == first as int + i
    ensures c in text <==> first as int <= c as int < first as int + |text|
  {
    if first as int <= c as int < first as int + |text| {
      assert text[c as int - first as int] == c;
    }
  }

  // ---------------------------------------------------------------------
  // What is skipped
  // ---------------------------------------------------------------------

  lemma {:induction false} ScanComment(x: string, s: string, previous: Kind)
    requires '\n' !in x
    ensures Scan(SComment, "", x + ("\n" + s), previous) == NextToken(s, previous)
    ensures Scan(SComment, "", x, previous) == (Token(TEof, ""), "")
    decreases |x|
  {
    if x == "" {
      assert x + ("\n" + s) == "\n" + s && ("\n" + s)[1..] == s;
    } else {
      assert (x + ("\n" + s))[1..] == x[1..] + ("\n" + s);
      ScanComment(x[1..], s, previous);
    }
  }

  /** A comment goes on to the end of its line, and what follows is read as if it were not there. */
  lemma CommentSkipped(x: string, s: string, previous: Kind)
    requires '\n' !in x
    ensures NextToken("#" + x + "\n" + s, previous) == NextToken(s, previous)
    ensures NextToken("#" + x, previous) == (Token(TEof, ""), "")
  {
    assert "#" + x + "\n" + s == "#" + (x + ("\n" + s));
    assert ("#" + (x + ("\n" + s)))[1..] == x + ("\n" + s) && ("#" + x)[1..] == x;
    ScanComment(x, s, previous);
  }

  lemma {:induction false} ScanSpaces(w: string, s: string, previous: Kind)
    requires (forall i :: 0 <= i < |w| ==> IsSpace(w[i])) && (s != "" ==> !IsSpace(s[0]))
    ensures Scan(SSpace, "", w + s, previous) == NextToken(s, previous)
    decreases |w|
  {
    if w == "" {
      assert w + s == s;
    } else {
      assert (w + s)[1..] == w[1..] + s;
      ScanSpaces(w[1..], s, previous);
    }
  }

  /** After a blank all white space is skipped, newlines too, and also after an equal sign. */
  lemma SpacesSkipped(b: char, w: string, s: string, previous: Kind)
    requires b in BLANKS && (forall i :: 0 <= i < |w| ==> IsSpace(w[i])) && (s != "" ==> !IsSpace(s[0]))
    ensures NextToken([b] + w + s, previous) == NextToken(s, previous)
  {
    assert [b] + w + s == [b] + (w + s);
    assert ([b] + (w + s))[1..] == w + s;
    ScanSpaces(w, s, previous);
  }

  /** A character that begins no token is skipped, except after an equal sign, where it ends the parse and stays unread. */
  lemma OtherCharacter(c: char, s: string, previous: Kind)
    requires c !in BLANKS && c !in DIGITS && c !in LETTERS && c !in "_#\""
    ensures previous == TEqual ==> NextToken([c] + s, previous) == (Token(if c == '\n' then TNone else TError, ""), [c] + s)
    ensures previous != TEqual && c !in "[]=,;" ==> NextToken([c] + s, previous) == NextToken(s, previous)
  {
    CharacterClasses(c);
    assert ([c] + s)[1..] == s;
  }

  // ---------------------------------------------------------------------
  // What is read
  // ---------------------------------------------------------------------

  lemma EndOfFile(previous: Kind)
    ensures NextToken("", previous) == (Token(TEof, ""), "")
  {
  }

  /** Each punctuation character is its own token. */
  lemma PunctuationRead(c: char, s: string, previous: Kind)
    requires c in "[]=,;" && previous != TEqual
    ensures var r := NextToken([c] + s, previous);
            && r.0.text == [c] && r.1 == s
            && r.0.kind == if c == '[' then TLeft else if c == ']' then TRight else if c == '=' then TEqual
                           else if c == ',' then TComma else TSemi
  {
    CharacterClasses(c);
    assert ([c] + s)[1..] == s && "" + [c] == [c];
  }

  lemma {:induction false} ScanIdentifierToEnd(text: string, x: string, previous: Kind)
    requires forall i :: 0 <= i < |x| ==> IsIdentifier(x[i])
    ensures Scan(SIdentifier, text, x, previous) == (Token(TEof, text + x), "")
    decreases |x|
  {
    if x == "" {
      assert text + x == text;
    } else {
      ScanIdentifierToEnd(text + [x[0]], x[1..], previous);
      assert text + x == (text + [x[0]]) + x[1..];
    }
  }

  lemma {:induction false} ScanDigitsToEnd(text: string, x: string, previous: Kind)
    requires forall i :: 0 <= i < |x| ==> IsDigit(x[i])
    ensures Scan(SInteger, text, x, previous) == (Token(TEof, text + x), "")
    decreases |x|
  {
    if x == "" {
      assert text + x == text;
    } else {
      ScanDigitsToEnd(text + [x[0]], x[1..], previous);
      assert text + x == (text + [x[0]]) + x[1..];
    }
  }

  lemma {:induction false} ScanStringToEnd(text: string, x: string, previous: Kind)
    requires '"' !in x
    ensures Scan(SString, text, x, previous) == (Token(TEof, text + x), "")
    decreases |x|
  {
    if x == "" {
      assert text + x == text;
    } else {
      ScanStringToEnd(text + [x[0]], x[1..], previous);
      assert text + x == (text + [x[0]]) + x[1..];
    }
  }

  /** An identifier is read up to the first character that cannot go on with it; one that the file ends with is lost. */
  lemma IdentifierRead(x: string, s: string, previous: Kind)
    requires Identifier(x) && (s != "" ==> !IsIdentifier(s[0]))
    ensures NextToken(x + s, previous) == if s == "" then (Token(TEof, x), "") else (Token(TString, x), s)
  {
    if s != "" {
      NextIdentifier(x, s, previous);
    } else {
      assert x + s == x && "" + [x[0]] == [x[0]];
      ScanIdentifierToEnd([x[0]], x[1..], previous);
      assert [x[0]] + x[1..] == x;
    }
  }

  /** Digits are read up to the first other character; those that the file ends with are lost. */
  lemma DigitsRead(x: string, s: string, previous: Kind)
    requires x != "" && (forall i :: 0 <= i < |x| ==> IsDigit(x[i])) && (s != "" ==> !IsDigit(s[0]))
    ensures NextToken(x + s, previous) == if s == "" then (Token(TEof, x), "") else (Token(TInteger, x), s)
  {
    if s != "" {
      NextDigits(x, s, previous);
    } else {
      assert x + s == x && "" + [x[0]] == [x[0]];
      ScanDigitsToEnd([x[0]], x[1..], previous);
      assert [x[0]] + x[1..] == x;
    }
  }

  /** A string is what is between two quotes, newlines and number signs included; one without a second quote is lost. */
  lemma StringRead(x: string, s: string, previous: Kind)
    requires '"' !in x
    ensures NextToken("\"" + x + "\"" + s, previous) == (Token(TString, x), s)
    ensures NextToken("\"" + x, previous) == (Token(TEof, x), "")
  {
    NextQuoted(x, s, previous);
    assert ("\"" + x)[1..] == x;
    ScanStringToEnd("", x, previous);
    assert "" + x == x;
  }

  /** A name or string that is kept ends before its first NUL. */
  lemma {:induction false} KeptUpToNul(a: string, b: string)
    requires '\0' !in a
    ensures CString(a + "\0" + b) == a && CString(a) == a
    decreases |a|
  {
    if a == "" {
      assert a + "\0" + b == "\0" + b;
    } else {
      assert (a + "\0" + b)[1..] == a[1..] + "\0" + b;
      KeptUpToNul(a[1..], b);
      assert a == [a[0]] + a[1..];
    }
  }

  // ---------------------------------------------------------------------
  // Numbers
  // ---------------------------------------------------------------------

  predicate AllDigits(s: string) {
    forall i :: 0 <= i < |s| ==> IsDigit(s[i])
  }

  function PowerOfTen(n: nat): nat {
    if n == 0 then 1 else 10 * PowerOfTen(n - 1)
  }

  /** The digits of a number are decimal, the first one the highest. */
  lemma {:induction false} DigitsAreDecimal(s: string)
    requires s != "" && AllDigits(s)
    ensures DigitsValue(s) == (s[0] as int - 48) * PowerOfTen(|s| - 1) + DigitsValue(s[1..])
    ensures DigitsValue("") == 0
  {
    var n := |s| - 1;
    if n > 0 {
      DigitsAreDecimal(s[..n]);
      assert s[..n][1..] == s[1..][..n - 1] && s[1..][n - 1] == s[n];
      assert DigitsValue(s[1..]) == 10 * DigitsValue(s[..n][1..]) + Digit(s[n]);
      assert DigitsValue(s) == 10 * DigitsValue(s[..n]) + Digit(s[n]);
      Distribute(s[0] as int - 48, PowerOfTen(n - 1), DigitsValue(s[..n][1..]));
    } else {
      assert s[..0] == "" && s[1..] == "" && PowerOfTen(0) == 1;
    }
  }

  lemma Distribute(a: int, b: int, c: int)
    ensures 10 * (a * b + c) == a * (10 * b) + 10 * c
  {
  }

  /** A number is cut to 32 bits, and one that does not fit in 64 reads as -1. */
  lemma AtoiMeaning(s: string)
    requires AllDigits(s)
    ensures var v := DigitsValue(s);
            && -0x8000_0000 <= Atoi(s) < 0x8000_0000
            && (v < 0x8000_0000_0000_0000 ==> (v - Atoi(s)) % 0x1_0000_0000 == 0)
            && (v >= 0x8000_0000_0000_0000 ==> Atoi(s) == -1)
  {
  }

  // ---------------------------------------------------------------------
  // Positions
  // ---------------------------------------------------------------------

  /** The line is one more than the newlines before; the column one more than the characters since the last of them. */
  lemma {:induction false} PositionMeaning(a: string, b: string)
    requires '\n' !in b
    ensures Line(a) == 1 + multiset(a)['\n']
    ensures Column(b) == 1 + |b| && Column(a + "\n" + b) == 1 + |b|
    decreases |a| + |b|
  {
    if b != "" {
      var n := |b| - 1;
      PositionMeaning(a, b[..n]);
      assert (a + "\n" + b)[..|a| + |b|] == a + "\n" + b[..n];
      assert (a + "\n" + b)[|a| + |b|] == b[n];
    } else {
      assert a + "\n" + b == a + "\n";
      if a != "" {
        var n := |a| - 1;
        PositionMeaning(a[..n], b);
        assert a == a[..n] + [a[n]];
      }
    }
  }

}
